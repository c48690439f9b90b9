/** Which requests exclude each other, read off their headers (lib/service/transaction/transaction_mgr_impl.go). */
module TransactionKeys {
  import opened Options
  import opened TransactionShard
  import opened ShardRuns
  import opened TransactionMgr

  /** Two requests share a router; or, both without one, a user; or the router of one has the number of
      the other's user, who has no router. */
  predicate Clashes(p: Packet, q: Packet) {
    || (p.routerId != 0 && q.routerId != 0 && p.routerId == q.routerId)
    || (p.routerId == 0 && q.routerId == 0 && p.uid != 0 && p.uid == q.uid)
    || (p.routerId != 0 && q.routerId == 0 && p.routerId == q.uid)
    || (p.routerId == 0 && q.routerId != 0 && p.uid == q.routerId)
  }

  /** The number a request is serialised under. */
  function Number(p: Packet): nat {
    if p.routerId == 0 then p.uid else p.routerId
  }

  lemma KeyOfHeader(p: Packet, q: Packet)
    ensures Clashes(p, q) <==> SerialKey(p).Some? && SerialKey(p) == SerialKey(q)
    ensures SerialKey(p) == if Number(p) == 0 then None else Some(Number(p))
  {
  }

  /** In every reachable state of the manager two running transactions share neither a router nor, both
      without one, a user, in whichever shards they run. */
  lemma NeverTogether(cfg: Config, maxTrans: nat, shardCount: nat, ms: seq<Mgr>, steps: seq<(nat, Event)>,
                      i: nat, id: nat, j: nat, id': nat)
    requires 0 < shardCount < UINT32 && Trace(ms, steps) && ms[0] == NewMgr(cfg, maxTrans, shardCount)
    requires NoIdWrap(ms[|steps|])
    requires i < |ms[|steps|].runs| && j < |ms[|steps|].runs| && (i != j || id != id')
    requires id in ms[|steps|].runs[i].sh.transMap && id' in ms[|steps|].runs[j].sh.transMap
    ensures var (p, q) := (ms[|steps|].runs[i].sh.transMap[id], ms[|steps|].runs[j].sh.transMap[id']);
            && (p.routerId != 0 ==> p.routerId != q.routerId)
            && (p.routerId == 0 && q.routerId == 0 && p.uid != 0 ==> p.uid != q.uid)
            && !Clashes(p, q)
  {
    var m := ms[|steps|];
    var p, q := m.runs[i].sh.transMap[id], m.runs[j].sh.transMap[id'];
    KeyOfHeader(p, q);
    hide Trace, MgrInv, SerialKey;
    ReachableInv(cfg, maxTrans, shardCount, ms, steps);
    if Clashes(p, q) {
      OneTransactionPerKey(m, i, id, j, id', SerialKey(p).value);
    }
  }

  /** A new request reaches exactly the shard its header selects, or any when it has no number. */
  lemma ArrivesExactly(m: Mgr, i: nat, p: Packet)
    requires MgrInv(m) && m.runs != [] && forall j :: 0 <= j < |m.runs| ==> p !in m.runs[j].place
    ensures MgrEnabled(m, i, Arrive(p)) <==> i < |m.runs| && (Number(p) != 0 ==> i == Number(p) % |m.runs|)
  {
    KeyOfHeader(p, p);
    if i < |m.runs| {
      assert HomeOk(m, i);
    }
  }

  /** Some transaction that runs here clashes with the request. */
  ghost predicate Blocked(sh: Shard, p: Packet) {
    exists id :: id in sh.transMap && Clashes(sh.transMap[id], p)
  }

  lemma BlockedIsMarked(sh: Shard, p: Packet)
    requires KeysExact(sh)
    ensures Blocked(sh, p) <==> Number(p) != 0 && Number(p) in sh.keyInProcess
  {
    KeyOfHeader(p, p);
    if Blocked(sh, p) {
      var id :| id in sh.transMap && Clashes(sh.transMap[id], p);
      KeyOfHeader(sh.transMap[id], p);
      assert HasKey(sh.transMap[id], Number(p));
      assert Runs(sh, Number(p));
    }
    if Number(p) != 0 && Number(p) in sh.keyInProcess {
      assert Runs(sh, Number(p));
      var id :| id in sh.transMap && HasKey(sh.transMap[id], Number(p));
      KeyOfHeader(sh.transMap[id], p);
    }
  }

  /** What becomes of a request, by its header and by what runs: it waits or is turned away for a full
      queue exactly when a running transaction clashes with it, and starts exactly when none does, its
      deadline has not passed, its command has a handler and a slot is free. */
  lemma OutcomeExactly(cfg: Config, sh: Shard, p: Packet, expired: bool, slotFree: bool)
    requires ShardInv(cfg, sh)
    ensures var (sh', out) := Dispatch(cfg, sh, p, expired, slotFree);
            && (out.Started? <==> !expired && !Blocked(sh, p) && p.cmd in cfg.handlers && slotFree)
            && (out.Queued? <==> !expired && Blocked(sh, p) && |QueueOf(sh, Number(p))| < cfg.maxPendingPerKey)
            && (out == Refused(-1) <==> !expired && Blocked(sh, p) && |QueueOf(sh, Number(p))| >= cfg.maxPendingPerKey)
            && (out == Refused(-6) <==> expired)
            && (out == Refused(-2) <==> !expired && !Blocked(sh, p) && p.cmd !in cfg.handlers)
            && (out == Refused(-5) <==> !expired && !Blocked(sh, p) && p.cmd in cfg.handlers && !slotFree)
            && (out.Started? ==> sh'.transMap == sh.transMap[out.id := p] && sh'.pending == sh.pending)
            && (out.Queued? ==> sh'.transMap == sh.transMap
                                && sh'.pending == sh.pending[Number(p) := QueueOf(sh, Number(p)) + [p]])
            && (out.Refused? ==> sh' == sh)
  {
    BlockedIsMarked(sh, p);
    KeyOfHeader(p, p);
  }

  /** Requests of different routers never make each other wait, whoever their users are. */
  lemma RoutersIndependent(cfg: Config, sh: Shard, p: Packet, expired: bool, slotFree: bool)
    requires ShardInv(cfg, sh) && p.routerId != 0
    requires forall id :: id in sh.transMap ==> sh.transMap[id].routerId != 0 && sh.transMap[id].routerId != p.routerId
    ensures !Blocked(sh, p)
    ensures var out := Dispatch(cfg, sh, p, expired, slotFree).1; !out.Queued? && out != Refused(-1)
  {
    OutcomeExactly(cfg, sh, p, expired, slotFree);
  }

  /** A router and a user without one that have the same number do: one number space serves both. */
  lemma UserWaitsForRouter(cfg: Config, sh: Shard, id: nat, p: Packet, slotFree: bool)
    requires ShardInv(cfg, sh) && id in sh.transMap && p.routerId == 0 && p.uid == sh.transMap[id].routerId != 0
    ensures !Dispatch(cfg, sh, p, false, slotFree).1.Started?
  {
    OutcomeExactly(cfg, sh, p, false, slotFree);
    assert Clashes(sh.transMap[id], p);
  }

  /** Ending a transaction hands on the request that waited longest among those that clash with it. */
  lemma NextExactly(cfg: Config, sh: Shard, id: nat)
    requires ShardInv(cfg, sh) && id in sh.transMap
    ensures var (p, (sh', next)) := (sh.transMap[id], Retire(sh, id));
            && sh'.transMap == sh.transMap - {id}
            && (next.Some? <==> Number(p) != 0 && Number(p) in sh.pending)
            && (next.Some? ==> next.value == sh.pending[Number(p)][0] && Clashes(p, next.value)
                               && QueueOf(sh', Number(p)) == sh.pending[Number(p)][1..])
            && (forall key :: key != Number(p) ==> QueueOf(sh', key) == QueueOf(sh, key))
  {
    var p := sh.transMap[id];
    KeyOfHeader(p, p);
    if Number(p) != 0 && Number(p) in sh.pending {
      assert QueueOk(cfg, Number(p), sh.pending[Number(p)]);
      KeyOfHeader(p, sh.pending[Number(p)][0]);
    }
  }
}
