/** The whole transaction manager: routing, the shared transaction slots, and what holds across all
    shards in every run (lib/service/transaction/transaction_mgr_impl.go). */
module TransactionMgr {
  import opened Options
  import opened WheelArithmetic
  import opened TransactionShard
  import opened ShardRuns
  import opened ShardOrder

  datatype Mgr = Mgr(cfg: Config, maxTrans: nat, runs: seq<Run>, active: int, pendingPackets: int)

  function NewMgr(cfg: Config, maxTrans: nat, shardCount: nat): Mgr {
    Mgr(cfg, maxTrans, seq(shardCount, i requires i >= 0 => NewRun(i, shardCount)), 0, 0)
  }

  /** selectShard: by the transaction a response is for, else by the serial key, else in turn. */
  function SelectShard(shardCount: nat, dstTransId: nat, key: Option<nat>, turn: nat): nat
    requires shardCount > 0
  {
    if shardCount == 1 then 0
    else if dstTransId != 0 then (dstTransId - 1) % shardCount
    else if key.Some? then key.value % shardCount
    else turn % shardCount
  }

  /** A step of one shard. Its slot test sees the shared count; requests go where selectShard says. */
  predicate MgrEnabled(m: Mgr, i: nat, e: Event) {
    && i < |m.runs| && Enabled(m.runs[i], e)
    && match e
       case Arrive(p) =>
         && (forall j :: 0 <= j < |m.runs| ==> p !in m.runs[j].place)
         && (SerialKey(p).Some? ==> i == SelectShard(|m.runs|, 0, SerialKey(p), 0))
       case Handle(_, slotFree) => slotFree == (m.active < m.maxTrans)
       case Redispatch(_, slotFree) => slotFree == (m.active < m.maxTrans)
       case Return(_) => true
  }

  /** The number of transactions started, minus those ended, by an event. */
  function SlotsTaken(m: Mgr, r: Run, e: Event): int
    requires Enabled(r, e)
  {
    match e
    case Arrive(_) => 0
    case Handle(expired, slotFree) => if Dispatch(m.cfg, r.sh, r.inbox[0], expired, slotFree).1.Started? then 1 else 0
    case Redispatch(expired, slotFree) => if Dispatch(m.cfg, r.sh, r.inHand.value, expired, slotFree).1.Started? then 1 else 0
    case Return(_) => -1
  }

  /** The number of requests put into queues, minus those taken out, by an event. */
  function PacketsQueued(m: Mgr, r: Run, e: Event): int
    requires Enabled(r, e)
  {
    match e
    case Arrive(_) => 0
    case Handle(expired, slotFree) => if Dispatch(m.cfg, r.sh, r.inbox[0], expired, slotFree).1.Queued? then 1 else 0
    case Redispatch(expired, slotFree) => if Dispatch(m.cfg, r.sh, r.inHand.value, expired, slotFree).1.Queued? then 1 else 0
    case Return(id) => if Retire(r.sh, id).1.Some? then -1 else 0
  }

  function MgrStep(m: Mgr, i: nat, e: Event): Mgr
    requires MgrEnabled(m, i, e)
  {
    var r := m.runs[i];
    m.(runs := m.runs[i := Step(m.cfg, r, e)],
       active := m.active + SlotsTaken(m, r, e),
       pendingPackets := m.pendingPackets + PacketsQueued(m, r, e))
  }

  // ---- the invariant of the manager ---------------------------------------------------------------

  ghost function TransTotal(runs: seq<Run>): int {
    if runs == [] then 0 else |runs[0].sh.transMap| + TransTotal(runs[1..])
  }

  ghost function WaitTotal(runs: seq<Run>): int {
    if runs == [] then 0 else Total(runs[0].sh.pending) + WaitTotal(runs[1..])
  }

  lemma {:induction false} TotalsAfterStep(runs: seq<Run>, i: nat, r: Run)
    requires i < |runs|
    ensures TransTotal(runs[i := r]) == TransTotal(runs) - |runs[i].sh.transMap| + |r.sh.transMap|
    ensures WaitTotal(runs[i := r]) == WaitTotal(runs) - Total(runs[i].sh.pending) + Total(r.sh.pending)
  {
    if i > 0 {
      assert runs[i := r][1..] == runs[1..][i - 1 := r];
      TotalsAfterStep(runs[1..], i - 1, r);
    } else {
      assert runs[i := r][1..] == runs[1..];
    }
  }

  ghost predicate HomeOk(m: Mgr, i: nat)
    requires i < |m.runs|
  {
    var r := m.runs[i];
    && r.sh.index == i && r.sh.step == |m.runs|
    && RunInv(m.cfg, r) && Orderly(r)
    && forall p :: p in r.place ==> Routed(r.sh, p)
  }

  ghost predicate MgrInv(m: Mgr) {
    && (forall i :: 0 <= i < |m.runs| ==> HomeOk(m, i))
    && m.active == TransTotal(m.runs) && m.pendingPackets == WaitTotal(m.runs)
    && m.active <= m.maxTrans
  }

  predicate NoIdWrap(m: Mgr) {
    forall i :: 0 <= i < |m.runs| ==> NoWrap(m.runs[i].sh)
  }

  lemma StepTotals(m: Mgr, i: nat, e: Event)
    requires MgrEnabled(m, i, e) && RunInv(m.cfg, m.runs[i]) && NoWrap(Step(m.cfg, m.runs[i], e).sh)
    ensures |Step(m.cfg, m.runs[i], e).sh.transMap| == |m.runs[i].sh.transMap| + SlotsTaken(m, m.runs[i], e)
    ensures Total(Step(m.cfg, m.runs[i], e).sh.pending) == Total(m.runs[i].sh.pending) + PacketsQueued(m, m.runs[i], e)
  {
    var r := m.runs[i];
    match e
    case Arrive(_) =>
    case Handle(expired, slotFree) => DispatchTotals(m.cfg, r.sh, r.inbox[0], expired, slotFree);
    case Redispatch(expired, slotFree) => DispatchTotals(m.cfg, r.sh, r.inHand.value, expired, slotFree);
    case Return(id) => RetireWeight(m.cfg, r.sh, id);
  }

  lemma StartedIdFresh(cfg: Config, sh: Shard, p: Packet, expired: bool, slotFree: bool)
    requires ShardInv(cfg, sh) && NoWrap(Dispatch(cfg, sh, p, expired, slotFree).0)
    ensures Dispatch(cfg, sh, p, expired, slotFree).1.Started? ==> sh.nextTransId !in sh.transMap
  {
    if Dispatch(cfg, sh, p, expired, slotFree).1.Started? {
      assert (sh.allocs + 1) * sh.step == sh.allocs * sh.step + sh.step;
      NewId(sh);
    }
  }

  lemma DispatchTotals(cfg: Config, sh: Shard, p: Packet, expired: bool, slotFree: bool)
    requires ShardInv(cfg, sh) && NoWrap(Dispatch(cfg, sh, p, expired, slotFree).0)
    ensures var (sh', out) := Dispatch(cfg, sh, p, expired, slotFree);
            && |sh'.transMap| == |sh.transMap| + (if out.Started? then 1 else 0)
            && Total(sh'.pending) == Total(sh.pending) + (if out.Queued? then 1 else 0)
  {
    hide Total, Dispatch, ShardInv, NoWrap;
    StartedIdFresh(cfg, sh, p, expired, slotFree);
    DispatchMaps(cfg, sh, p, expired, slotFree);
    if Dispatch(cfg, sh, p, expired, slotFree).1.Queued? {
      TotalUpdate(sh.pending, SerialKey(p).value, QueueOf(sh, SerialKey(p).value) + [p]);
    }
  }

  lemma HomeAfterStep(m: Mgr, i: nat, e: Event)
    requires MgrEnabled(m, i, e) && HomeOk(m, i) && NoWrap(Step(m.cfg, m.runs[i], e).sh)
    ensures HomeOk(MgrStep(m, i, e), i)
  {
    StepKeepsInv(m.cfg, m.runs[i], e);
    StepKeepsOrder(m.cfg, m.runs[i], e);
    hide RunInv, Orderly;
    PlacesRouted(m, i, e);
  }

  lemma PlacesRouted(m: Mgr, i: nat, e: Event)
    requires MgrEnabled(m, i, e) && RunInv(m.cfg, m.runs[i])
    requires forall p :: p in m.runs[i].place ==> Routed(m.runs[i].sh, p)
    requires m.runs[i].sh.step > 0
    ensures var r' := Step(m.cfg, m.runs[i], e);
            r'.sh.index == m.runs[i].sh.index && r'.sh.step == m.runs[i].sh.step
            && forall p :: p in r'.place ==> Routed(r'.sh, p)
  {
    var r := m.runs[i];
    match e
    case Arrive(p) =>
    case Handle(expired, slotFree) => assert At(r, r.inbox[0], Inbox);
    case Redispatch(expired, slotFree) => assert At(r, r.inHand.value, InHand);
    case Return(id) =>
      assert At(r, r.sh.transMap[id], Running(id));
      var own := SerialKey(r.sh.transMap[id]);
      if own.Some? && own.value in r.sh.pending {
        assert QueuePlaced(r, r.sh.pending[own.value]) && QueueOk(m.cfg, own.value, r.sh.pending[own.value]);
        assert At(r, r.sh.pending[own.value][0], Waiting);
      }
  }

  lemma SlotTest(m: Mgr, i: nat, e: Event)
    requires MgrEnabled(m, i, e) && m.active <= m.maxTrans
    ensures m.active + SlotsTaken(m, m.runs[i], e) <= m.maxTrans
  {
  }

  lemma HomesAfterStep(m: Mgr, i: nat, e: Event)
    requires MgrInv(m) && MgrEnabled(m, i, e) && NoIdWrap(MgrStep(m, i, e))
    ensures forall j :: 0 <= j < |m.runs| ==> HomeOk(MgrStep(m, i, e), j)
  {
    var m' := MgrStep(m, i, e);
    assert NoWrap(m'.runs[i].sh);
    hide NoWrap, TransTotal, WaitTotal, SlotsTaken, PacketsQueued;
    forall j | 0 <= j < |m.runs|
      ensures HomeOk(m', j)
    {
      assert HomeOk(m, j);
      if j == i {
        HomeAfterStep(m, i, e);
      } else {
        hide Step, MgrEnabled, RunInv, Orderly;
      }
    }
  }

  /** One step of any shard keeps the whole manager consistent. */
  lemma MgrStepKeepsInv(m: Mgr, i: nat, e: Event)
    requires MgrInv(m) && MgrEnabled(m, i, e) && NoIdWrap(MgrStep(m, i, e))
    ensures MgrInv(MgrStep(m, i, e))
  {
    var m' := MgrStep(m, i, e);
    HomesAfterStep(m, i, e);
    assert HomeOk(m, i) && NoWrap(m'.runs[i].sh);
    StepTotals(m, i, e);
    SlotTest(m, i, e);
    hide Step, RunInv, Orderly, NoWrap, TransTotal, WaitTotal, SlotsTaken, PacketsQueued;
    hide Dispatch, Total, MgrEnabled, HomeOk, NoIdWrap;
    TotalsAfterStep(m.runs, i, m'.runs[i]);
  }

  // ---- every run ----------------------------------------------------------------------------------

  /** A run of the manager: `ms[k + 1]` follows from `ms[k]` by a step of some shard. */
  ghost predicate Trace(ms: seq<Mgr>, steps: seq<(nat, Event)>) {
    && |ms| == |steps| + 1
    && forall k :: 0 <= k < |steps| ==>
         MgrEnabled(ms[k], steps[k].0, steps[k].1) && ms[k + 1] == MgrStep(ms[k], steps[k].0, steps[k].1)
  }

  lemma NoWrapBefore(m: Mgr, i: nat, e: Event)
    requires MgrEnabled(m, i, e) && NoIdWrap(MgrStep(m, i, e))
    ensures NoIdWrap(m)
  {
    var m' := MgrStep(m, i, e);
    forall j | 0 <= j < |m.runs|
      ensures NoWrap(m.runs[j].sh)
    {
      assert NoWrap(m'.runs[j].sh);
      MulMonotone(m.runs[j].sh.allocs, m'.runs[j].sh.allocs, m.runs[j].sh.step);
    }
  }

  lemma {:induction false} TotalsOfNew(runs: seq<Run>)
    requires forall i :: 0 <= i < |runs| ==> runs[i].sh.transMap == map[] && runs[i].sh.pending == map[]
    ensures TransTotal(runs) == 0 && WaitTotal(runs) == 0
  {
    if runs != [] {
      TotalsOfNew(runs[1..]);
    }
  }

  lemma NewRunInv(cfg: Config, i: nat, shardCount: nat)
    requires i < shardCount < UINT32
    ensures RunInv(cfg, NewRun(i, shardCount)) && Orderly(NewRun(i, shardCount))
  {
    var r := NewRun(i, shardCount);
    assert forall key :: !Runs(r.sh, key);
    forall key
      ensures InLine(r, key)
    {
      assert Line(r, key) == [];
    }
  }

  lemma NewMgrInv(cfg: Config, maxTrans: nat, shardCount: nat)
    requires 0 < shardCount < UINT32
    ensures MgrInv(NewMgr(cfg, maxTrans, shardCount))
  {
    var m := NewMgr(cfg, maxTrans, shardCount);
    TotalsOfNew(m.runs);
    hide RunInv, Orderly, TransTotal, WaitTotal;
    forall i | 0 <= i < |m.runs|
      ensures HomeOk(m, i)
    {
      assert m.runs[i] == NewRun(i, shardCount);
      NewRunInv(cfg, i, shardCount);
    }
  }

  /** As long as no transaction id has wrapped around, everything below holds in every reachable
      state, whatever the order of arrivals, handler returns and shard steps. */
  lemma {:induction false} ReachableInv(cfg: Config, maxTrans: nat, shardCount: nat, ms: seq<Mgr>, steps: seq<(nat, Event)>)
    requires 0 < shardCount < UINT32 && Trace(ms, steps) && ms[0] == NewMgr(cfg, maxTrans, shardCount)
    requires NoIdWrap(ms[|steps|])
    ensures MgrInv(ms[|steps|]) && |ms[|steps|].runs| == shardCount && ms[|steps|].cfg == cfg && ms[|steps|].maxTrans == maxTrans
    decreases |steps|
  {
    if |steps| == 0 {
      NewMgrInv(cfg, maxTrans, shardCount);
    } else {
      hide MgrEnabled, MgrStep, NoIdWrap, MgrInv;
      var k := |steps| - 1;
      var (i, e) := steps[k];
      NoWrapBefore(ms[k], i, e);
      ReachableInv(cfg, maxTrans, shardCount, ms[..|steps|], steps[..k]);
      MgrStepKeepsInv(ms[k], i, e);
      StepConstants(ms[k], i, e);
    }
  }

  lemma StepConstants(m: Mgr, i: nat, e: Event)
    requires MgrEnabled(m, i, e)
    ensures var m' := MgrStep(m, i, e); |m'.runs| == |m.runs| && m'.cfg == m.cfg && m'.maxTrans == m.maxTrans
  {
  }

  /** Mutual exclusion: in the whole manager at most one transaction per serial key runs, and it runs
      in the shard the key routes to. */
  lemma OneTransactionPerKey(m: Mgr, i: nat, id: nat, j: nat, id': nat, key: nat)
    requires MgrInv(m) && i < |m.runs| && j < |m.runs| && id in m.runs[i].sh.transMap && id' in m.runs[j].sh.transMap
    requires HasKey(m.runs[i].sh.transMap[id], key) && HasKey(m.runs[j].sh.transMap[id'], key)
    ensures i == j == SelectShard(|m.runs|, 0, Some(key), 0) && id == id'
  {
    RunsAtHome(m, i, id, key);
    RunsAtHome(m, j, id', key);
    assert HomeOk(m, i) && KeysExact(m.runs[i].sh);
  }

  lemma RunsAtHome(m: Mgr, i: nat, id: nat, key: nat)
    requires MgrInv(m) && i < |m.runs| && id in m.runs[i].sh.transMap && HasKey(m.runs[i].sh.transMap[id], key)
    ensures i == SelectShard(|m.runs|, 0, Some(key), 0)
  {
    assert HomeOk(m, i);
    assert At(m.runs[i], m.runs[i].sh.transMap[id], Running(id));
  }

  /** A shard's marker for a key is set exactly while a transaction of that key runs there. */
  lemma MarkerExact(m: Mgr, i: nat, key: nat)
    requires MgrInv(m) && i < |m.runs|
    ensures key in m.runs[i].sh.keyInProcess <==> Runs(m.runs[i].sh, key)
    ensures key in m.runs[i].sh.keyInProcess ==> i == SelectShard(|m.runs|, 0, Some(key), 0)
  {
    assert HomeOk(m, i) && KeysExact(m.runs[i].sh);
    if key in m.runs[i].sh.keyInProcess {
      var id :| id in m.runs[i].sh.transMap && HasKey(m.runs[i].sh.transMap[id], key);
      RunsAtHome(m, i, id, key);
    }
  }

  /** Transaction ids are non-zero 32-bit numbers, no two shards use the same one, and a response
      addressed to an id reaches the shard that runs its transaction. */
  lemma IdsDistinctAndRouted(m: Mgr, i: nat, id: nat, key: Option<nat>, turn: nat)
    requires MgrInv(m) && NoIdWrap(m) && i < |m.runs| && id in m.runs[i].sh.transMap
    ensures 0 < id < UINT32 && SelectShard(|m.runs|, id, key, turn) == i
    ensures forall j :: 0 <= j < |m.runs| && id in m.runs[j].sh.transMap ==> j == i
  {
    forall j | 0 <= j < |m.runs| && id in m.runs[j].sh.transMap
      ensures 0 < id < UINT32 && (id - 1) % |m.runs| == j
    {
      assert HomeOk(m, j) && IdOk(m.runs[j].sh, id) && NoWrap(m.runs[j].sh);
      LastId(m.runs[j].sh, id);
    }
  }

  lemma LastId(sh: Shard, id: nat)
    requires sh.index < sh.step && IdOk(sh, id) && NoWrap(sh)
    ensures id < UINT32
  {
    var next := sh.index + sh.allocs * sh.step;
    DivModUnique(sh.step, next, sh.allocs, sh.index);
    ResidueGap(sh.step, next, id - 1);
  }

  lemma ResidueGap(s: nat, a: nat, b: nat)
    requires s > 0 && b < a && a % s == b % s
    ensures a - b >= s
  {
    var d := a / s - b / s;
    assert s * d == a - b;
    assert d >= 1 by {
      if d <= 0 {
        MulMonotone(d, 0, s);
      }
    }
    MulMonotone(1, d, s);
  }

  /** The shared counters are exact and the limits are kept. */
  lemma CountersExact(m: Mgr)
    requires MgrInv(m)
    ensures m.active == TransTotal(m.runs) <= m.maxTrans && m.pendingPackets == WaitTotal(m.runs)
    ensures forall i, key :: 0 <= i < |m.runs| && key in m.runs[i].sh.pending ==>
              0 < |m.runs[i].sh.pending[key]| <= m.cfg.maxPendingPerKey
  {
    forall i, key | 0 <= i < |m.runs| && key in m.runs[i].sh.pending
      ensures 0 < |m.runs[i].sh.pending[key]| <= m.cfg.maxPendingPerKey
    {
      assert HomeOk(m, i) && QueueOk(m.cfg, key, m.runs[i].sh.pending[key]);
    }
  }
}
