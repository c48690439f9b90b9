/** One shard of the transaction manager: per-key serial execution with waiting queues
    (lib/service/transaction/transaction_mgr_impl.go). */
module TransactionShard {
  import opened Options
  import opened WheelArithmetic

  const UINT32: nat := 0x1_0000_0000

  /** A request packet; `id` tells apart packets with equal contents. */
  datatype Packet = Packet(id: nat, uid: nat, routerId: nat, cmd: int)

  /** The key whose requests must not overlap: the router id, else the user id, else none. */
  function SerialKey(p: Packet): Option<nat> {
    if p.routerId != 0 then Some(p.routerId) else if p.uid != 0 then Some(p.uid) else None
  }

  datatype Config = Config(maxPendingPerKey: nat, handlers: set<int>)

  /** The maps of one shard. `allocs` counts the transactions it has started. */
  datatype Shard = Shard(
    index: nat,
    step: nat,
    nextTransId: nat,
    allocs: nat,
    transMap: map<nat, Packet>,
    keyInProcess: set<nat>,
    pending: map<nat, seq<Packet>>)

  datatype Outcome = Started(id: nat) | Queued | Refused(code: int)

  function NewShard(index: nat, step: nat): Shard {
    Shard(index, step, (index + 1) % UINT32, 0, map[], {}, map[])
  }

  function QueueOf(sh: Shard, key: nat): seq<Packet> {
    if key in sh.pending then sh.pending[key] else []
  }

  predicate HasKey(p: Packet, key: nat) {
    SerialKey(p) == Some(key)
  }

  /** processSSPacket for a request. `expired`: its deadline has passed; `slotFree`: the global
      transaction count is below its limit when the slot is asked for. */
  function Dispatch(cfg: Config, sh: Shard, p: Packet, expired: bool, slotFree: bool): (Shard, Outcome) {
    var key := SerialKey(p);
    if expired then
      (sh, Refused(-6))
    else if key.Some? && key.value in sh.keyInProcess then
      var queue := QueueOf(sh, key.value);
      if |queue| >= cfg.maxPendingPerKey then (sh, Refused(-1))
      else (sh.(pending := sh.pending[key.value := queue + [p]]), Queued)
    else if p.cmd !in cfg.handlers then
      (sh, Refused(-2))
    else if !slotFree then
      (sh, Refused(-5))
    else
      (sh.(nextTransId := (sh.nextTransId + sh.step) % UINT32,
           allocs := sh.allocs + 1,
           transMap := sh.transMap[sh.nextTransId := p],
           keyInProcess := if key.Some? then sh.keyInProcess + {key.value} else sh.keyInProcess),
       Started(sh.nextTransId))
  }

  /** processTransactionRet up to the point where the next request of the key is processed. */
  function Retire(sh: Shard, id: nat): (Shard, Option<Packet>) {
    if id !in sh.transMap then (sh, None)
    else
      var key := SerialKey(sh.transMap[id]);
      var sh1 := sh.(transMap := sh.transMap - {id});
      if key.None? then (sh1, None)
      else
        var sh2 := sh1.(keyInProcess := sh1.keyInProcess - {key.value});
        var queue := QueueOf(sh2, key.value);
        if key.value !in sh2.pending then (sh2, None)
        else if |queue| == 0 then (sh2.(pending := sh2.pending - {key.value}), None)
        else if |queue| == 1 then (sh2.(pending := sh2.pending - {key.value}), Some(queue[0]))
        else (sh2.(pending := sh2.pending[key.value := queue[1..]]), Some(queue[0]))
  }

  // ---- what every step keeps --------------------------------------------------------------------

  /** All transaction ids handed out so far are below 2^32. */
  predicate NoWrap(sh: Shard) {
    sh.index + 1 + sh.allocs * sh.step < UINT32 + sh.step
  }

  ghost predicate IdOk(sh: Shard, id: nat)
    requires sh.step > 0
  {
    0 < id < sh.index + 1 + sh.allocs * sh.step && (id - 1) % sh.step == sh.index
  }

  ghost predicate Numbered(sh: Shard) {
    && sh.index < sh.step
    && sh.nextTransId == (sh.index + 1 + sh.allocs * sh.step) % UINT32
    && (forall id :: id in sh.transMap ==> IdOk(sh, id))
  }

  ghost predicate Runs(sh: Shard, key: nat) {
    exists id :: id in sh.transMap && HasKey(sh.transMap[id], key)
  }

  /** A key is marked as in process exactly while a transaction of it runs, and then only one does. */
  ghost predicate KeysExact(sh: Shard) {
    && (forall key :: key in sh.keyInProcess <==> Runs(sh, key))
    && (forall id, id', key ::
          id in sh.transMap && id' in sh.transMap && HasKey(sh.transMap[id], key) && HasKey(sh.transMap[id'], key) ==> id == id')
  }

  ghost predicate QueueOk(cfg: Config, key: nat, queue: seq<Packet>) {
    0 < |queue| <= cfg.maxPendingPerKey && forall n :: 0 <= n < |queue| ==> HasKey(queue[n], key)
  }

  ghost predicate QueuesOk(cfg: Config, sh: Shard) {
    forall key :: key in sh.pending ==> QueueOk(cfg, key, sh.pending[key])
  }

  ghost predicate ShardInv(cfg: Config, sh: Shard) {
    Numbered(sh) && KeysExact(sh) && QueuesOk(cfg, sh)
  }

  lemma NewId(sh: Shard)
    requires Numbered(sh) && sh.index + 1 + sh.allocs * sh.step < UINT32
    ensures sh.nextTransId == sh.index + 1 + sh.allocs * sh.step && sh.nextTransId !in sh.transMap
    ensures (sh.nextTransId - 1) % sh.step == sh.index
    ensures sh.index + 1 + (sh.allocs + 1) * sh.step == sh.nextTransId + sh.step
  {
    DivModUnique(sh.step, sh.index + sh.allocs * sh.step, sh.allocs, sh.index);
  }

  lemma NumberedAfterStart(sh: Shard, p: Packet)
    requires Numbered(sh) && sh.index + 1 + sh.allocs * sh.step < UINT32
    ensures Numbered(sh.(nextTransId := (sh.nextTransId + sh.step) % UINT32, allocs := sh.allocs + 1,
                         transMap := sh.transMap[sh.nextTransId := p]))
  {
    NewId(sh);
    var sh' := sh.(nextTransId := (sh.nextTransId + sh.step) % UINT32, allocs := sh.allocs + 1,
                   transMap := sh.transMap[sh.nextTransId := p]);
    forall id | id in sh'.transMap
      ensures IdOk(sh', id)
    {
      if id != sh.nextTransId {
        assert IdOk(sh, id);
      }
    }
  }

  lemma KeysAfterStart(sh: Shard, p: Packet, id: nat)
    requires KeysExact(sh) && id !in sh.transMap && (SerialKey(p).Some? ==> SerialKey(p).value !in sh.keyInProcess)
    ensures KeysExact(sh.(transMap := sh.transMap[id := p],
                          keyInProcess := if SerialKey(p).Some? then sh.keyInProcess + {SerialKey(p).value} else sh.keyInProcess))
  {
    var keys := if SerialKey(p).Some? then sh.keyInProcess + {SerialKey(p).value} else sh.keyInProcess;
    var sh' := sh.(transMap := sh.transMap[id := p], keyInProcess := keys);
    forall key
      ensures key in keys <==> Runs(sh', key)
    {
      if HasKey(p, key) {
        assert id in sh'.transMap && HasKey(sh'.transMap[id], key);
      } else if Runs(sh, key) {
        var x :| x in sh.transMap && HasKey(sh.transMap[x], key);
        assert x in sh'.transMap && HasKey(sh'.transMap[x], key);
      }
    }
    assert SerialKey(p).Some? ==> !Runs(sh, SerialKey(p).value);
  }

  lemma KeysAfterRetire(sh: Shard, id: nat)
    requires KeysExact(sh) && id in sh.transMap
    ensures var key := SerialKey(sh.transMap[id]);
            KeysExact(sh.(transMap := sh.transMap - {id},
                          keyInProcess := if key.Some? then sh.keyInProcess - {key.value} else sh.keyInProcess))
  {
    var p := sh.transMap[id];
    var keys := if SerialKey(p).Some? then sh.keyInProcess - {SerialKey(p).value} else sh.keyInProcess;
    var sh' := sh.(transMap := sh.transMap - {id}, keyInProcess := keys);
    forall key
      ensures key in keys <==> Runs(sh', key)
    {
      if Runs(sh', key) {
        var x :| x in sh'.transMap && HasKey(sh'.transMap[x], key);
        assert x in sh.transMap && HasKey(sh.transMap[x], key);
        assert Runs(sh, key);
      } else if Runs(sh, key) {
        var x :| x in sh.transMap && HasKey(sh.transMap[x], key);
        assert x in sh'.transMap || x == id;
      }
    }
  }

  lemma DispatchKeepsInv(cfg: Config, sh: Shard, p: Packet, expired: bool, slotFree: bool)
    requires ShardInv(cfg, sh) && NoWrap(Dispatch(cfg, sh, p, expired, slotFree).0)
    ensures ShardInv(cfg, Dispatch(cfg, sh, p, expired, slotFree).0)
  {
    var (sh', out) := Dispatch(cfg, sh, p, expired, slotFree);
    if out.Started? {
      assert (sh.allocs + 1) * sh.step == sh.allocs * sh.step + sh.step;
      NewId(sh);
      NumberedAfterStart(sh, p);
      KeysAfterStart(sh, p, sh.nextTransId);
      KeysOnlyMaps(sh', sh.(transMap := sh'.transMap, keyInProcess := sh'.keyInProcess));
    } else if out.Queued? {
      KeysOnlyMaps(sh', sh);
    }
  }

  lemma KeysOnlyMaps(sh: Shard, sh': Shard)
    requires sh.transMap == sh'.transMap && sh.keyInProcess == sh'.keyInProcess
    ensures KeysExact(sh) == KeysExact(sh')
  {
    assert forall key :: Runs(sh, key) == Runs(sh', key);
  }

  lemma RetireKeepsInv(cfg: Config, sh: Shard, id: nat)
    requires ShardInv(cfg, sh)
    ensures ShardInv(cfg, Retire(sh, id).0)
    ensures Retire(sh, id).1.Some? ==>
              id in sh.transMap && SerialKey(Retire(sh, id).1.value).Some?
              && SerialKey(Retire(sh, id).1.value) == SerialKey(sh.transMap[id])
              && SerialKey(Retire(sh, id).1.value).value !in Retire(sh, id).0.keyInProcess
  {
    if id in sh.transMap {
      var (sh', next) := Retire(sh, id);
      var key := SerialKey(sh.transMap[id]);
      KeysAfterRetire(sh, id);
      KeysOnlyMaps(sh', sh.(transMap := sh'.transMap, keyInProcess := sh'.keyInProcess));
      assert forall x :: x in sh'.transMap ==> IdOk(sh, x);
      if key.Some? && key.value in sh.pending {
        assert QueueOk(cfg, key.value, sh.pending[key.value]);
      }
    }
  }
}
