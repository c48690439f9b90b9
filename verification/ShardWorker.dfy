/** The shard goroutine's event handlers as they update the shard's maps and the manager's counters
    (lib/service/transaction/transaction_mgr_impl.go). */
module ShardWorker {
  import opened Options
  import opened TransactionShard

  /** The atomic counters all shards share. */
  class Counters {
    const maxTrans: nat
    var activeTransactions: int
    var pendingPackets: int
    var droppedPackets: int

    constructor (maxTrans: nat)
      ensures this.maxTrans == maxTrans && activeTransactions == 0 && pendingPackets == 0 && droppedPackets == 0
    {
      this.maxTrans := maxTrans;
      activeTransactions, pendingPackets, droppedPackets := 0, 0, 0;
    }

    /** The compare-and-swap loop, taken as the one atomic step in which it succeeds or gives up. */
    method TryAcquireTransSlot() returns (acquired: bool)
      modifies this`activeTransactions
      ensures acquired == (old(activeTransactions) < maxTrans)
      ensures activeTransactions == old(activeTransactions) + if acquired then 1 else 0
    {
      if activeTransactions >= maxTrans {
        return false;
      }
      activeTransactions := activeTransactions + 1;
      return true;
    }
  }

  function Delta(happened: bool): int {
    if happened then 1 else 0
  }

  /** The result code of processSSPacket for a request. */
  function Code(out: Outcome): int {
    if out.Refused? then out.code else 0
  }

  class ShardLoop {
    const cfg: Config
    const counters: Counters
    const index: nat
    const transIDStep: nat
    var nextTransID: nat
    var transMap: map<nat, Packet>
    var keyInProcess: set<nat>
    var pendingPackets: map<nat, seq<Packet>>
    /** The responses handed to running transactions, each with the id of its transaction. */
    var handed: seq<(nat, Packet)>
    ghost var allocs: nat

    ghost function Abs(): Shard
      reads this
    {
      Shard(index, transIDStep, nextTransID, allocs, transMap, keyInProcess, pendingPackets)
    }

    constructor (cfg: Config, counters: Counters, index: nat, shardCount: nat)
      ensures this.cfg == cfg && this.counters == counters && Abs() == NewShard(index, shardCount) && handed == []
    {
      this.cfg, this.counters, this.index, transIDStep := cfg, counters, index, shardCount;
      nextTransID, allocs := (index + 1) % UINT32, 0;
      transMap, keyInProcess, pendingPackets, handed := map[], {}, map[], [];
    }

    /** Takes one packet. A response (`dstTransID` is not 0) goes to the transaction it names, unless there
        is none or, when not `accepted`, its channel stays full; it changes nothing else. A request is
        refused, queued behind the running one of its key, or started. */
    method ProcessSSPacket(p: Packet, dstTransID: nat, accepted: bool, deadlineExceeded: bool) returns (code: int)
      modifies this, counters
      ensures dstTransID != 0 ==>
                && Abs() == old(Abs()) && counters.activeTransactions == old(counters.activeTransactions)
                && counters.pendingPackets == old(counters.pendingPackets)
                && counters.droppedPackets == old(counters.droppedPackets)
                && code == (if dstTransID !in transMap then -3 else if !accepted then -4 else 0)
                && handed == old(handed) + if code == 0 then [(dstTransID, p)] else []
      ensures dstTransID == 0 ==>
                var slotFree := old(counters.activeTransactions) < counters.maxTrans;
                var (sh, out) := Dispatch(cfg, old(Abs()), p, deadlineExceeded, slotFree);
                && Abs() == sh && code == Code(out) && handed == old(handed)
                && counters.activeTransactions == old(counters.activeTransactions) + Delta(out.Started?)
                && counters.pendingPackets == old(counters.pendingPackets) + Delta(out.Queued?)
                && counters.droppedPackets == old(counters.droppedPackets) + Delta(out == Refused(-6) || out == Refused(-1))
    {
      if dstTransID != 0 {
        if dstTransID !in transMap {
          return -3;
        }
        if !accepted {
          return -4;
        }
        handed := handed + [(dstTransID, p)];
        return 0;
      }
      if deadlineExceeded {
        counters.droppedPackets := counters.droppedPackets + 1;
        return -6;
      }
      var key := SerialKey(p);
      if key.Some? && key.value in keyInProcess {
        var packets := if key.value in pendingPackets then pendingPackets[key.value] else [];
        if |packets| >= cfg.maxPendingPerKey {
          counters.droppedPackets := counters.droppedPackets + 1;
          return -1;
        }
        pendingPackets := pendingPackets[key.value := packets + [p]];
        counters.pendingPackets := counters.pendingPackets + 1;
        return 0;
      }
      if p.cmd !in cfg.handlers {
        return -2;
      }
      var acquired := counters.TryAcquireTransSlot();
      if !acquired {
        return -5;
      }
      var transID := nextTransID;
      nextTransID := (nextTransID + transIDStep) % UINT32;
      allocs := allocs + 1;
      transMap := transMap[transID := p];
      if key.Some? {
        keyInProcess := keyInProcess + {key.value};
      }
      return 0;
    }

    /** Ends a transaction and, when others of its key wait, processes the first of them. The slot is
        given back first; `others` is how many slots the other shards take, or give back when negative,
        before the next request asks for one. */
    method ProcessTransactionRet(transID: nat, deadlineExceeded: bool, others: int)
      modifies this, counters
      ensures handed == old(handed)
      ensures var (sh, next) := Retire(old(Abs()), transID);
              var ended := Delta(transID in old(transMap));
              if next.None? then
                && Abs() == sh && counters.activeTransactions == old(counters.activeTransactions) - ended
                && counters.pendingPackets == old(counters.pendingPackets)
                && counters.droppedPackets == old(counters.droppedPackets)
              else
                var active := old(counters.activeTransactions) - 1 + others;
                var (sh', out) := Dispatch(cfg, sh, next.value, deadlineExceeded, active < counters.maxTrans);
                && Abs() == sh'
                && counters.activeTransactions == active + Delta(out.Started?)
                && counters.pendingPackets == old(counters.pendingPackets) - 1 + Delta(out.Queued?)
                && counters.droppedPackets == old(counters.droppedPackets) + Delta(out == Refused(-6) || out == Refused(-1))
    {
      if transID !in transMap {
        return;
      }
      var trans := transMap[transID];
      transMap := transMap - {transID};
      counters.activeTransactions := counters.activeTransactions - 1;
      var key := SerialKey(trans);
      if key.None? {
        return;
      }
      keyInProcess := keyInProcess - {key.value};
      if key.value !in pendingPackets {
        return;
      }
      var packets := pendingPackets[key.value];
      if |packets| == 0 {
        pendingPackets := pendingPackets - {key.value};
        return;
      }
      var nextPacket := packets[0];
      if |packets| == 1 {
        pendingPackets := pendingPackets - {key.value};
      } else {
        pendingPackets := pendingPackets[key.value := packets[1..]];
      }
      counters.pendingPackets := counters.pendingPackets - 1;
      counters.activeTransactions := counters.activeTransactions + others;
      var _ := ProcessSSPacket(nextPacket, 0, false, deadlineExceeded);
    }
  }
}
