/** Order and rest of one transaction shard: requests of a key start in arrival order and the shard
    works its requests off, provided none is refused while others of its key wait behind it
    (lib/service/transaction/transaction_mgr_impl.go). */
module ShardOrder {
  import opened Options
  import opened TransactionShard
  import opened ShardRuns

  // ---- first come, first started ------------------------------------------------------------------

  /** The requests of one key, in order. */
  ghost function OfKey(s: seq<Packet>, key: nat): seq<Packet> {
    if s == [] then [] else OfKey(s[..|s| - 1], key) + if HasKey(s[|s| - 1], key) then [s[|s| - 1]] else []
  }

  ghost function HandOf(r: Run, key: nat): seq<Packet> {
    if r.inHand.Some? && HasKey(r.inHand.value, key) then [r.inHand.value] else []
  }

  /** The requests of a key as they started, or would start now: started, in hand, waiting. */
  ghost function Line(r: Run, key: nat): seq<Packet> {
    OfKey(r.started, key) + HandOf(r, key) + QueueOf(r.sh, key)
  }

  ghost predicate Rising(number: map<Packet, nat>, s: seq<Packet>) {
    && (forall i :: 0 <= i < |s| ==> s[i] in number)
    && (forall i, j :: 0 <= i < j < |s| ==> number[s[i]] < number[s[j]])
  }

  /** Arrival numbers are handed out in inbox order; whatever left the inbox came before the rest. */
  ghost predicate Counted(r: Run) {
    && |r.inbox| <= r.arrivals
    && (forall n :: 0 <= n < |r.inbox| ==> r.inbox[n] in r.number && r.number[r.inbox[n]] == r.arrivals - |r.inbox| + n)
    && (forall p :: p in r.number ==> p in r.place)
  }

  ghost predicate Before(number: map<Packet, nat>, s: seq<Packet>, bound: int) {
    forall i :: 0 <= i < |s| ==> s[i] in number && number[s[i]] < bound
  }

  ghost predicate InLine(r: Run, key: nat) {
    Rising(r.number, Line(r, key)) && Before(r.number, Line(r, key), r.arrivals - |r.inbox|)
  }

  /** Every waiting request has a transaction of its key running, or the next one in hand. */
  ghost predicate Owned(r: Run) {
    forall key :: key in r.sh.pending ==> key in r.sh.keyInProcess || HandOf(r, key) != []
  }

  ghost predicate Orderly(r: Run) {
    Counted(r) && (!r.stranded ==> Owned(r) && forall key :: InLine(r, key))
  }

  lemma OfKeyMore(s: seq<Packet>, p: Packet, key: nat)
    ensures OfKey(s + [p], key) == OfKey(s, key) + if HasKey(p, key) then [p] else []
  {
    assert (s + [p])[..|s|] == s;
  }

  /** The line of a key grows only at its end. */
  lemma LineGrows(number: map<Packet, nat>, s: seq<Packet>, p: Packet, bound: int)
    requires Rising(number, s) && Before(number, s, bound) && p in number && number[p] == bound
    ensures Rising(number, s + [p]) && Before(number, s + [p], bound + 1)
  {
  }

  lemma OrderlyAfterArrive(cfg: Config, r: Run, p: Packet)
    requires Orderly(r) && Enabled(r, Arrive(p))
    ensures Orderly(Step(cfg, r, Arrive(p)))
  {
    var r' := Step(cfg, r, Arrive(p));
    assert p !in r.number;
    if !r.stranded {
      forall key
        ensures InLine(r', key)
      {
        assert InLine(r, key) && Line(r', key) == Line(r, key);
      }
    }
  }

  lemma OwnedAfterHandle(cfg: Config, r: Run, expired: bool, slotFree: bool)
    requires Owned(r) && Enabled(r, Handle(expired, slotFree))
    ensures Owned(Step(cfg, r, Handle(expired, slotFree)))
  {
    var r' := Step(cfg, r, Handle(expired, slotFree));
    assert forall key :: HandOf(r, key) == [] && HandOf(r', key) == [];
  }

  lemma StartedAfterHandle(cfg: Config, r: Run, expired: bool, slotFree: bool, key: nat)
    requires Enabled(r, Handle(expired, slotFree))
    ensures var (p, r') := (r.inbox[0], Step(cfg, r, Handle(expired, slotFree)));
            var out := Dispatch(cfg, r.sh, p, expired, slotFree).1;
            && r'.sh == Dispatch(cfg, r.sh, p, expired, slotFree).0
            && OfKey(r'.started, key) == (if out.Started? && HasKey(p, key) then OfKey(r.started, key) + [p]
                                          else OfKey(r.started, key))
            && HandOf(r, key) == [] && HandOf(r', key) == []
  {
    OfKeyMore(r.started, r.inbox[0], key);
  }

  lemma QueueAfterHandle(cfg: Config, sh: Shard, p: Packet, expired: bool, slotFree: bool, key: nat)
    requires key in sh.pending ==> key in sh.keyInProcess
    ensures var (sh', out) := Dispatch(cfg, sh, p, expired, slotFree);
            && QueueOf(sh', key) == (if out.Queued? && HasKey(p, key) then QueueOf(sh, key) + [p] else QueueOf(sh, key))
            && (HasKey(p, key) && out.Started? ==> QueueOf(sh, key) == [])
  {
  }

  lemma AppendToLine(s: seq<Packet>, queue: seq<Packet>, p: Packet)
    ensures s + [] + (queue + [p]) == s + [] + queue + [p]
    ensures s + [p] + [] + [] == s + [] + [] + [p]
  {
  }

  lemma LineOfHandle(cfg: Config, r: Run, expired: bool, slotFree: bool, key: nat)
    requires Owned(r) && Enabled(r, Handle(expired, slotFree))
    ensures var p := r.inbox[0];
            Line(Step(cfg, r, Handle(expired, slotFree)), key) ==
            if HasKey(p, key) && !Dispatch(cfg, r.sh, p, expired, slotFree).1.Refused? then Line(r, key) + [p] else Line(r, key)
  {
    StartedAfterHandle(cfg, r, expired, slotFree, key);
    QueueAfterHandle(cfg, r.sh, r.inbox[0], expired, slotFree, key);
    hide OfKey, HandOf, QueueOf, Step, Dispatch;
    AppendToLine(OfKey(r.started, key), QueueOf(r.sh, key), r.inbox[0]);
  }

  lemma LineAfterHandle(cfg: Config, r: Run, expired: bool, slotFree: bool, key: nat)
    requires Counted(r) && Owned(r) && InLine(r, key) && Enabled(r, Handle(expired, slotFree))
    ensures InLine(Step(cfg, r, Handle(expired, slotFree)), key)
  {
    LineOfHandle(cfg, r, expired, slotFree, key);
    CountedAfterHandle(cfg, r, expired, slotFree);
    hide Line, Step, Dispatch, Rising, Before;
    LineGrows(r.number, Line(r, key), r.inbox[0], r.arrivals - |r.inbox|);
    BeforeMore(r.number, Line(r, key), r.arrivals - |r.inbox|);
  }

  lemma BeforeMore(number: map<Packet, nat>, s: seq<Packet>, bound: int)
    requires Before(number, s, bound)
    ensures Before(number, s, bound + 1)
  {
  }

  lemma OrderlyAfterHandle(cfg: Config, r: Run, expired: bool, slotFree: bool)
    requires Orderly(r) && Enabled(r, Handle(expired, slotFree))
    ensures Orderly(Step(cfg, r, Handle(expired, slotFree)))
  {
    CountedAfterHandle(cfg, r, expired, slotFree);
    hide Owned, InLine, Dispatch, Counted;
    if !r.stranded {
      OwnedAfterHandle(cfg, r, expired, slotFree);
      forall key
        ensures InLine(Step(cfg, r, Handle(expired, slotFree)), key)
      {
        LineAfterHandle(cfg, r, expired, slotFree, key);
      }
    }
  }

  lemma CountedAfterHandle(cfg: Config, r: Run, expired: bool, slotFree: bool)
    requires Counted(r) && Enabled(r, Handle(expired, slotFree))
    ensures Counted(Step(cfg, r, Handle(expired, slotFree)))
    ensures var r' := Step(cfg, r, Handle(expired, slotFree));
            && r'.stranded == r.stranded && r'.number == r.number && r'.arrivals == r.arrivals && |r'.inbox| == |r.inbox| - 1
  {
  }

  /** Retiring a transaction moves the head of its key's queue into the hand. */
  lemma QueueAfterRetire(cfg: Config, sh: Shard, id: nat, key: nat)
    requires QueuesOk(cfg, sh) && id in sh.transMap
    ensures var (sh', next) := Retire(sh, id);
            && QueueOf(sh, key) == (if next.Some? && HasKey(next.value, key) then [next.value] else []) + QueueOf(sh', key)
            && (key in sh'.pending && key !in sh'.keyInProcess && key in sh.keyInProcess ==> next.Some? && HasKey(next.value, key))
            && (key in sh'.pending ==> key in sh.pending)
  {
    var own := SerialKey(sh.transMap[id]);
    if own.Some? && own.value in sh.pending {
      assert QueueOk(cfg, own.value, sh.pending[own.value]);
    }
  }

  lemma ReturnEffect(cfg: Config, r: Run, id: nat)
    requires Enabled(r, Return(id))
    ensures var r' := Step(cfg, r, Return(id));
            && (r'.sh, r'.inHand) == Retire(r.sh, id) && r'.started == r.started && r'.stranded == r.stranded
            && r'.number == r.number && r'.arrivals == r.arrivals && r'.inbox == r.inbox
            && (forall p :: p in r.place ==> p in r'.place)
  {
    hide Retire;
  }

  lemma LineOfReturn(cfg: Config, r: Run, id: nat, key: nat)
    requires QueuesOk(cfg, r.sh) && Enabled(r, Return(id))
    ensures Line(Step(cfg, r, Return(id)), key) == Line(r, key)
  {
    ReturnEffect(cfg, r, id);
    QueueAfterRetire(cfg, r.sh, id, key);
    hide OfKey, QueueOf, Step, Retire;
    var s, hand, queue := OfKey(r.started, key), HandOf(Step(cfg, r, Return(id)), key), QueueOf(Retire(r.sh, id).0, key);
    assert s + [] + (hand + queue) == s + hand + queue;
  }

  lemma OwnedAfterReturn(cfg: Config, r: Run, id: nat)
    requires QueuesOk(cfg, r.sh) && Owned(r) && Enabled(r, Return(id))
    ensures Owned(Step(cfg, r, Return(id)))
  {
    ReturnEffect(cfg, r, id);
    var r' := Step(cfg, r, Return(id));
    forall key | key in r'.sh.pending
      ensures key in r'.sh.keyInProcess || HandOf(r', key) != []
    {
      QueueAfterRetire(cfg, r.sh, id, key);
      assert HandOf(r, key) == [];
    }
  }

  lemma OrderlyAfterReturn(cfg: Config, r: Run, id: nat)
    requires RunInv(cfg, r) && Orderly(r) && Enabled(r, Return(id))
    ensures Orderly(Step(cfg, r, Return(id)))
  {
    ReturnEffect(cfg, r, id);
    var r' := Step(cfg, r, Return(id));
    assert Counted(r');
    hide Counted, Step, Retire, Owned, Line, Placed, Rising, Before, QueuesOk;
    if !r.stranded {
      OwnedAfterReturn(cfg, r, id);
      forall key
        ensures InLine(r', key)
      {
        assert InLine(r, key);
        LineOfReturn(cfg, r, id, key);
      }
    }
  }

  lemma RisingPrefix(number: map<Packet, nat>, s: seq<Packet>, t: seq<Packet>, bound: int)
    requires s <= t && Rising(number, t) && Before(number, t, bound)
    ensures Rising(number, s) && Before(number, s, bound)
  {
  }

  lemma RedispatchParts(cfg: Config, r: Run, expired: bool, slotFree: bool, key: nat)
    requires HandOk(r) && Enabled(r, Redispatch(expired, slotFree))
    ensures var (p, r') := (r.inHand.value, Step(cfg, r, Redispatch(expired, slotFree)));
            var out := Dispatch(cfg, r.sh, p, expired, slotFree).1;
            && OfKey(r'.started, key) == (if out.Started? && HasKey(p, key) then OfKey(r.started, key) + [p]
                                          else OfKey(r.started, key))
            && HandOf(r, key) == (if HasKey(p, key) then [p] else []) && HandOf(r', key) == []
            && QueueOf(r'.sh, key) == QueueOf(r.sh, key)
            && (out.Started? || (out.Refused? && (HasKey(p, key) && !r'.stranded ==> QueueOf(r.sh, key) == [])))
  {
    OfKeyMore(r.started, r.inHand.value, key);
    hide OfKey;
  }

  lemma LineOfRedispatch(cfg: Config, r: Run, expired: bool, slotFree: bool, key: nat)
    requires HandOk(r) && Enabled(r, Redispatch(expired, slotFree))
    requires !Step(cfg, r, Redispatch(expired, slotFree)).stranded
    ensures Line(Step(cfg, r, Redispatch(expired, slotFree)), key) <= Line(r, key)
  {
    RedispatchParts(cfg, r, expired, slotFree, key);
    hide OfKey, HandOf, QueueOf, Step, Dispatch;
    var s, p, queue := OfKey(r.started, key), r.inHand.value, QueueOf(r.sh, key);
    assert s + [p] + [] + queue == s + [p] + queue && s + [] + [] == s;
  }

  lemma LineAfterRedispatch(cfg: Config, r: Run, expired: bool, slotFree: bool, key: nat)
    requires HandOk(r) && InLine(r, key) && Enabled(r, Redispatch(expired, slotFree))
    requires !Step(cfg, r, Redispatch(expired, slotFree)).stranded
    ensures InLine(Step(cfg, r, Redispatch(expired, slotFree)), key)
  {
    hide Line, Dispatch, Rising, Before;
    LineOfRedispatch(cfg, r, expired, slotFree, key);
    RisingPrefix(r.number, Line(Step(cfg, r, Redispatch(expired, slotFree)), key), Line(r, key), r.arrivals - |r.inbox|);
  }

  lemma OrderlyAfterRedispatch(cfg: Config, r: Run, expired: bool, slotFree: bool)
    requires HandOk(r) && Orderly(r) && Enabled(r, Redispatch(expired, slotFree))
    ensures Orderly(Step(cfg, r, Redispatch(expired, slotFree)))
  {
    var r' := Step(cfg, r, Redispatch(expired, slotFree));
    assert Counted(r');
    hide Counted;
    if !r'.stranded {
      assert Owned(r') by {
        assert forall key :: HandOf(r', key) == [] && (HandOf(r, key) != [] <==> HasKey(r.inHand.value, key));
      }
      hide Owned, InLine, Dispatch;
      forall key
        ensures InLine(r', key)
      {
        LineAfterRedispatch(cfg, r, expired, slotFree, key);
      }
    }
  }

  lemma StepKeepsOrder(cfg: Config, r: Run, e: Event)
    requires RunInv(cfg, r) && Orderly(r) && Enabled(r, e)
    ensures Orderly(Step(cfg, r, e))
  {
    match e
    case Arrive(p) => OrderlyAfterArrive(cfg, r, p);
    case Handle(expired, slotFree) => OrderlyAfterHandle(cfg, r, expired, slotFree);
    case Return(id) => OrderlyAfterReturn(cfg, r, id);
    case Redispatch(expired, slotFree) => OrderlyAfterRedispatch(cfg, r, expired, slotFree);
  }

  // ---- working off --------------------------------------------------------------------------------

  /** How many requests wait in all queues. */
  ghost function Total(m: map<nat, seq<Packet>>): (n: nat)
    decreases |m|
  {
    if m == map[] then 0 else
      var key :| key in m;
      |m[key]| + Total(m - {key})
  }

  lemma {:induction false} TotalSplit(m: map<nat, seq<Packet>>, key: nat)
    requires key in m
    ensures Total(m) == |m[key]| + Total(m - {key})
    decreases |m|
  {
    var first :| first in m && Total(m) == |m[first]| + Total(m - {first});
    if first != key {
      TotalSplit(m - {first}, key);
      TotalSplit(m - {key}, first);
      assert m - {first} - {key} == m - {key} - {first};
    }
  }

  lemma TotalUpdate(m: map<nat, seq<Packet>>, key: nat, queue: seq<Packet>)
    ensures Total(m[key := queue]) == Total(m) - (if key in m then |m[key]| else 0) + |queue|
  {
    TotalSplit(m[key := queue], key);
    assert m[key := queue] - {key} == m - {key};
    if key in m {
      TotalSplit(m, key);
    } else {
      assert m - {key} == m;
    }
  }

  /** Inbox 3, waiting or in hand 2, running 1. */
  ghost function Weight(r: Run): nat {
    3 * |r.inbox| + 2 * Total(r.sh.pending) + (if r.inHand.Some? then 2 else 0) + |r.sh.transMap|
  }

  /** Every event but an arrival lowers the weight. */
  lemma StepLowersWeight(cfg: Config, r: Run, e: Event)
    requires RunInv(cfg, r) && Enabled(r, e) && !e.Arrive?
    ensures Weight(Step(cfg, r, e)) < Weight(r)
  {
    match e
    case Arrive(_) =>
    case Handle(expired, slotFree) => DispatchWeight(cfg, r.sh, r.inbox[0], expired, slotFree);
    case Return(id) =>
      RetireWeight(cfg, r.sh, id);
    case Redispatch(expired, slotFree) => DispatchWeight(cfg, r.sh, r.inHand.value, expired, slotFree);
  }

  lemma DispatchWeight(cfg: Config, sh: Shard, p: Packet, expired: bool, slotFree: bool)
    ensures var (sh', out) := Dispatch(cfg, sh, p, expired, slotFree);
            2 * Total(sh'.pending) + |sh'.transMap| <=
            2 * Total(sh.pending) + |sh.transMap| + (if out.Started? then 1 else if out.Queued? then 2 else 0)
  {
    var (sh', out) := Dispatch(cfg, sh, p, expired, slotFree);
    DispatchMaps(cfg, sh, p, expired, slotFree);
    if out.Queued? {
      TotalUpdate(sh.pending, SerialKey(p).value, QueueOf(sh, SerialKey(p).value) + [p]);
    }
    hide Total, Dispatch;
  }

  lemma DispatchMaps(cfg: Config, sh: Shard, p: Packet, expired: bool, slotFree: bool)
    ensures var (sh', out) := Dispatch(cfg, sh, p, expired, slotFree);
            && (if out.Queued? then SerialKey(p).Some?
                                    && sh'.pending == sh.pending[SerialKey(p).value := QueueOf(sh, SerialKey(p).value) + [p]]
                else sh'.pending == sh.pending)
            && (if out.Started? then sh'.transMap == sh.transMap[sh.nextTransId := p] else sh'.transMap == sh.transMap)
            && |sh'.transMap| <= |sh.transMap| + (if out.Started? then 1 else 0)
            && (out.Started? && sh.nextTransId !in sh.transMap ==> |sh'.transMap| == |sh.transMap| + 1)
  {
    MapGrows(sh.transMap, sh.nextTransId, p);
    hide QueueOf;
  }

  lemma MapGrows(m: map<nat, Packet>, id: nat, p: Packet)
    ensures |m[id := p]| == |m| + if id in m then 0 else 1
  {
    assert m[id := p].Keys == m.Keys + {id};
  }

  lemma RetireWeight(cfg: Config, sh: Shard, id: nat)
    requires id in sh.transMap && QueuesOk(cfg, sh)
    ensures var (sh', next) := Retire(sh, id);
            && |sh'.transMap| == |sh.transMap| - 1
            && Total(sh'.pending) == Total(sh.pending) - if next.Some? then 1 else 0
  {
    var (sh', next) := Retire(sh, id);
    assert sh'.transMap.Keys == sh.transMap.Keys - {id};
    var key := SerialKey(sh.transMap[id]);
    if key.Some? && key.value in sh.pending {
      assert QueueOk(cfg, key.value, sh.pending[key.value]);
      TotalSplit(sh.pending, key.value);
      if |sh.pending[key.value]| > 1 {
        TotalUpdate(sh.pending, key.value, sh.pending[key.value][1..]);
      }
    }
  }

  predicate CanStop(r: Run) {
    r.inbox == [] && r.inHand.None? && r.sh.transMap == map[] && r.sh.pending == map[]
  }

  ghost predicate AtRest(r: Run) {
    forall e :: Enabled(r, e) ==> e.Arrive?
  }

  /** A shard with nothing left to do can stop exactly when no waiting request has lost its owner. */
  lemma RestMeansStop(cfg: Config, r: Run)
    requires RunInv(cfg, r) && AtRest(r)
    ensures CanStop(r) <==> Owned(r)
  {
    assert !Enabled(r, Redispatch(false, false)) && !Enabled(r, Handle(false, false));
    assert forall id :: id in r.sh.transMap ==> !Enabled(r, Return(id));
    if Owned(r) {
      assert forall key :: !Runs(r.sh, key);
    }
  }

  // ---- runs of one shard --------------------------------------------------------------------------

  ghost predicate ShardTrace(cfg: Config, rs: seq<Run>, events: seq<Event>) {
    && |rs| == |events| + 1
    && forall k :: 0 <= k < |events| ==> Enabled(rs[k], events[k]) && rs[k + 1] == Step(cfg, rs[k], events[k])
  }

  /** Without arrivals a shard handles at most as many events as its weight, so with finitely many
      arrivals and returning handlers it comes to rest. */
  lemma {:induction false} WorksOff(cfg: Config, rs: seq<Run>, events: seq<Event>)
    requires ShardTrace(cfg, rs, events) && forall k :: 0 <= k < |events| ==> !events[k].Arrive?
    requires forall k :: 0 <= k < |rs| ==> RunInv(cfg, rs[k])
    ensures |events| + Weight(rs[|events|]) <= Weight(rs[0])
    decreases |events|
  {
    if |events| > 0 {
      var k := |events| - 1;
      WorksOff(cfg, rs[..|events|], events[..k]);
      StepLowersWeight(cfg, rs[k], events[k]);
    }
  }

  /** Requests of one key start in the order in which they arrived, unless one was refused while
      others of its key waited behind it. */
  lemma StartsInArrivalOrder(r: Run, key: nat)
    requires Orderly(r) && !r.stranded
    ensures Rising(r.number, OfKey(r.started, key))
  {
    assert InLine(r, key);
    var s := OfKey(r.started, key);
    assert s + (HandOf(r, key) + QueueOf(r.sh, key)) == Line(r, key);
    RisingPrefix(r.number, s, Line(r, key), r.arrivals - |r.inbox|);
  }
}
