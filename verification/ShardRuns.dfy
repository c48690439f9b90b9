/** Runs of one transaction shard: where every request is, in which order requests start, and why the
    shard comes to rest (lib/service/transaction/transaction_mgr_impl.go). */
module ShardRuns {
  import opened Options
  import opened TransactionShard

  // ---- runs of one shard ------------------------------------------------------------------------

  /** Where a request is. */
  datatype Place = Inbox | InHand | Waiting | Running(id: nat) | Rejected(code: int) | Finished

  /** A shard with its inbox, the request its goroutine has taken off a queue and is about to process,
      and histories: where each request is, its arrival number, the requests started, in order, and
      whether a request was ever refused while others of its key waited behind it. */
  datatype Run = Run(
    sh: Shard,
    inbox: seq<Packet>,
    inHand: Option<Packet>,
    place: map<Packet, Place>,
    number: map<Packet, nat>,
    arrivals: nat,
    started: seq<Packet>,
    stranded: bool)

  /** What a shard can do next. The flags of a dispatch are decided by the clock and by the other
      shards, which share the transaction slots. */
  datatype Event =
    | Arrive(p: Packet)
    | Handle(expired: bool, slotFree: bool)
    | Return(id: nat)
    | Redispatch(expired: bool, slotFree: bool)

  function NewRun(index: nat, step: nat): Run {
    Run(NewShard(index, step), [], None, map[], map[], 0, [], false)
  }

  /** A new request belongs to the shard its key selects. */
  predicate Routed(sh: Shard, p: Packet)
    requires sh.step > 0
  {
    SerialKey(p).Some? ==> SerialKey(p).value % sh.step == sh.index
  }

  predicate Enabled(r: Run, e: Event) {
    match e
    case Arrive(p) => p !in r.place && r.sh.step > 0 && Routed(r.sh, p)
    case Handle(_, _) => r.inHand.None? && r.inbox != []
    case Return(id) => r.inHand.None? && id in r.sh.transMap
    case Redispatch(_, _) => r.inHand.Some?
  }

  /** The shard after processing request `p`, which comes from the inbox or, with `fromQueue`, from
      the queue of its key. */
  function AfterDispatch(cfg: Config, r: Run, p: Packet, expired: bool, slotFree: bool, fromQueue: bool): Run {
    var (sh, out) := Dispatch(cfg, r.sh, p, expired, slotFree);
    match out
    case Started(id) => r.(sh := sh, place := r.place[p := Running(id)], started := r.started + [p])
    case Queued => r.(sh := sh, place := r.place[p := Waiting])
    case Refused(code) =>
      r.(sh := sh, place := r.place[p := Rejected(code)],
         stranded := r.stranded || (fromQueue && SerialKey(p).Some? && SerialKey(p).value in sh.pending))
  }

  function Step(cfg: Config, r: Run, e: Event): Run
    requires Enabled(r, e)
  {
    match e
    case Arrive(p) =>
      r.(inbox := r.inbox + [p], place := r.place[p := Inbox], number := r.number[p := r.arrivals], arrivals := r.arrivals + 1)
    case Handle(expired, slotFree) =>
      AfterDispatch(cfg, r.(inbox := r.inbox[1..]), r.inbox[0], expired, slotFree, false)
    case Return(id) =>
      var (sh, next) := Retire(r.sh, id);
      var place := r.place[r.sh.transMap[id] := Finished];
      r.(sh := sh, inHand := next, place := if next.Some? then place[next.value := InHand] else place)
    case Redispatch(expired, slotFree) =>
      AfterDispatch(cfg, r.(inHand := None), r.inHand.value, expired, slotFree, true)
  }

  // ---- every request is in exactly one place ------------------------------------------------------

  ghost predicate InQueue(sh: Shard, p: Packet) {
    SerialKey(p).Some? && SerialKey(p).value in sh.pending && p in sh.pending[SerialKey(p).value]
  }

  /** The place a request is recorded at is where it can be found, */
  ghost predicate Found(r: Run, p: Packet)
    requires p in r.place
  {
    match r.place[p]
    case Inbox => p in r.inbox
    case InHand => r.inHand == Some(p)
    case Waiting => InQueue(r.sh, p)
    case Running(id) => id in r.sh.transMap && r.sh.transMap[id] == p
    case Rejected(_) => true
    case Finished => true
  }

  ghost predicate At(r: Run, p: Packet, where: Place) {
    p in r.place && r.place[p] == where
  }

  ghost predicate Distinct(s: seq<Packet>) {
    forall i, j :: 0 <= i < j < |s| ==> s[i] != s[j]
  }

  /** ... and nothing is found anywhere else, or twice. */
  ghost predicate Placed(r: Run) {
    && (forall p :: p in r.place ==> Found(r, p))
    && (forall n :: 0 <= n < |r.inbox| ==> At(r, r.inbox[n], Inbox)) && Distinct(r.inbox)
    && (r.inHand.Some? ==> At(r, r.inHand.value, InHand))
    && (forall id :: id in r.sh.transMap ==> At(r, r.sh.transMap[id], Running(id)))
    && (forall key :: key in r.sh.pending ==> QueuePlaced(r, r.sh.pending[key]))
  }

  ghost predicate QueuePlaced(r: Run, queue: seq<Packet>) {
    Distinct(queue) && forall n :: 0 <= n < |queue| ==> At(r, queue[n], Waiting)
  }

  /** A request in hand has a key whose transaction has just ended. */
  ghost predicate HandOk(r: Run) {
    r.inHand.Some? ==> SerialKey(r.inHand.value).Some? && SerialKey(r.inHand.value).value !in r.sh.keyInProcess
  }

  ghost predicate RunInv(cfg: Config, r: Run) {
    ShardInv(cfg, r.sh) && Placed(r) && HandOk(r)
  }

  /** Every request but `p` is where it is recorded; `p` is nowhere. */
  ghost predicate PlacedBut(r: Run, p: Packet) {
    p in r.place && Placed(r.(place := r.place - {p}))
  }

  lemma RestDistinct(s: seq<Packet>)
    requires Distinct(s) && s != []
    ensures Distinct(s[1..])
  {
  }

  lemma TakeFromInbox(r: Run)
    requires Placed(r) && r.inbox != []
    ensures PlacedBut(r.(inbox := r.inbox[1..]), r.inbox[0])
  {
    var p := r.inbox[0];
    assert At(r, p, Inbox);
    var r' := r.(inbox := r.inbox[1..], place := r.place - {p});
    QueuesStayPlaced(r, r', p);
    hide QueuePlaced;
    assert r.inbox == [p] + r.inbox[1..];
    forall n | 0 <= n < |r'.inbox|
      ensures At(r', r'.inbox[n], Inbox)
    {
      var m := n + 1;
      assert At(r, r.inbox[m], Inbox) && r'.inbox[n] == r.inbox[m] && r.inbox[0] != r.inbox[m];
    }
    hide Distinct;
    RestDistinct(r.inbox);
    forall x | x in r'.place
      ensures Found(r', x)
    {
      assert Found(r, x);
    }
  }

  lemma TakeFromHand(r: Run)
    requires Placed(r) && r.inHand.Some?
    ensures PlacedBut(r.(inHand := None), r.inHand.value)
  {
    var p := r.inHand.value;
    assert At(r, p, InHand);
    var r' := r.(inHand := None, place := r.place - {p});
    forall x | x in r'.place
      ensures Found(r', x)
    {
      assert Found(r, x);
    }
    QueuesStayPlaced(r, r', p);
  }

  lemma TakeFromMap(r: Run, id: nat)
    requires Placed(r) && id in r.sh.transMap
    ensures PlacedBut(r.(sh := r.sh.(transMap := r.sh.transMap - {id})), r.sh.transMap[id])
  {
    var p := r.sh.transMap[id];
    assert At(r, p, Running(id));
    var r' := r.(sh := r.sh.(transMap := r.sh.transMap - {id}), place := r.place - {p});
    forall x | x in r'.place
      ensures Found(r', x)
    {
      assert Found(r, x);
    }
    QueuesStayPlaced(r, r', p);
  }

  /** A request that was not waiting leaves the queues as they are. */
  lemma QueuesStayPlaced(r: Run, r': Run, p: Packet)
    requires Placed(r) && p in r.place && r.place[p] != Waiting && r'.place == r.place - {p} && r'.sh.pending == r.sh.pending
    ensures forall key :: key in r'.sh.pending ==> QueuePlaced(r', r'.sh.pending[key])
  {
    forall key | key in r.sh.pending
      ensures QueuePlaced(r', r.sh.pending[key])
    {
      var queue := r.sh.pending[key];
      assert QueuePlaced(r, queue);
      forall n | 0 <= n < |queue|
        ensures At(r', queue[n], Waiting)
      {
        assert At(r, queue[n], Waiting);
      }
    }
  }

  lemma TakeFromQueue(cfg: Config, r: Run, key: nat)
    requires Placed(r) && QueuesOk(cfg, r.sh) && key in r.sh.pending
    ensures r.sh.pending[key] != []
    ensures var queue := r.sh.pending[key];
            var rest := if |queue| == 1 then r.sh.pending - {key} else r.sh.pending[key := queue[1..]];
            PlacedBut(r.(sh := r.sh.(pending := rest)), queue[0])
  {
    assert QueueOk(cfg, key, r.sh.pending[key]) && QueuePlaced(r, r.sh.pending[key]);
    var queue := r.sh.pending[key];
    var p := queue[0];
    assert At(r, p, Waiting) && HasKey(p, key);
    var rest := if |queue| == 1 then r.sh.pending - {key} else r.sh.pending[key := queue[1..]];
    var r' := r.(sh := r.sh.(pending := rest), place := r.place - {p});
    assert queue == [p] + queue[1..];
    RestDistinct(queue);
    hide QueuesOk;
    forall x | x in r'.place
      ensures Found(r', x)
    {
      assert Found(r, x);
    }
    forall other | other in rest
      ensures QueuePlaced(r', rest[other])
    {
      assert QueueOk(cfg, other, r.sh.pending[other]) && QueuePlaced(r, r.sh.pending[other]);
      forall n | 0 <= n < |rest[other]|
        ensures At(r', rest[other][n], Waiting)
      {
        var m := if other == key then n + 1 else n;
        assert rest[other][n] == r.sh.pending[other][m];
        assert At(r, r.sh.pending[other][m], Waiting) && HasKey(r.sh.pending[other][m], other);
      }
    }
  }

  /** `p` is recorded at a place where nothing has to be found. */
  lemma PutAway(r: Run, p: Packet, where: Place)
    requires PlacedBut(r, p) && (where.Rejected? || where.Finished?)
    ensures Placed(r.(place := r.place[p := where]))
  {
    PutSomewhere(r, p, r.(place := r.place[p := where]));
  }

  lemma PutInHand(r: Run, p: Packet)
    requires PlacedBut(r, p) && r.inHand.None?
    ensures Placed(r.(inHand := Some(p), place := r.place[p := InHand]))
  {
    PutSomewhere(r, p, r.(inHand := Some(p), place := r.place[p := InHand]));
  }

  lemma PutInMap(r: Run, p: Packet, id: nat)
    requires PlacedBut(r, p) && id !in r.sh.transMap
    ensures Placed(r.(sh := r.sh.(transMap := r.sh.transMap[id := p]), place := r.place[p := Running(id)]))
  {
    PutSomewhere(r, p, r.(sh := r.sh.(transMap := r.sh.transMap[id := p]), place := r.place[p := Running(id)]));
  }

  lemma PutInInbox(r: Run, p: Packet)
    requires PlacedBut(r, p)
    ensures Placed(r.(inbox := r.inbox + [p], place := r.place[p := Inbox]))
  {
    var r' := r.(inbox := r.inbox + [p], place := r.place[p := Inbox]);
    PutSomewhere(r, p, r');
    forall n | 0 <= n < |r.inbox|
      ensures At(r', r.inbox[n], Inbox) && r.inbox[n] != p
    {
      assert At(r.(place := r.place - {p}), r.inbox[n], Inbox);
    }
  }

  lemma PutInQueue(cfg: Config, r: Run, p: Packet, key: nat)
    requires PlacedBut(r, p) && QueuesOk(cfg, r.sh) && HasKey(p, key)
    ensures Placed(r.(sh := r.sh.(pending := r.sh.pending[key := QueueOf(r.sh, key) + [p]]), place := r.place[p := Waiting]))
  {
    var pending := r.sh.pending[key := QueueOf(r.sh, key) + [p]];
    var r' := r.(sh := r.sh.(pending := pending), place := r.place[p := Waiting]);
    var r0 := r.(place := r.place - {p});
    forall x | x in r'.place
      ensures Found(r', x)
    {
      if x != p {
        assert Found(r0, x);
      }
    }
    forall other | other in pending
      ensures QueuePlaced(r', pending[other])
    {
      assert other in r.sh.pending ==> QueuePlaced(r0, r.sh.pending[other]);
      forall n | 0 <= n < |QueueOf(r.sh, other)|
        ensures At(r', QueueOf(r.sh, other)[n], Waiting) && QueueOf(r.sh, other)[n] != p
      {
        assert At(r0, QueueOf(r.sh, other)[n], Waiting);
      }
    }
    PutElsewhere(r, p, r');
  }

  /** Recording a new place for `p` disturbs neither the inbox, the hand nor the running requests. */
  lemma PutElsewhere(r: Run, p: Packet, r': Run)
    requires PlacedBut(r, p) && p in r'.place && r'.place == r.place[p := r'.place[p]]
    ensures forall n :: 0 <= n < |r.inbox| ==> At(r', r.inbox[n], Inbox)
    ensures r.inHand.Some? ==> At(r', r.inHand.value, InHand)
    ensures forall id :: id in r.sh.transMap ==> At(r', r.sh.transMap[id], Running(id))
  {
    var r0 := r.(place := r.place - {p});
    forall n | 0 <= n < |r.inbox|
      ensures At(r', r.inbox[n], Inbox)
    {
      assert At(r0, r.inbox[n], Inbox);
    }
    assert r.inHand.Some? ==> At(r0, r.inHand.value, InHand);
    forall id | id in r.sh.transMap
      ensures At(r', r.sh.transMap[id], Running(id))
    {
      assert At(r0, r.sh.transMap[id], Running(id));
    }
  }

  /** ... nor the queues, when `p` is put anywhere but into one. */
  lemma PutSomewhere(r: Run, p: Packet, r': Run)
    requires PlacedBut(r, p) && p in r'.place && r'.place == r.place[p := r'.place[p]] && r'.sh.pending == r.sh.pending
    requires forall x :: x in r.inbox ==> x in r'.inbox
    requires r.inHand == r'.inHand || r.inHand.None?
    requires forall id :: id in r.sh.transMap ==> id in r'.sh.transMap && r'.sh.transMap[id] == r.sh.transMap[id]
    ensures forall x :: x in r'.place && x != p ==> Found(r', x)
    ensures forall n :: 0 <= n < |r.inbox| ==> At(r', r.inbox[n], Inbox)
    ensures r.inHand.Some? ==> At(r', r.inHand.value, InHand)
    ensures forall id :: id in r.sh.transMap ==> At(r', r.sh.transMap[id], Running(id))
    ensures forall key :: key in r.sh.pending ==> QueuePlaced(r', r.sh.pending[key])
  {
    var r0 := r.(place := r.place - {p});
    PutElsewhere(r, p, r');
    forall x | x in r'.place && x != p
      ensures Found(r', x)
    {
      assert Found(r0, x);
    }
    forall key | key in r.sh.pending
      ensures QueuePlaced(r', r.sh.pending[key])
    {
      assert QueuePlaced(r0, r.sh.pending[key]);
      forall n | 0 <= n < |r.sh.pending[key]|
        ensures At(r', r.sh.pending[key][n], Waiting)
      {
        assert At(r0, r.sh.pending[key][n], Waiting);
      }
    }
  }

  lemma PlacedOnlyMaps(r: Run, r': Run)
    requires Placed(r) && r'.place == r.place && r'.inbox == r.inbox && r'.inHand == r.inHand
    requires r'.sh.transMap == r.sh.transMap && r'.sh.pending == r.sh.pending
    ensures Placed(r')
  {
    assert forall p :: p in r.place ==> Found(r, p) ==> Found(r', p);
    assert forall key :: key in r.sh.pending ==> QueuePlaced(r, r.sh.pending[key]) ==> QueuePlaced(r', r.sh.pending[key]);
    assert forall p, where :: At(r, p, where) == At(r', p, where);
  }

  lemma PlacedAfterDispatch(cfg: Config, r: Run, p: Packet, expired: bool, slotFree: bool, fromQueue: bool)
    requires ShardInv(cfg, r.sh) && PlacedBut(r, p) && NoWrap(Dispatch(cfg, r.sh, p, expired, slotFree).0)
    ensures Placed(AfterDispatch(cfg, r, p, expired, slotFree, fromQueue))
  {
    hide Placed;
    var (sh, out) := Dispatch(cfg, r.sh, p, expired, slotFree);
    var r' := AfterDispatch(cfg, r, p, expired, slotFree, fromQueue);
    match out
    case Started(id) =>
      assert (r.sh.allocs + 1) * r.sh.step == r.sh.allocs * r.sh.step + r.sh.step;
      NewId(r.sh);
      PutInMap(r, p, id);
      PlacedOnlyMaps(r.(sh := r.sh.(transMap := r.sh.transMap[id := p]), place := r.place[p := Running(id)]), r');
    case Queued =>
      PutInQueue(cfg, r, p, SerialKey(p).value);
    case Refused(code) =>
      PutAway(r, p, Rejected(code));
      PlacedOnlyMaps(r.(place := r.place[p := Rejected(code)]), r');
  }

  lemma PlacedAfterReturn(cfg: Config, r: Run, id: nat)
    requires Placed(r) && ShardInv(cfg, r.sh) && r.inHand.None? && id in r.sh.transMap
    ensures Placed(Step(cfg, r, Return(id)))
  {
    hide Placed;
    var p := r.sh.transMap[id];
    var (sh, next) := Retire(r.sh, id);
    var r' := Step(cfg, r, Return(id));
    TakeFromMap(r, id);
    var r1 := r.(sh := r.sh.(transMap := r.sh.transMap - {id}));
    PutAway(r1, p, Finished);
    var r2 := r1.(place := r.place[p := Finished]);
    if next.Some? {
      var key := SerialKey(p).value;
      TakeFromQueue(cfg, r2, key);
      var queue := r2.sh.pending[key];
      var rest := if |queue| == 1 then r2.sh.pending - {key} else r2.sh.pending[key := queue[1..]];
      var r3 := r2.(sh := r2.sh.(pending := rest));
      PutInHand(r3, queue[0]);
      PlacedOnlyMaps(r3.(inHand := Some(queue[0]), place := r3.place[queue[0] := InHand]), r');
    } else {
      assert SerialKey(p).Some? && SerialKey(p).value in r.sh.pending ==>
          QueueOk(cfg, SerialKey(p).value, r.sh.pending[SerialKey(p).value]);
      PlacedOnlyMaps(r2, r');
    }
  }

  /** Every step keeps the maps of the shard consistent and every request in exactly one place. */
  lemma StepKeepsInv(cfg: Config, r: Run, e: Event)
    requires RunInv(cfg, r) && Enabled(r, e) && NoWrap(Step(cfg, r, e).sh)
    ensures RunInv(cfg, Step(cfg, r, e))
  {
    hide Placed, ShardInv;
    match e
    case Arrive(p) =>
      var r1 := r.(place := r.place[p := Finished]);
      NewPlace(r, p);
      PutInInbox(r1, p);
      PlacedOnlyMaps(r1.(inbox := r1.inbox + [p], place := r1.place[p := Inbox]), Step(cfg, r, e));
    case Handle(expired, slotFree) =>
      TakeFromInbox(r);
      DispatchKeepsInv(cfg, r.sh, r.inbox[0], expired, slotFree);
      PlacedAfterDispatch(cfg, r.(inbox := r.inbox[1..]), r.inbox[0], expired, slotFree, false);
    case Return(id) =>
      RetireKeepsInv(cfg, r.sh, id);
      PlacedAfterReturn(cfg, r, id);
    case Redispatch(expired, slotFree) =>
      TakeFromHand(r);
      DispatchKeepsInv(cfg, r.sh, r.inHand.value, expired, slotFree);
      PlacedAfterDispatch(cfg, r.(inHand := None), r.inHand.value, expired, slotFree, true);
  }

  lemma NewPlace(r: Run, p: Packet)
    requires Placed(r) && p !in r.place
    ensures PlacedBut(r.(place := r.place[p := Finished]), p)
  {
    assert r.place[p := Finished] - {p} == r.place;
  }
}
