/** What happens to the requests that wait behind a refused one, and exactly when the requests of a key
    keep their order (lib/service/transaction/transaction_mgr_impl.go). */
module ShardStranding {
  import opened Options
  import opened TransactionShard
  import opened ShardRuns
  import opened ShardOrder
  import opened TransactionMgr

  // ---- when waiting requests lose their owner ------------------------------------------------------------

  /** A request taken off a queue is refused with others of its key behind it: its deadline has passed,
      its command has no handler, or no transaction slot is free. */
  predicate RefusedAhead(cfg: Config, r: Run, expired: bool, slotFree: bool)
    requires r.inHand.Some? && SerialKey(r.inHand.value).Some?
  {
    && SerialKey(r.inHand.value).value in r.sh.pending
    && (expired || r.inHand.value.cmd !in cfg.handlers || !slotFree)
  }

  /** Handling a request taken off a queue leaves waiting requests without an owner exactly when it is
      refused ahead of others. */
  lemma StrandedExactly(cfg: Config, r: Run, expired: bool, slotFree: bool)
    requires RunInv(cfg, r) && Orderly(r) && !r.stranded && Enabled(r, Redispatch(expired, slotFree))
    ensures Owned(Step(cfg, r, Redispatch(expired, slotFree))) <==> !RefusedAhead(cfg, r, expired, slotFree)
  {
    var p := r.inHand.value;
    var key := SerialKey(p).value;
    var r' := Step(cfg, r, Redispatch(expired, slotFree));
    hide Counted, ShardInv, Placed, InLine;
    assert forall k :: k != key ==> HandOf(r, k) == [];
    if RefusedAhead(cfg, r, expired, slotFree) {
      assert key in r'.sh.pending && HandOf(r', key) == [];
    }
  }

  /** Requests of the key wait, and no request of it runs, is in hand or is about to be handled. */
  ghost predicate Abandoned(r: Run, key: nat) {
    && key in r.sh.pending && key !in r.sh.keyInProcess && HandOf(r, key) == []
    && forall n :: 0 <= n < |r.inbox| ==> !HasKey(r.inbox[n], key)
  }

  lemma AbandonedStays(cfg: Config, r: Run, e: Event, key: nat)
    requires RunInv(cfg, r) && Abandoned(r, key) && Enabled(r, e)
    requires e.Arrive? ==> !HasKey(e.p, key)
    ensures Abandoned(Step(cfg, r, e), key) && Step(cfg, r, e).sh.pending[key] == r.sh.pending[key]
  {
    hide Placed, Numbered;
    match e
    case Arrive(_) =>
    case Handle(_, _) => assert !HasKey(r.inbox[0], key);
    case Redispatch(_, _) => assert !HasKey(r.inHand.value, key);
    case Return(id) =>
      assert !Runs(r.sh, key);
      assert !HasKey(r.sh.transMap[id], key);
      var own := SerialKey(r.sh.transMap[id]);
      if own.Some? && own.value in r.sh.pending {
        assert QueueOk(cfg, own.value, r.sh.pending[own.value]);
      }
  }

  /** Abandoned requests wait, in the same queue, and keep the shard from stopping for as long as no
      request of their key arrives; after shutdown, that is for ever. */
  lemma {:induction false} StrandedUntilArrival(cfg: Config, rs: seq<Run>, events: seq<Event>, key: nat)
    requires ShardTrace(cfg, rs, events) && forall k :: 0 <= k < |rs| ==> RunInv(cfg, rs[k])
    requires Abandoned(rs[0], key)
    requires forall k :: 0 <= k < |events| ==> !(events[k].Arrive? && HasKey(events[k].p, key))
    ensures var last := rs[|events|];
            Abandoned(last, key) && last.sh.pending[key] == rs[0].sh.pending[key] && !CanStop(last)
    decreases |events|
  {
    hide Step, RunInv, HasKey;
    if |events| > 0 {
      var k := |events| - 1;
      StrandedUntilArrival(cfg, rs[..|events|], events[..k], key);
      AbandonedStays(cfg, rs[k], events[k], key);
    }
  }

  /** A later request of the key gives the waiting ones an owner again exactly when it is started. */
  lemma RescuedExactly(cfg: Config, r: Run, expired: bool, slotFree: bool, key: nat)
    requires r.inbox != [] && HasKey(r.inbox[0], key) && key in r.sh.pending && key !in r.sh.keyInProcess
    requires Enabled(r, Handle(expired, slotFree))
    ensures key in Step(cfg, r, Handle(expired, slotFree)).sh.keyInProcess
            <==> !expired && r.inbox[0].cmd in cfg.handlers && slotFree
  {
  }

  // ---- exactly when the order of a key is kept --------------------------------------------------------------

  /** A request from the inbox starts while others of its key wait. */
  predicate Overtakes(cfg: Config, r: Run, e: Event, key: nat)
    requires Enabled(r, e)
  {
    && e.Handle? && HasKey(r.inbox[0], key) && key in r.sh.pending
    && Dispatch(cfg, r.sh, r.inbox[0], e.expired, e.slotFree).1.Started?
  }

  lemma QueueAfterAnyHandle(cfg: Config, sh: Shard, p: Packet, expired: bool, slotFree: bool, key: nat)
    ensures var (sh', out) := Dispatch(cfg, sh, p, expired, slotFree);
            QueueOf(sh', key) == (if out.Queued? && HasKey(p, key) then QueueOf(sh, key) + [p] else QueueOf(sh, key))
  {
  }

  lemma Parts(s: seq<Packet>, p: Packet, queue: seq<Packet>)
    ensures s + [] + (queue + [p]) == s + [] + queue + [p] == s + queue + [p] && s + [] + queue == s + queue
    ensures s + [p] + [] + queue == s + [p] + queue
  {
  }

  lemma LineOfAnyHandle(cfg: Config, r: Run, expired: bool, slotFree: bool, key: nat)
    requires Enabled(r, Handle(expired, slotFree))
    ensures var p := r.inbox[0];
            var out := Dispatch(cfg, r.sh, p, expired, slotFree).1;
            Line(Step(cfg, r, Handle(expired, slotFree)), key) ==
              if !HasKey(p, key) || out.Refused? then Line(r, key)
              else if out.Queued? then Line(r, key) + [p]
              else OfKey(r.started, key) + [p] + QueueOf(r.sh, key)
    ensures Line(r, key) == OfKey(r.started, key) + QueueOf(r.sh, key)
  {
    hide OfKey, HandOf, QueueOf, Step, Dispatch, HasKey;
    StartedAfterHandle(cfg, r, expired, slotFree, key);
    QueueAfterAnyHandle(cfg, r.sh, r.inbox[0], expired, slotFree, key);
    Parts(OfKey(r.started, key), r.inbox[0], QueueOf(r.sh, key));
  }

  /** A newcomer in the middle breaks the order; at the end it does not. */
  lemma NewcomerInLine(number: map<Packet, nat>, s: seq<Packet>, p: Packet, queue: seq<Packet>, bound: int)
    requires Rising(number, s + queue) && Before(number, s + queue, bound) && p in number && number[p] == bound
    ensures Rising(number, s + [p] + queue) && Before(number, s + [p] + queue, bound + 1) <==> queue == []
  {
    var t := s + [p] + queue;
    if queue != [] {
      assert (s + queue)[|s|] == queue[0];
      assert t[|s|] == p && t[|s| + 1] == queue[0];
    } else {
      assert s + queue == s && t == s + [p];
      LineGrows(number, s, p, bound);
    }
  }

  lemma LineKeptByHandle(cfg: Config, r: Run, expired: bool, slotFree: bool, key: nat)
    requires QueuesOk(cfg, r.sh) && Counted(r) && InLine(r, key) && Enabled(r, Handle(expired, slotFree))
    ensures InLine(Step(cfg, r, Handle(expired, slotFree)), key) <==> !Overtakes(cfg, r, Handle(expired, slotFree), key)
  {
    hide Line, Step, Dispatch, Rising, Before, OfKey, QueueOf, QueuesOk, Counted, HasKey;
    var p, s, queue := r.inbox[0], OfKey(r.started, key), QueueOf(r.sh, key);
    var bound := r.arrivals - |r.inbox|;
    QueueShown(cfg, r.sh, key);
    LineOfAnyHandle(cfg, r, expired, slotFree, key);
    HandleTakesFirst(cfg, r, expired, slotFree);
    LineGrows(r.number, Line(r, key), p, bound);
    BeforeMore(r.number, Line(r, key), bound);
    NewcomerInLine(r.number, s, p, queue, bound);
  }

  lemma HandleTakesFirst(cfg: Config, r: Run, expired: bool, slotFree: bool)
    requires Counted(r) && Enabled(r, Handle(expired, slotFree))
    ensures r.inbox[0] in r.number && r.number[r.inbox[0]] == r.arrivals - |r.inbox|
    ensures var r' := Step(cfg, r, Handle(expired, slotFree));
            r'.number == r.number && r'.arrivals == r.arrivals && |r'.inbox| == |r.inbox| - 1
  {
  }

  lemma QueueShown(cfg: Config, sh: Shard, key: nat)
    requires QueuesOk(cfg, sh)
    ensures key in sh.pending <==> QueueOf(sh, key) != []
  {
    assert key in sh.pending ==> QueueOk(cfg, key, sh.pending[key]);
  }

  lemma LineOfAnyRedispatch(cfg: Config, r: Run, expired: bool, slotFree: bool, key: nat)
    requires HandOk(r) && Enabled(r, Redispatch(expired, slotFree))
    ensures var line := Line(Step(cfg, r, Redispatch(expired, slotFree)), key);
            || line == Line(r, key)
            || (line == OfKey(r.started, key) + QueueOf(r.sh, key)
                && Line(r, key) == OfKey(r.started, key) + [r.inHand.value] + QueueOf(r.sh, key))
  {
    hide OfKey, HandOf, QueueOf, Step, Dispatch, HasKey;
    RedispatchParts(cfg, r, expired, slotFree, key);
    Parts(OfKey(r.started, key), r.inHand.value, QueueOf(r.sh, key));
  }

  lemma RisingWithout(number: map<Packet, nat>, s: seq<Packet>, p: Packet, queue: seq<Packet>, bound: int)
    requires Rising(number, s + [p] + queue) && Before(number, s + [p] + queue, bound)
    ensures Rising(number, s + queue) && Before(number, s + queue, bound)
  {
    var t, u := s + [p] + queue, s + queue;
    assert forall i :: 0 <= i < |u| ==> u[i] == t[if i < |s| then i else i + 1];
  }

  lemma LineKeptByRedispatch(cfg: Config, r: Run, expired: bool, slotFree: bool, key: nat)
    requires HandOk(r) && InLine(r, key) && Enabled(r, Redispatch(expired, slotFree))
    ensures InLine(Step(cfg, r, Redispatch(expired, slotFree)), key)
  {
    hide Line, Step, Rising, Before, OfKey, QueueOf, HandOk;
    RedispatchCounts(cfg, r, expired, slotFree);
    LineOfAnyRedispatch(cfg, r, expired, slotFree, key);
    if Line(Step(cfg, r, Redispatch(expired, slotFree)), key) != Line(r, key) {
      RisingWithout(r.number, OfKey(r.started, key), r.inHand.value, QueueOf(r.sh, key), r.arrivals - |r.inbox|);
    }
  }

  lemma RedispatchCounts(cfg: Config, r: Run, expired: bool, slotFree: bool)
    requires Enabled(r, Redispatch(expired, slotFree))
    ensures var r' := Step(cfg, r, Redispatch(expired, slotFree));
            r'.number == r.number && r'.arrivals == r.arrivals && r'.inbox == r.inbox
  {
  }

  lemma LineKeptByReturn(cfg: Config, r: Run, id: nat, key: nat)
    requires QueuesOk(cfg, r.sh) && InLine(r, key) && Enabled(r, Return(id))
    ensures InLine(Step(cfg, r, Return(id)), key)
  {
    ReturnEffect(cfg, r, id);
    LineOfReturn(cfg, r, id, key);
    hide Line, Step, Rising, Before;
  }

  lemma LineKeptByArrive(cfg: Config, r: Run, p: Packet, key: nat)
    requires Counted(r) && InLine(r, key) && Enabled(r, Arrive(p))
    ensures InLine(Step(cfg, r, Arrive(p)), key)
  {
    var r' := Step(cfg, r, Arrive(p));
    assert p !in r.number && Line(r', key) == Line(r, key);
    hide Line, Counted;
  }

  /** The requests of a key, started, in hand and waiting, stay in arrival order across a step exactly
      when the step does not start a newcomer ahead of waiting ones. */
  lemma LineKeptExactly(cfg: Config, r: Run, e: Event, key: nat)
    requires RunInv(cfg, r) && Counted(r) && InLine(r, key) && Enabled(r, e)
    ensures InLine(Step(cfg, r, e), key) <==> !Overtakes(cfg, r, e, key)
  {
    hide InLine, Step, Placed, Numbered, KeysExact, Counted, QueuesOk;
    match e
    case Arrive(p) => LineKeptByArrive(cfg, r, p, key);
    case Handle(expired, slotFree) => LineKeptByHandle(cfg, r, expired, slotFree, key);
    case Return(id) => LineKeptByReturn(cfg, r, id, key);
    case Redispatch(expired, slotFree) => LineKeptByRedispatch(cfg, r, expired, slotFree, key);
  }

  lemma {:induction false} TraceInv(cfg: Config, index: nat, step: nat, rs: seq<Run>, events: seq<Event>, k: nat)
    requires index < step < UINT32 && ShardTrace(cfg, rs, events) && rs[0] == NewRun(index, step)
    requires forall j :: 0 <= j < |rs| ==> NoWrap(rs[j].sh)
    requires k < |rs|
    ensures RunInv(cfg, rs[k]) && Orderly(rs[k])
    decreases k
  {
    hide Step, RunInv, Orderly;
    if k == 0 {
      NewRunInv(cfg, index, step);
    } else {
      TraceInv(cfg, index, step, rs, events, k - 1);
      assert rs[k - 1 + 1] == Step(cfg, rs[k - 1], events[k - 1]) && NoWrap(rs[k].sh);
      StepKeepsInv(cfg, rs[k - 1], events[k - 1]);
      StepKeepsOrder(cfg, rs[k - 1], events[k - 1]);
    }
  }

  /** In every run of a shard the requests of a key are in arrival order throughout exactly when none is
      ever started from the inbox while others of the key wait. */
  lemma ArrivalOrderExactly(cfg: Config, index: nat, step: nat, rs: seq<Run>, events: seq<Event>, key: nat)
    requires index < step < UINT32 && ShardTrace(cfg, rs, events) && rs[0] == NewRun(index, step)
    requires forall j :: 0 <= j < |rs| ==> NoWrap(rs[j].sh)
    ensures (forall k :: 0 <= k < |rs| ==> InLine(rs[k], key))
            <==> (forall k :: 0 <= k < |events| ==> !Overtakes(cfg, rs[k], events[k], key))
  {
    hide Step, RunInv, InLine, Overtakes, Counted;
    forall k | 0 <= k < |events|
      ensures InLine(rs[k], key) ==> (InLine(rs[k + 1], key) <==> !Overtakes(cfg, rs[k], events[k], key))
    {
      TraceInv(cfg, index, step, rs, events, k);
      if InLine(rs[k], key) {
        LineKeptExactly(cfg, rs[k], events[k], key);
      }
    }
    NewLine(index, step, key);
    InLineUpTo(cfg, rs, events, key, |events|);
    if forall k :: 0 <= k < |rs| ==> InLine(rs[k], key) {
      forall k | 0 <= k < |events|
        ensures !Overtakes(cfg, rs[k], events[k], key)
      {
        assert InLine(rs[k], key) && InLine(rs[k + 1], key);
      }
    }
  }

  lemma NewLine(index: nat, step: nat, key: nat)
    ensures InLine(NewRun(index, step), key)
  {
    assert Line(NewRun(index, step), key) == [];
  }

  lemma {:induction false} InLineUpTo(cfg: Config, rs: seq<Run>, events: seq<Event>, key: nat, n: nat)
    requires ShardTrace(cfg, rs, events) && InLine(rs[0], key) && n <= |events|
    requires forall k :: 0 <= k < |events| ==>
               (InLine(rs[k], key) ==> (InLine(rs[k + 1], key) <==> !Overtakes(cfg, rs[k], events[k], key)))
    ensures (forall k :: 0 <= k < |events| ==> !Overtakes(cfg, rs[k], events[k], key)) ==>
              forall k :: 0 <= k <= n ==> InLine(rs[k], key)
    decreases n
  {
    hide Step, InLine, Overtakes;
    if n > 0 {
      InLineUpTo(cfg, rs, events, key, n - 1);
      var m := n - 1;
      assert InLine(rs[m], key) ==> (InLine(rs[m + 1], key) <==> !Overtakes(cfg, rs[m], events[m], key));
    }
  }

  // ---- a stranded request, rescued and overtaken -----------------------------------------------------------

  const STRANDED_CONFIG := Config(8, {1})

  function Request(n: nat): Packet {
    Packet(n, 5, 0, 1)
  }

  /** Three requests of user 5 arrive and are handled, the first runs and returns; the second is refused
      because its deadline has passed when its turn comes. */
  function StrandedEvents(): seq<Event> {
    [Arrive(Request(1)), Arrive(Request(2)), Arrive(Request(3)),
     Handle(false, true), Handle(false, true), Handle(false, true), Return(1), Redispatch(true, true)]
  }

  /** A fourth request of the user arrives and starts; the third follows it. */
  function RescueEvents(): seq<Event> {
    [Arrive(Request(4)), Handle(false, true), Return(2), Redispatch(false, true), Return(3)]
  }

  /** What a state of the run consists of: `known` requests have arrived and, when `busy`, the last one
      started is running. */
  ghost predicate Looks(r: Run, known: nat, inbox: seq<Packet>, inHand: Option<Packet>, busy: bool, waiting: seq<Packet>,
                        started: seq<Packet>)
  {
    && r.inbox == inbox && r.inHand == inHand && r.started == started && r.arrivals == known
    && r.sh.index == 0 && r.sh.step == 1 && r.sh.nextTransId == |started| + 1
    && (busy ==> started != [])
    && r.sh.transMap == (if busy then map[|started| := started[|started| - 1]] else map[])
    && r.sh.keyInProcess == (if busy then {5} else {})
    && r.sh.pending == (if waiting == [] then map[] else map[5 := waiting])
    && (forall n: nat :: Request(n) in r.place <==> 1 <= n <= known)
    && (forall n: nat :: 1 <= n <= known ==> Request(n) in r.number && r.number[Request(n)] == n - 1)
  }

  ghost predicate Known(p: Packet, known: nat) {
    exists n: nat :: 1 <= n <= known && p == Request(n)
  }

  lemma LooksAfterArrive(r: Run, known: nat, inbox: seq<Packet>, waiting: seq<Packet>, started: seq<Packet>)
    requires Looks(r, known, inbox, None, false, waiting, started)
    ensures var e := Arrive(Request(known + 1));
            Enabled(r, e)
            && Looks(Step(STRANDED_CONFIG, r, e), known + 1, inbox + [Request(known + 1)], None, false, waiting, started)
  {
  }

  lemma LooksAfterStart(r: Run, known: nat, p: Packet, inbox: seq<Packet>, waiting: seq<Packet>, started: seq<Packet>)
    requires Looks(r, known, [p] + inbox, None, false, waiting, started) && |started| < 8 && Known(p, known)
    ensures var e := Handle(false, true);
            Enabled(r, e) && Looks(Step(STRANDED_CONFIG, r, e), known, inbox, None, true, waiting, started + [p])
  {
    assert r.inbox[0] == p && r.inbox[1..] == inbox;
    assert r.sh.keyInProcess + {5} == {5};
  }

  lemma LooksAfterQueue(r: Run, known: nat, p: Packet, inbox: seq<Packet>, waiting: seq<Packet>, started: seq<Packet>)
    requires Looks(r, known, [p] + inbox, None, true, waiting, started) && |waiting| < 8 && Known(p, known)
    ensures var e := Handle(false, true);
            Enabled(r, e) && Looks(Step(STRANDED_CONFIG, r, e), known, inbox, None, true, waiting + [p], started)
  {
    assert r.inbox[0] == p && r.inbox[1..] == inbox;
  }

  lemma LooksAfterReturn(r: Run, known: nat, waiting: seq<Packet>, started: seq<Packet>)
    requires Looks(r, known, [], None, true, waiting, started)
    requires Known(started[|started| - 1], known) && (waiting != [] ==> Known(waiting[0], known))
    ensures var (e, next) := (Return(|started|), if waiting == [] then None else Some(waiting[0]));
            Enabled(r, e)
            && Looks(Step(STRANDED_CONFIG, r, e), known, [], next, false, if waiting == [] then [] else waiting[1..], started)
  {
    assert r.sh.transMap - {|started|} == map[] && r.sh.keyInProcess - {5} == {};
    if |waiting| == 1 {
      assert r.sh.pending - {5} == map[];
    } else if |waiting| > 1 {
      assert r.sh.pending[5 := waiting[1..]] == map[5 := waiting[1..]];
    }
  }

  lemma LooksAfterRedispatch(r: Run, known: nat, p: Packet, waiting: seq<Packet>, started: seq<Packet>, expired: bool)
    requires Looks(r, known, [], Some(p), false, waiting, started) && |started| < 8 && Known(p, known)
    ensures var e := Redispatch(expired, true);
            Enabled(r, e)
            && Looks(Step(STRANDED_CONFIG, r, e), known, [], None, !expired, waiting,
                     if expired then started else started + [p])
  {
    assert r.sh.keyInProcess + {5} == {5};
  }

  lemma JoinTraces(cfg: Config, rs: seq<Run>, rest: seq<Run>, events: seq<Event>, more: seq<Event>)
    requires ShardTrace(cfg, rs, events) && ShardTrace(cfg, rest, more) && rs[|events|] == rest[0]
    ensures ShardTrace(cfg, rs + rest[1..], events + more)
  {
    hide Step, Enabled;
    var all, es := rs + rest[1..], events + more;
    forall k | 0 <= k < |es|
      ensures Enabled(all[k], es[k]) && all[k + 1] == Step(cfg, all[k], es[k])
    {
      if k >= |events| {
        var m := k - |events|;
        assert es[k] == more[m] && all[k] == rest[m] && all[k + 1] == rest[m + 1];
      }
    }
  }

  lemma ThreeSteps(r: Run, r1: Run, r2: Run, r3: Run, e1: Event, e2: Event, e3: Event)
    requires Enabled(r, e1) && r1 == Step(STRANDED_CONFIG, r, e1)
    requires Enabled(r1, e2) && r2 == Step(STRANDED_CONFIG, r1, e2)
    requires Enabled(r2, e3) && r3 == Step(STRANDED_CONFIG, r2, e3)
    ensures ShardTrace(STRANDED_CONFIG, [r, r1, r2, r3], [e1, e2, e3])
  {
    hide Step, Enabled;
  }

  /** Three requests arrive, */
  lemma ThreeArrived() returns (rs: seq<Run>)
    ensures ShardTrace(STRANDED_CONFIG, rs, [Arrive(Request(1)), Arrive(Request(2)), Arrive(Request(3))])
    ensures rs[0] == NewRun(0, 1) && Looks(rs[3], 3, [Request(1), Request(2), Request(3)], None, false, [], [])
  {
    var c, q1, q2, q3 := STRANDED_CONFIG, Request(1), Request(2), Request(3);
    var r0 := NewRun(0, 1);
    assert Looks(r0, 0, [], None, false, [], []);
    hide Step, Looks, Request, Enabled, ShardTrace, NewRun;
    LooksAfterArrive(r0, 0, [], [], []);
    var r1 := Step(c, r0, Arrive(q1));
    assert [] + [q1] == [q1] && [q1] + [q2] == [q1, q2] && [q1, q2] + [q3] == [q1, q2, q3];
    LooksAfterArrive(r1, 1, [q1], [], []);
    var r2 := Step(c, r1, Arrive(q2));
    LooksAfterArrive(r2, 2, [q1, q2], [], []);
    var r3 := Step(c, r2, Arrive(q3));
    ThreeSteps(r0, r1, r2, r3, Arrive(q1), Arrive(q2), Arrive(q3));
    rs := [r0, r1, r2, r3];
  }

  /** the first starts and the others are queued, */
  lemma ThreeHandled(r: Run) returns (rs: seq<Run>)
    requires Looks(r, 3, [Request(1), Request(2), Request(3)], None, false, [], [])
    ensures ShardTrace(STRANDED_CONFIG, rs, [Handle(false, true), Handle(false, true), Handle(false, true)])
    ensures rs[0] == r && Looks(rs[3], 3, [], None, true, [Request(2), Request(3)], [Request(1)])
  {
    var c, e, q1, q2, q3 := STRANDED_CONFIG, Handle(false, true), Request(1), Request(2), Request(3);
    assert Known(q1, 3) && Known(q2, 3) && Known(q3, 3);
    hide Step, Looks, Request, Enabled, ShardTrace, Known;
    assert [q1, q2, q3] == [q1] + [q2, q3] && [] + [q1] == [q1];
    LooksAfterStart(r, 3, q1, [q2, q3], [], []);
    var r1 := Step(c, r, e);
    var r2, r3 := TwoQueued(r1, q1, q2, q3);
    ThreeSteps(r, r1, r2, r3, e, e, e);
    rs := [r, r1, r2, r3];
  }

  lemma TwoQueued(r: Run, q1: Packet, q2: Packet, q3: Packet) returns (r1: Run, r2: Run)
    requires Looks(r, 3, [q2, q3], None, true, [], [q1]) && Known(q2, 3) && Known(q3, 3)
    ensures Enabled(r, Handle(false, true)) && r1 == Step(STRANDED_CONFIG, r, Handle(false, true))
    ensures Enabled(r1, Handle(false, true)) && r2 == Step(STRANDED_CONFIG, r1, Handle(false, true))
    ensures Looks(r2, 3, [], None, true, [q2, q3], [q1])
  {
    hide Step, Looks, Enabled, Known;
    assert [q2, q3] == [q2] + [q3] && [] + [q2] == [q2] && [q2] + [q3] == [q2, q3] && [q3] + [] == [q3];
    LooksAfterQueue(r, 3, q2, [q3], [], [q1]);
    r1 := Step(STRANDED_CONFIG, r, Handle(false, true));
    LooksAfterQueue(r1, 3, q3, [], [q2], [q1]);
    r2 := Step(STRANDED_CONFIG, r1, Handle(false, true));
  }

  /** the first returns and the second is refused. */
  lemma SecondRefused(r: Run) returns (rs: seq<Run>)
    requires Looks(r, 3, [], None, true, [Request(2), Request(3)], [Request(1)])
    ensures ShardTrace(STRANDED_CONFIG, rs, [Return(1), Redispatch(true, true)])
    ensures rs[0] == r && Looks(rs[2], 3, [], None, false, [Request(3)], [Request(1)])
  {
    var c, q1, q2, q3 := STRANDED_CONFIG, Request(1), Request(2), Request(3);
    assert Known(q1, 3) && Known(q2, 3);
    hide Step, Looks, Request, Enabled, Known;
    LooksAfterReturn(r, 3, [q2, q3], [q1]);
    var r1 := Step(c, r, Return(1));
    assert [q2, q3][1..] == [q3];
    LooksAfterRedispatch(r1, 3, q2, [q3], [q1], true);
    rs := [r, r1, Step(c, r1, Redispatch(true, true))];
  }

  lemma RestOrStop(r: Run, known: nat, waiting: seq<Packet>, started: seq<Packet>)
    requires Looks(r, known, [], None, false, waiting, started)
    ensures AtRest(r) && (CanStop(r) <==> waiting == []) && r.started == started
  {
    assert waiting != [] ==> 5 in r.sh.pending;
  }

  /** After the eight events nothing but an arrival can happen, yet the shard cannot stop. */
  lemma StrandedRunRests() returns (rs: seq<Run>)
    ensures ShardTrace(STRANDED_CONFIG, rs, StrandedEvents()) && rs[0] == NewRun(0, 1)
    ensures Looks(rs[8], 3, [], None, false, [Request(3)], [Request(1)])
    ensures AtRest(rs[8]) && !CanStop(rs[8])
  {
    hide Step, Looks, Request, Enabled, NewRun, AtRest, CanStop;
    var c, handle := STRANDED_CONFIG, Handle(false, true);
    var arrived := ThreeArrived();
    var handled := ThreeHandled(arrived[3]);
    var refused := SecondRefused(handled[3]);
    var es := [Arrive(Request(1)), Arrive(Request(2)), Arrive(Request(3))];
    JoinTraces(c, arrived, handled, es, [handle, handle, handle]);
    var rs6 := arrived + handled[1..];
    assert rs6[6] == handled[3];
    JoinTraces(c, rs6, refused, es + [handle, handle, handle], [Return(1), Redispatch(true, true)]);
    rs := rs6 + refused[1..];
    assert es + [handle, handle, handle] + [Return(1), Redispatch(true, true)] == StrandedEvents();
    assert rs[8] == refused[2];
    RestOrStop(rs[8], 3, [Request(3)], [Request(1)]);
  }

  /** A fourth request starts and returns, */
  lemma FourthRuns(r: Run) returns (rs: seq<Run>)
    requires Looks(r, 3, [], None, false, [Request(3)], [Request(1)])
    ensures ShardTrace(STRANDED_CONFIG, rs, RescueEvents()[..3])
    ensures rs[0] == r && Looks(rs[3], 4, [], Some(Request(3)), false, [], [Request(1), Request(4)])
  {
    var c, q1, q3, q4 := STRANDED_CONFIG, Request(1), Request(3), Request(4);
    assert Known(q3, 4) && Known(q4, 4);
    hide Step, Looks, Request, Enabled, ShardTrace, Known;
    LooksAfterArrive(r, 3, [], [q3], [q1]);
    var r1 := Step(c, r, Arrive(q4));
    assert [] + [q4] == [q4] + [] && [q1] + [q4] == [q1, q4] && [q3][1..] == [];
    LooksAfterStart(r1, 4, q4, [], [q3], [q1]);
    var r2 := Step(c, r1, Handle(false, true));
    LooksAfterReturn(r2, 4, [q3], [q1, q4]);
    var r3 := Step(c, r2, Return(2));
    ThreeSteps(r, r1, r2, r3, Arrive(q4), Handle(false, true), Return(2));
    assert RescueEvents()[..3] == [Arrive(q4), Handle(false, true), Return(2)];
    rs := [r, r1, r2, r3];
  }

  /** and the third, which came before it, follows. */
  lemma ThirdRuns(r: Run) returns (rs: seq<Run>)
    requires Looks(r, 4, [], Some(Request(3)), false, [], [Request(1), Request(4)])
    ensures ShardTrace(STRANDED_CONFIG, rs, RescueEvents()[3..])
    ensures rs[0] == r && Looks(rs[2], 4, [], None, false, [], [Request(1), Request(4), Request(3)])
  {
    var c, q1, q3, q4 := STRANDED_CONFIG, Request(1), Request(3), Request(4);
    assert Known(q3, 4);
    hide Step, Looks, Request, Enabled, Known;
    LooksAfterRedispatch(r, 4, q3, [], [q1, q4], false);
    var r1 := Step(c, r, Redispatch(false, true));
    assert [q1, q4] + [q3] == [q1, q4, q3];
    LooksAfterReturn(r1, 4, [], [q1, q4, q3]);
    rs := [r, r1, Step(c, r1, Return(3))];
  }

  lemma OfKeyOvertaken()
    ensures OfKey([Request(1), Request(4), Request(3)], 5) == [Request(1), Request(4), Request(3)]
  {
    var s := [Request(1), Request(4), Request(3)];
    assert s[..2] == [Request(1), Request(4)] && s[..2][..1] == [Request(1)] && s[..2][..1][..0] == [];
    assert OfKey(s[..2][..1], 5) == [Request(1)];
    assert OfKey(s[..2], 5) == [Request(1), Request(4)];
  }

  lemma OutOfOrder(r: Run, started: seq<Packet>)
    requires Looks(r, 4, [], None, false, [], started) && started == [Request(1), Request(4), Request(3)]
    ensures !Rising(r.number, OfKey(r.started, 5))
  {
    OfKeyOvertaken();
    assert r.number[started[1]] == 3 && r.number[started[2]] == 2;
  }

  /** The fourth request rescues the third and overtakes it: the shard can stop, but the requests of the
      key were not started in arrival order. */
  lemma OvertakingRun() returns (rs: seq<Run>)
    ensures ShardTrace(STRANDED_CONFIG, rs, StrandedEvents() + RescueEvents()) && rs[0] == NewRun(0, 1)
    ensures AtRest(rs[8]) && !CanStop(rs[8]) && CanStop(rs[13])
    ensures rs[13].started == [Request(1), Request(4), Request(3)]
    ensures !Rising(rs[13].number, OfKey(rs[13].started, 5))
  {
    hide Step, Looks, Request, Enabled, NewRun, AtRest, CanStop, OfKey, Rising;
    var c := STRANDED_CONFIG;
    var first := StrandedRunRests();
    var fourth := FourthRuns(first[8]);
    var third := ThirdRuns(fourth[3]);
    JoinTraces(c, fourth, third, RescueEvents()[..3], RescueEvents()[3..]);
    var rest := fourth + third[1..];
    assert RescueEvents()[..3] + RescueEvents()[3..] == RescueEvents();
    JoinTraces(c, first, rest, StrandedEvents(), RescueEvents());
    rs := first + rest[1..];
    assert rs[8] == first[8] && rs[13] == third[2];
    RestOrStop(rs[13], 4, [], [Request(1), Request(4), Request(3)]);
    OutOfOrder(rs[13], [Request(1), Request(4), Request(3)]);
  }
}
