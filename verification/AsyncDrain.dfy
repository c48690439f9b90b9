/** What Drain and Stop of the asynchronous worker promise, and exactly when
    (lib/service/async/async.go, lib/service/async/queue.go). */
module AsyncDrain {
  import opened Options
  import opened AsyncQueue

  // ---- continuing a run -------------------------------------------------------------------------

  lemma {:induction false} ExecAppend(s: State, a: seq<Action>, b: seq<Action>)
    ensures Exec(Exec(s, a), b) == Exec(s, a + b)
  {
    hide Step;
    if b == [] {
      assert a + b == a;
    } else {
      assert (a + b)[..|a + b| - 1] == a + b[..|b| - 1];
      ExecAppend(s, a, b[..|b| - 1]);
    }
  }

  lemma ExecOne(s: State, a: Action)
    ensures Exec(s, [a]) == Step(s, a)
  {
    assert [a][..0] == [];
  }

  /** Past the status check of PushE, its value not yet in the swap order. */
  predicate Pushing(pc: Producer) {
    pc.Running? || pc.Admitted? || pc.Allocated?
  }

  predicate Busy(pc: Producer) {
    !pc.Idle?
  }

  /** The worker accepts no new push. */
  predicate Closed(s: State) {
    s.status != Run
  }

  /** Nothing is left to pop but the value the worker is returning. */
  predicate Drained(s: State) {
    |s.values| - |s.popped| == Debt(s.worker)
  }

  /** Every push has been counted. */
  ghost predicate Quiet(s: State) {
    forall p :: 0 <= p < |s.producers| ==> s.producers[p].Idle? || s.producers[p].Counted?
  }

  /** No PushE is under way; a caller that has waited for all of its own calls knows as much. */
  ghost predicate Joined(s: State) {
    forall p :: 0 <= p < |s.producers| ==> s.producers[p].Idle?
  }

  ghost predicate NonePushing(s: State) {
    forall p :: 0 <= p < |s.producers| ==> !Pushing(s.producers[p])
  }

  // ---- a producer that is past the status check can always land its value -------------------------

  lemma {:induction false} FreshAddress(addrs: set<Addr>) returns (a: Addr)
    ensures forall x :: x in addrs ==> x < a
    decreases |addrs|
  {
    a := 0;
    SomeAddress(addrs);
    if addrs != {} {
      var x: nat :| x in addrs;
      var b := FreshAddress(addrs - {x});
      a := if x < b then b else x + 1;
      forall y | y in addrs
        ensures y < a
      {
        assert y == x || y in addrs - {x};
      }
    }
  }

  lemma SomeAddress(addrs: set<Addr>)
    ensures addrs == {} || exists x: nat :: x in addrs
  {
    assert (forall x: nat :: x !in addrs) ==> addrs == {};
  }

  /** The steps from `s` to `t` are a producer's: only its own value is added. */
  ghost predicate Adds(s: State, t: State, n: nat) {
    |t.values| == |s.values| + n && t.popped == s.popped && t.worker == s.worker && |t.producers| == |s.producers|
  }

  lemma LandAllocated(s: State, p: nat) returns (more: seq<Action>)
    requires p < |s.producers| && s.producers[p].Allocated?
    ensures Adds(s, Exec(s, more), 1)
  {
    more := [SwapTail(p)];
    ExecOne(s, SwapTail(p));
  }

  lemma LandAdmitted(s: State, p: nat) returns (more: seq<Action>)
    requires p < |s.producers| && s.producers[p].Admitted?
    ensures Adds(s, Exec(s, more), 1)
  {
    var node := FreshAddress(s.nodes.Keys);
    var a := Allocate(p, node);
    assert node !in s.nodes;
    ExecOne(s, a);
    var t := Step(s, a);
    assert t.producers[p].Allocated? && Adds(s, t, 0);
    hide Step;
    var rest := LandAllocated(t, p);
    more := [a] + rest;
    ExecAppend(s, [a], rest);
  }

  lemma LandRunning(s: State, p: nat) returns (more: seq<Action>)
    requires p < |s.producers| && s.producers[p].Running? && s.count < s.capacity
    ensures Adds(s, Exec(s, more), 1)
  {
    var a := CheckCount(p);
    ExecOne(s, a);
    var t := Step(s, a);
    assert t.producers[p].Admitted? && Adds(s, t, 0);
    hide Step;
    var rest := LandAdmitted(t, p);
    more := [a] + rest;
    ExecAppend(s, [a], rest);
  }

  lemma Land(s: State, p: nat) returns (more: seq<Action>)
    requires p < |s.producers| && Pushing(s.producers[p]) && s.count < s.capacity
    ensures Adds(s, Exec(s, more), 1)
  {
    if s.producers[p].Running? {
      more := LandRunning(s, p);
    } else if s.producers[p].Admitted? {
      more := LandAdmitted(s, p);
    } else {
      more := LandAllocated(s, p);
    }
  }

  // ---- what stays so ------------------------------------------------------------------------------

  function Actor(a: Action): Option<nat> {
    match a
    case CheckStatus(p, _) => Some(p)
    case CheckCount(p) => Some(p)
    case Allocate(p, _) => Some(p)
    case SwapTail(p) => Some(p)
    case Link(p) => Some(p)
    case AddCount(p) => Some(p)
    case Notify(p) => Some(p)
    case _ => None
  }

  function One(b: bool): nat {
    if b then 1 else 0
  }

  /** What a step of a producer does after Quiesce: it only moves on. */
  ghost predicate Moves(s: State, s': State, p: nat)
    requires p < |s.producers| == |s'.producers|
  {
    var pc, pc' := s.producers[p], s'.producers[p];
    && s'.producers == s.producers[p := pc']
    && |s'.values| + One(Pushing(pc')) <= |s.values| + One(Pushing(pc))
    && (!Pushing(pc) ==> !Pushing(pc') && s'.values == s.values)
    && (pc.Idle? || pc.Counted? ==> pc'.Idle? || pc'.Counted?)
  }

  lemma WorkerMoves(s: State, a: Action)
    requires Closed(s)
    ensures var s' := WorkerStep(s, a);
            Closed(s') && s'.producers == s.producers && s'.values == s.values
  {
  }

  lemma PusherMoves(s: State, a: Action, p: nat)
    requires Closed(s) && Actor(a) == Some(p) && (a.CheckStatus? || a.CheckCount? || a.Allocate? || a.SwapTail?)
    ensures var s' := ProducerStep(s, a);
            Closed(s') && if p < |s.producers| then Moves(s, s', p) else s' == s
  {
    if a.CheckStatus? || a.CheckCount? {
      assert p < |s.producers| ==> ProducerStep(s, a).values == s.values;
    }
  }

  lemma LinkMoves(s: State, p: nat)
    requires Closed(s)
    ensures var s' := ProducerStep(s, Link(p));
            Closed(s') && if p < |s.producers| then Moves(s, s', p) else s' == s
  {
    hide SetNext;
  }

  lemma CounterMoves(s: State, a: Action, p: nat)
    requires Closed(s) && Actor(a) == Some(p) && (a.AddCount? || a.Notify?)
    ensures var s' := ProducerStep(s, a);
            Closed(s') && if p < |s.producers| then Moves(s, s', p) else s' == s
  {
  }

  lemma ProducerMoves(s: State, a: Action, p: nat)
    requires Closed(s) && Actor(a) == Some(p)
    ensures var s' := ProducerStep(s, a);
            Closed(s') && if p < |s.producers| then Moves(s, s', p) else s' == s
  {
    hide ProducerStep, Moves;
    if a.Link? {
      LinkMoves(s, p);
    } else if a.AddCount? || a.Notify? {
      CounterMoves(s, a, p);
    } else {
      PusherMoves(s, a, p);
    }
  }

  lemma StepMoves(s: State, a: Action)
    requires Closed(s)
    ensures Closed(Step(s, a))
    ensures if Actor(a).Some? && Actor(a).value < |s.producers| then Moves(s, Step(s, a), Actor(a).value)
            else Step(s, a).producers == s.producers && Step(s, a).values == s.values
  {
    hide ProducerStep, WorkerStep, Moves;
    if Actor(a).Some? {
      ProducerMoves(s, a, Actor(a).value);
    } else {
      WorkerMoves(s, a);
    }
  }

  lemma StepStaysClosed(s: State, a: Action)
    requires Closed(s)
    ensures Closed(Step(s, a))
    ensures |Step(s, a).values| + Number(Step(s, a).producers, Pushing) <= |s.values| + Number(s.producers, Pushing)
    ensures NonePushing(s) ==> NonePushing(Step(s, a)) && Step(s, a).values == s.values
    ensures NonePushing(s) && Quiet(s) ==> Quiet(Step(s, a))
  {
    StepMoves(s, a);
    hide Step, Number;
    if Actor(a).Some? && Actor(a).value < |s.producers| {
      NumberUpdate(s.producers, Pushing, Actor(a).value, Step(s, a).producers[Actor(a).value]);
    }
  }

  lemma {:induction false} ExecStaysClosed(s: State, more: seq<Action>)
    requires Closed(s)
    ensures var t := Exec(s, more);
            && Closed(t)
            && |t.values| + Number(t.producers, Pushing) <= |s.values| + Number(s.producers, Pushing)
            && (NonePushing(s) ==> NonePushing(t) && t.values == s.values)
            && (NonePushing(s) && Quiet(s) ==> Quiet(t))
  {
    hide Step, NonePushing, Quiet, Closed, Number;
    if more != [] {
      ExecStaysClosed(s, more[..|more| - 1]);
      StepStaysClosed(Exec(s, more[..|more| - 1]), more[|more| - 1]);
    }
  }

  /** With every push counted, the count is the backlog less the value being returned. */
  lemma QuietCount(s: State)
    requires CountExact(s) && Quiet(s)
    ensures s.count == 0 <==> Drained(s)
  {
    NumberNone(s.producers, NotYetCounted);
  }

  /** A drained list stays drained: there is nothing for the worker to load. */
  lemma StepStaysDrained(s: State, a: Action)
    requires Struct(s) && Closed(s) && NonePushing(s) && Drained(s)
    ensures Drained(Step(s, a))
  {
    StepStaysClosed(s, a);
    assert MidPop(s.worker) ==> |s.popped| in s.linked;
    if a.LoadNext? && s.worker.Popping? {
      assert Edge(s, |s.popped|);
    }
  }

  lemma {:induction false} ExecStaysDrained(capacity: nat, producerCount: nat, dummy: Addr,
                                            actions: seq<Action>, more: seq<Action>)
    requires producerCount > 0
    requires var s := Exec(Init(capacity, producerCount, dummy), actions);
             Closed(s) && NonePushing(s) && Drained(s)
    ensures Drained(Exec(Exec(Init(capacity, producerCount, dummy), actions), more))
    decreases |more|
  {
    hide Step, NonePushing, Closed, Drained, Struct;
    if more != [] {
      var s0 := Init(capacity, producerCount, dummy);
      var s, init := Exec(s0, actions), more[..|more| - 1];
      ExecStaysDrained(capacity, producerCount, dummy, actions, init);
      ExecStaysClosed(s, init);
      ExecAppend(s0, actions, init);
      ExecInv(capacity, producerCount, dummy, actions + init);
      StepStaysDrained(Exec(s, init), more[|more| - 1]);
    }
  }

  // ---- Drain --------------------------------------------------------------------------------------

  /** Whatever happens next, no value is added and none is left but the one being returned. */
  ghost predicate DrainedForGood(s: State) {
    forall more :: Drained(Exec(s, more)) && Exec(s, more).values == s.values
  }

  /** A Drain that sees a zero count after Quiesce or Stop means what it says exactly when every PushE
      that passed its status check has already counted its value. */
  lemma DrainExact(capacity: nat, producerCount: nat, dummy: Addr, actions: seq<Action>)
    requires producerCount > 0 && capacity > 0
    ensures var s := Exec(Init(capacity, producerCount, dummy), actions);
            Closed(s) && s.count == 0 ==> (DrainedForGood(s) <==> Quiet(s))
  {
    var s := Exec(Init(capacity, producerCount, dummy), actions);
    ExecInv(capacity, producerCount, dummy, actions);
    ExecConstants(Init(capacity, producerCount, dummy), actions);
    if Closed(s) && s.count == 0 {
      if Quiet(s) {
        QuietMeansDrained(capacity, producerCount, dummy, actions);
      } else {
        UnquietMeansMore(s);
      }
    }
  }

  lemma QuietMeansDrained(capacity: nat, producerCount: nat, dummy: Addr, actions: seq<Action>)
    requires producerCount > 0
    requires var s := Exec(Init(capacity, producerCount, dummy), actions);
             Closed(s) && s.count == 0 && Quiet(s)
    ensures DrainedForGood(Exec(Init(capacity, producerCount, dummy), actions))
  {
    var s := Exec(Init(capacity, producerCount, dummy), actions);
    ExecInv(capacity, producerCount, dummy, actions);
    QuietCount(s);
    assert NonePushing(s);
    forall more
      ensures Drained(Exec(s, more)) && Exec(s, more).values == s.values
    {
      ExecStaysClosed(s, more);
      ExecStaysDrained(capacity, producerCount, dummy, actions, more);
    }
  }

  lemma UnquietMeansMore(s: State)
    requires CountExact(s) && s.count == 0 && s.capacity > 0 && !Quiet(s)
    ensures !DrainedForGood(s)
  {
    var p :| 0 <= p < |s.producers| && !s.producers[p].Idle? && !s.producers[p].Counted?;
    if Pushing(s.producers[p]) {
      var more := Land(s, p);
      assert Exec(s, more).values != s.values;
    } else {
      NumberSome(s.producers, NotYetCounted, p);
      assert Exec(s, []) == s;
    }
  }

  lemma {:induction false} NumberSome(ps: seq<Producer>, f: Producer -> bool, p: nat)
    requires p < |ps| && f(ps[p])
    ensures Number(ps, f) > 0
  {
    if p > 0 {
      NumberSome(ps[1..], f, p - 1);
    }
  }

  /** A caller of Quiesce that waits for its PushE calls to return can rely on Drain: then the count is
      zero exactly when nothing is left to pop, and nothing is ever added. */
  lemma DrainAfterJoin(capacity: nat, producerCount: nat, dummy: Addr, actions: seq<Action>, more: seq<Action>)
    requires producerCount > 0
    ensures var s := Exec(Init(capacity, producerCount, dummy), actions);
            Closed(s) && Joined(s) ==>
              && (s.count == 0 <==> Drained(s))
              && Exec(s, more).values == s.values
              && (s.count == 0 ==> Drained(Exec(s, more)))
  {
    var s := Exec(Init(capacity, producerCount, dummy), actions);
    ExecInv(capacity, producerCount, dummy, actions);
    if Closed(s) && Joined(s) {
      assert Quiet(s) && NonePushing(s);
      QuietCount(s);
      ExecStaysClosed(s, more);
      if s.count == 0 {
        ExecStaysDrained(capacity, producerCount, dummy, actions, more);
      }
    }
  }

  /** Without the waiting, a Drain that sees zero misses at most one value per PushE under way, and the
      one the worker is returning. */
  lemma DrainMissesAtMost(capacity: nat, producerCount: nat, dummy: Addr, actions: seq<Action>, more: seq<Action>)
    requires producerCount > 0
    ensures var s := Exec(Init(capacity, producerCount, dummy), actions);
            Closed(s) && s.count == 0 ==>
              |Exec(s, more).values| - |s.popped| <= Number(s.producers, Busy) + Debt(s.worker)
  {
    var s := Exec(Init(capacity, producerCount, dummy), actions);
    ExecInv(capacity, producerCount, dummy, actions);
    if Closed(s) && s.count == 0 {
      ExecStaysClosed(s, more);
      BusyParts(s.producers);
    }
  }

  lemma {:induction false} BusyParts(ps: seq<Producer>)
    ensures Number(ps, Pushing) + Number(ps, NotYetCounted) <= Number(ps, Busy)
  {
    if ps != [] {
      BusyParts(ps[1..]);
    }
  }

  // ---- the worker's exit ------------------------------------------------------------------------------

  ghost predicate ExitAfterStop(s: State) {
    s.exitSent || s.exiting || s.worker.Exited? ==> s.status == Stopped
  }

  lemma StepKeepsExitAfterStop(s: State, a: Action)
    requires ExitAfterStop(s)
    ensures ExitAfterStop(Step(s, a))
  {
    if Actor(a).Some? {
      hide WorkerStep;
    } else {
      hide ProducerStep;
    }
  }

  /** The worker only leaves after Stop. */
  lemma {:induction false} StopPrecedesExit(capacity: nat, producerCount: nat, dummy: Addr, actions: seq<Action>)
    ensures ExitAfterStop(Exec(Init(capacity, producerCount, dummy), actions))
  {
    hide Step;
    if actions != [] {
      StopPrecedesExit(capacity, producerCount, dummy, actions[..|actions| - 1]);
      StepKeepsExitAfterStop(Exec(Init(capacity, producerCount, dummy), actions[..|actions| - 1]), actions[|actions| - 1]);
    }
  }

  lemma StepStaysExited(s: State, a: Action)
    requires s.worker.Exited?
    ensures Step(s, a).worker.Exited? && Step(s, a).popped == s.popped
  {
  }

  lemma {:induction false} ExecStaysExited(s: State, more: seq<Action>)
    requires s.worker.Exited?
    ensures Exec(s, more).worker.Exited? && Exec(s, more).popped == s.popped
  {
    hide Step;
    if more != [] {
      ExecStaysExited(s, more[..|more| - 1]);
      StepStaysExited(Exec(s, more[..|more| - 1]), more[|more| - 1]);
    }
  }

  /** Every value that has been or will be pushed has been popped. */
  ghost predicate NothingLost(s: State) {
    forall more :: Exec(s, more).popped == Exec(s, more).values
  }

  /** Past the status check of PushE, its node not yet reachable from head. */
  predicate Unlinked(pc: Producer) {
    Pushing(pc) || pc.Swapped?
  }

  ghost predicate NoneUnlinked(s: State) {
    forall p :: 0 <= p < |s.producers| ==> !Unlinked(s.producers[p])
  }

  /** The worker's exit loses no value exactly when, at that moment, every PushE that has passed its
      status check has linked its node. */
  lemma ExitExact(capacity: nat, producerCount: nat, dummy: Addr, actions: seq<Action>)
    requires producerCount > 0 && capacity > 0
    ensures var s := Exec(Init(capacity, producerCount, dummy), actions);
            var e := Step(s, LoadNext);
            !s.worker.Exited? && e.worker.Exited? ==> (NothingLost(e) <==> NoneUnlinked(e))
  {
    var s0 := Init(capacity, producerCount, dummy);
    var s := Exec(s0, actions);
    var e := Step(s, LoadNext);
    if !s.worker.Exited? && e.worker.Exited? {
      ExecInv(capacity, producerCount, dummy, actions);
      StopPrecedesExit(capacity, producerCount, dummy, actions);
      ExecConstants(s0, actions);
      StructAfterStep(s, LoadNext);
      if NoneUnlinked(e) {
        ExitedEmpty(s);
        LinkedMeansKept(e);
      } else {
        UnlinkedMeansLost(e);
      }
    }
  }

  lemma ExitedEmpty(s: State)
    requires Struct(s) && s.worker.Popping? && Step(s, LoadNext).worker.Exited? && NoneUnlinked(s)
    ensures s.popped == s.values
  {
    AllLinked(s);
    assert Edge(s, |s.popped|);
  }

  lemma AllLinked(s: State)
    requires Struct(s) && NoneUnlinked(s)
    ensures forall i :: 0 <= i < |s.values| ==> i in s.linked
  {
    forall i | 0 <= i < |s.values|
      ensures i in s.linked
    {
      assert Owned(s, i);
    }
  }

  lemma LinkedMeansKept(e: State)
    requires e.worker.Exited? && Closed(e) && NoneUnlinked(e) && e.popped == e.values
    ensures NothingLost(e)
  {
    assert NonePushing(e);
    forall more
      ensures Exec(e, more).popped == Exec(e, more).values
    {
      ExecStaysClosed(e, more);
      ExecStaysExited(e, more);
    }
  }

  lemma UnlinkedMeansLost(e: State)
    requires Struct(e) && CountExact(e) && e.worker.Exited? && e.capacity > 0 && !NoneUnlinked(e)
    ensures !NothingLost(e)
  {
    var p :| 0 <= p < |e.producers| && Unlinked(e.producers[p]);
    assert Exec(e, []) == e;
    if e.producers[p].Swapped? {
      assert Owns(e, p);
      assert e.producers[p].pos !in e.linked;
    } else if e.popped == e.values {
      var more := Land(e, p);
      ExecStaysExited(e, more);
      assert Exec(e, more).popped != Exec(e, more).values;
    }
  }

  /** Afterwards the count tells: with no PushE under way, it is zero exactly when nothing was lost. */
  lemma ExitedCount(capacity: nat, producerCount: nat, dummy: Addr, actions: seq<Action>)
    requires producerCount > 0
    ensures var s := Exec(Init(capacity, producerCount, dummy), actions);
            s.worker.Exited? && Joined(s) ==> (s.popped == s.values <==> s.count == 0)
  {
    var s := Exec(Init(capacity, producerCount, dummy), actions);
    ExecInv(capacity, producerCount, dummy, actions);
    if s.worker.Exited? && Joined(s) {
      assert Quiet(s);
      QuietCount(s);
    }
  }

  // ---- runs that show it -------------------------------------------------------------------------------

  /** A producer that has passed both checks and built its node. */
  lemma NodeBuilt() returns (actions: seq<Action>)
    ensures var s := Exec(Init(1, 1, 0), actions);
            && s.producers == [Allocated(1, 7)] && s.values == [] && s.popped == [] && s.count == 0
            && s.worker == Waiting && s.status == Run && s.head == 0 && s.tail == 0
            && 0 in s.nodes && 1 in s.nodes && s.nodes[0].next == None
  {
    var s0 := Init(1, 1, 0);
    var a1, a2, a3 := CheckStatus(0, 7), CheckCount(0), Allocate(0, 1);
    var s1 := Step(s0, a1);
    assert s1.producers == [Running(7)];
    var s2 := Step(s1, a2);
    assert s2.producers == [Admitted(7)];
    var s3 := Step(s2, a3);
    assert s3.producers == [Allocated(1, 7)];
    hide Step, Exec;
    ExecMore(s0, [], a1);
    ExecMore(s0, [a1], a2);
    ExecMore(s0, [a1] + [a2], a3);
    assert [] + [a1] == [a1];
    actions := [a1] + [a2] + [a3];
  }

  /** Drain after Quiesce sees zero and returns while a push that was accepted before still adds its
      value. */
  lemma DrainCanMissAValue()
    ensures exists actions :: var s := Exec(Init(1, 1, 0), actions);
                              s.status == Quiescing && s.count == 0 && s.popped < s.values
  {
    var before := NodeBuilt();
    var s := Exec(Init(1, 1, 0), before);
    var s1 := Step(s, Quiesce);
    var s2 := Step(s1, SwapTail(0));
    assert s2.status == Quiescing && s2.count == 0 && s2.popped < s2.values;
    hide Step, Exec;
    ExecMore(Init(1, 1, 0), before, Quiesce);
    ExecMore(Init(1, 1, 0), before + [Quiesce], SwapTail(0));
  }

  /** The worker leaves while a PushE is between its checks and the tail swap; the push then succeeds,
      every call has returned, and the value is never popped. */
  lemma ExitCanLoseAValue()
    ensures exists actions :: var s := Exec(Init(1, 1, 0), actions);
                              s.worker.Exited? && Joined(s) && s.popped == [] && s.values == [7]
  {
    hide Step, Exec;
    var s0 := Init(1, 1, 0);
    var before := NodeBuilt();
    var leave := LeaveNow(Exec(s0, before));
    ExecAppend(s0, before, leave);
    var push := PushNow(Exec(s0, before + leave));
    ExecAppend(s0, before + leave, push);
    var s := Exec(s0, before + leave + push);
    assert s.worker.Exited? && s.producers == [Idle] && s.values == [7] && s.popped == [];
  }

  lemma LeaveNow(s: State) returns (actions: seq<Action>)
    requires s.worker.Waiting? && s.status != Stopped && s.head in s.nodes && s.nodes[s.head].next.None?
    ensures Exec(s, actions) == s.(status := Stopped, exitSent := false, exiting := true, worker := Exited)
  {
    var s1 := Step(s, Stop);
    var s2 := Step(s1, TakeExit);
    assert Step(s2, LoadNext) == s.(status := Stopped, exitSent := false, exiting := true, worker := Exited);
    hide Step, Exec;
    ExecOne(s, Stop);
    ExecMore(s, [Stop], TakeExit);
    ExecMore(s, [Stop] + [TakeExit], LoadNext);
    actions := [Stop] + [TakeExit] + [LoadNext];
  }

  lemma PushNow(s: State) returns (actions: seq<Action>)
    requires s.producers == [Allocated(1, 7)] && s.tail in s.nodes
    ensures var t := Exec(s, actions);
            t.producers == [Idle] && t.values == s.values + [7] && t.popped == s.popped && t.worker == s.worker
  {
    var s1 := Step(s, SwapTail(0));
    assert s1.producers == [Swapped(s.tail, 1, |s.values|)];
    var s2 := Step(s1, Link(0));
    assert s2.producers == [Linked];
    var s3 := Step(s2, AddCount(0));
    assert s3.producers == [Counted];
    assert Step(s3, Notify(0)).producers == [Idle];
    ExecOne(s, SwapTail(0));
    actions := [SwapTail(0)] + [Link(0)] + [AddCount(0)] + [Notify(0)];
    hide Step, Exec;
    ExecMore(s, [SwapTail(0)], Link(0));
    ExecMore(s, [SwapTail(0)] + [Link(0)], AddCount(0));
    ExecMore(s, [SwapTail(0)] + [Link(0)] + [AddCount(0)], Notify(0));
  }
}
