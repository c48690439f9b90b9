/** The lifecycle states of an application, their store, and Run and Allocate moving it concurrently
    (lib/service/runtime/state.go, lib/service/runtime/app.go). */
module LifecycleState {

  datatype State = Starting | Ready | Allocated | Draining | Stopping | Stopped | Failed

  /** legalTransitions. */
  predicate Legal(from: State, to: State) {
    match from
    case Starting => to in {Ready, Failed, Stopping}
    case Ready => to in {Allocated, Draining, Failed, Stopping}
    case Allocated => to in {Draining, Failed, Stopping}
    case Draining => to in {Stopping, Failed}
    case Stopping => to in {Stopped, Failed}
    case Stopped => false
    case Failed => false
  }

  /** Moves that no observer can veto. */
  predicate ShuttingDown(to: State) {
    to.Draining? || to.Stopping? || to.Stopped? || to.Failed?
  }

  predicate Terminal(s: State) {
    s.Stopped? || s.Failed?
  }

  function ReadyCode(s: State): int {
    if s.Ready? || s.Allocated? then 200 else 503
  }

  function HealthCode(s: State): int {
    if s.Stopping? || Terminal(s) then 503 else 200
  }

  /** The table by target: from where each state can be entered. */
  lemma EnteredFrom(from: State, to: State)
    ensures Legal(from, to) <==>
              match to
              case Starting => false
              case Ready => from == Starting
              case Allocated => from == Ready
              case Draining => from in {Ready, Allocated}
              case Stopping => from in {Starting, Ready, Allocated, Draining}
              case Stopped => from == Stopping
              case Failed => !Terminal(from)
  {
  }

  // ---- paths in the legal graph ----------------------------------------------------------------------

  ghost predicate Path(h: seq<State>) {
    h != [] && h[0] == Starting && forall i {:trigger Moves(h, i)} :: 0 < i < |h| ==> Moves(h, i)
  }

  ghost predicate Moves(h: seq<State>, i: int)
    requires 0 < i < |h|
  {
    Legal(h[i - 1], h[i])
  }

  /** How far a state is along the lifecycle. */
  function Stage(s: State): nat {
    match s
    case Starting => 0
    case Ready => 1
    case Allocated => 2
    case Draining => 3
    case Stopping => 4
    case Stopped => 5
    case Failed => 5
  }

  lemma {:induction false} PathAdvances(h: seq<State>, i: nat, j: nat)
    requires Path(h) && i < j < |h|
    ensures Stage(h[i]) < Stage(h[j])
    decreases j
  {
    assert Moves(h, j);
    if i < j - 1 {
      PathAdvances(h, i, j - 1);
    }
  }

  /** Whatever the run: no state is entered twice, after Draining the application is never ready
      again, an unhealthy one never healthy again, and a terminal state is the last. */
  lemma PathIsOneWay(h: seq<State>, i: nat, j: nat)
    requires Path(h) && i < j < |h|
    ensures h[i] != h[j] && !Terminal(h[i])
    ensures h[i] == Draining ==> ReadyCode(h[j]) == 503
    ensures HealthCode(h[i]) == 503 ==> HealthCode(h[j]) == 503
    ensures |h| <= 6
  {
    PathAdvances(h, i, j);
    PathIsShort(h);
  }

  lemma PathIsShort(h: seq<State>)
    requires Path(h)
    ensures |h| <= 6
  {
    if |h| > 6 {
      PathAdvances(h, 0, 1);
      PathAdvances(h, 1, 2);
      PathAdvances(h, 2, 3);
      PathAdvances(h, 3, 4);
      PathAdvances(h, 4, 5);
      PathAdvances(h, 5, 6);
    }
  }

  lemma PathExtends(h: seq<State>, s: State)
    requires Path(h) && Legal(h[|h| - 1], s)
    ensures Path(h + [s])
  {
    var h' := h + [s];
    forall i | 0 < i < |h'|
      ensures Moves(h', i)
    {
      if i < |h| {
        assert Moves(h, i);
      }
    }
  }

  // ---- the store --------------------------------------------------------------------------------------

  datatype Outcome = Committed | Illegal | Vetoed

  class StateStore {
    var current: State
    /** The states in the order they were committed. */
    var history: seq<State>
    var wasAllocated: bool

    ghost predicate Valid()
      reads this
    {
      && Path(history) && history[|history| - 1] == current
      && (wasAllocated <==> Allocated in history)
    }

    constructor ()
      ensures Valid() && current == Starting && history == [Starting]
    {
      current, history, wasAllocated := Starting, [Starting], false;
    }

    method Apply(to: State)
      requires Valid() && Legal(current, to)
      modifies this
      ensures Valid() && current == to && history == old(history) + [to]
    {
      PathExtends(history, to);
      current := to;
      history := history + [to];
      if to == Allocated {
        wasAllocated := true;
      }
    }

    /** transition. `agrees`: what each observer answers. A shutdown state is committed before the
        observers hear of it, Ready and Allocated only when all of them agree; an observer after the
        first refusal is not asked. */
    method Transition(to: State, agrees: seq<bool>) returns (outcome: Outcome, asked: nat)
      requires Valid()
      modifies this
      ensures Valid()
      ensures outcome == if !Legal(old(current), to) then Illegal
                         else if !ShuttingDown(to) && false in agrees then Vetoed
                         else Committed
      ensures Legal(old(current), to) && (to == Draining || to == Stopping || to == Stopped || to == Failed) ==>
                outcome.Committed? && current == to
      ensures Legal(old(current), to) && (to == Ready || to == Allocated) ==> (outcome.Committed? <==> false !in agrees)
      ensures outcome.Committed? ==> current == to && history == old(history) + [to]
      ensures !outcome.Committed? ==> current == old(current) && history == old(history) && wasAllocated == old(wasAllocated)
      ensures outcome.Illegal? ==> asked == 0
      ensures outcome.Committed? ==> asked == |agrees|
      ensures outcome.Vetoed? ==> 0 < asked <= |agrees| && !agrees[asked - 1] && false !in agrees[..asked - 1]
    {
      asked := 0;
      if !Legal(current, to) {
        return Illegal, 0;
      }
      if ShuttingDown(to) {
        Apply(to);
      }
      while asked < |agrees|
        invariant 0 <= asked <= |agrees|
        invariant Valid() && (!ShuttingDown(to) ==> false !in agrees[..asked] && current == old(current)
                                                    && history == old(history) && wasAllocated == old(wasAllocated))
        invariant ShuttingDown(to) ==> current == to && history == old(history) + [to]
      {
        asked := asked + 1;
        if !agrees[asked - 1] && !ShuttingDown(to) {
          return Vetoed, asked;
        }
        assert agrees[..asked] == agrees[..asked - 1] + [agrees[asked - 1]];
      }
      assert agrees[..asked] == agrees;
      if !ShuttingDown(to) {
        Apply(to);
      }
      return Committed, asked;
    }

    /** App.Allocate with no other transition in between. */
    method Allocate(agrees: seq<bool>) returns (outcome: Outcome)
      requires Valid()
      modifies this
      ensures Valid() && ReadyCode(current) == ReadyCode(old(current))
      ensures outcome.Committed? <==> current == Allocated
      ensures current == if old(current) == Ready && false !in agrees then Allocated else old(current)
    {
      if current == Ready {
        var asked;
        outcome, asked := Transition(Allocated, agrees);
      } else if current == Allocated {
        outcome := Committed;
      } else {
        outcome := Illegal;
      }
    }
  }

  // ---- Run and any number of Allocate calls -----------------------------------------------------------

  /** Where Run is: still starting, refused by a Ready observer, serving, draining, stopping, or done. */
  datatype RunPoint = Booting | Refused | Serving | Quiescing | Halting | Done(ok: bool)

  /** An Allocate call reads the current state and moves it in two separate steps. */
  datatype AllocPoint = Before | SawReady | Returned(outcome: Outcome)

  datatype System = System(current: State, history: seq<State>, run: RunPoint, allocs: seq<AllocPoint>)

  /** `agreed`: all observers of the transition agree to it. */
  datatype Step =
    | FailStart(agreed: bool)
    | EnterReady(agreed: bool)
    | FailRefused(agreed: bool)
    | EnterDraining(agreed: bool)
    | EnterStopping(agreed: bool)
    | End(ok: bool, agreed: bool)
    | ReadState(i: nat)
    | MoveAllocated(i: nat, agreed: bool)

  /** One serialised transition. */
  function Moved(s: System, to: State, agreed: bool): (System, Outcome) {
    if !Legal(s.current, to) then (s, Illegal)
    else if !ShuttingDown(to) && !agreed then (s, Vetoed)
    else (s.(current := to, history := s.history + [to]), Committed)
  }

  predicate Enabled(s: System, step: Step) {
    match step
    case FailStart(_) => s.run.Booting?
    case EnterReady(_) => s.run.Booting?
    case FailRefused(_) => s.run.Refused?
    case EnterDraining(_) => s.run.Serving?
    case EnterStopping(_) => s.run.Quiescing?
    case End(_, _) => s.run.Halting?
    case ReadState(i) => i < |s.allocs| && s.allocs[i].Before?
    case MoveAllocated(i, _) => i < |s.allocs| && s.allocs[i].SawReady?
  }

  /** Run ignores what a shutdown transition returns. */
  function Next(s: System, step: Step): System
    requires Enabled(s, step)
  {
    match step
    case FailStart(agreed) => Moved(s, Failed, agreed).0.(run := Done(false))
    case EnterReady(agreed) =>
      var (s', o) := Moved(s, Ready, agreed);
      s'.(run := if o.Committed? then Serving else Refused)
    case FailRefused(agreed) => Moved(s, Failed, agreed).0.(run := Done(false))
    case EnterDraining(agreed) => Moved(s, Draining, agreed).0.(run := Quiescing)
    case EnterStopping(agreed) => Moved(s, Stopping, agreed).0.(run := Halting)
    case End(ok, agreed) => Moved(s, if ok then Stopped else Failed, agreed).0.(run := Done(ok))
    case ReadState(i) =>
      s.(allocs := s.allocs[i := if s.current.Ready? then SawReady
                                 else Returned(if s.current.Allocated? then Committed else Illegal)])
    case MoveAllocated(i, agreed) =>
      var (s', o) := Moved(s, Allocated, agreed);
      s'.(allocs := s'.allocs[i := Returned(o)])
  }

  /** Where Run is determines the state up to an allocation. */
  predicate Agrees(run: RunPoint, current: State) {
    match run
    case Booting => current.Starting?
    case Refused => current.Starting?
    case Serving => current.Ready? || current.Allocated?
    case Quiescing => current.Draining?
    case Halting => current.Stopping?
    case Done(ok) => current == if ok then Stopped else Failed
  }

  ghost predicate Inv(s: System) {
    && Path(s.history) && s.history[|s.history| - 1] == s.current
    && Agrees(s.run, s.current)
  }

  lemma StepKeepsInv(s: System, step: Step)
    requires Inv(s) && Enabled(s, step)
    ensures Inv(Next(s, step))
    ensures var s' := Next(s, step);
            (s'.current == s.current && s'.history == s.history)
            || (Legal(s.current, s'.current) && s'.history == s.history + [s'.current])
    ensures (step.EnterReady? || step.MoveAllocated?) && !step.agreed ==> Next(s, step).current == s.current
  {
    hide Path;
    var s' := Next(s, step);
    if s'.history != s.history {
      PathExtends(s.history, s'.current);
    }
  }

  ghost predicate Execution(ss: seq<System>, steps: seq<Step>) {
    && |ss| == |steps| + 1
    && ss[0].current == Starting && ss[0].history == [Starting] && ss[0].run == Booting
    && forall i {:trigger StepAt(ss, steps, i)} :: 0 <= i < |steps| ==> StepAt(ss, steps, i)
  }

  ghost predicate StepAt(ss: seq<System>, steps: seq<Step>, i: int)
    requires |ss| == |steps| + 1 && 0 <= i < |steps|
  {
    Enabled(ss[i], steps[i]) && ss[i + 1] == Next(ss[i], steps[i])
  }

  lemma {:induction false} ExecutionInv(ss: seq<System>, steps: seq<Step>, i: nat)
    requires Execution(ss, steps) && i < |ss|
    ensures Inv(ss[i])
    decreases i
  {
    if i > 0 {
      ExecutionInv(ss, steps, i - 1);
      assert StepAt(ss, steps, i - 1);
      StepKeepsInv(ss[i - 1], steps[i - 1]);
    }
  }

  lemma {:induction false} HistoryGrows(ss: seq<System>, steps: seq<Step>, i: nat, j: nat)
    requires Execution(ss, steps) && i <= j < |ss|
    ensures ss[i].history <= ss[j].history
    decreases j
  {
    if i < j {
      HistoryGrows(ss, steps, i, j - 1);
      ExecutionInv(ss, steps, j - 1);
      assert StepAt(ss, steps, j - 1);
      StepKeepsInv(ss[j - 1], steps[j - 1]);
    }
  }

  /** For any interleaving of Run, Allocate calls and observers that refuse any transition: the
      application is ready exactly while Run serves and unhealthy exactly from its stopping on, once
      Draining is committed it is not ready at any later point, a terminal state is final, and Run
      returns without an error exactly in Stopped. */
  lemma NeverReadyAgain(ss: seq<System>, steps: seq<Step>, i: nat, j: nat)
    requires Execution(ss, steps) && i <= j < |ss|
    ensures Draining in ss[i].history ==> ReadyCode(ss[j].current) == 503
    ensures Terminal(ss[i].current) ==> ss[j].current == ss[i].current
    ensures ss[j].run.Done? ==> (ss[j].run.ok <==> ss[j].current == Stopped)
    ensures ReadyCode(ss[j].current) == 200 <==> ss[j].run.Serving?
    ensures HealthCode(ss[j].current) == 503 <==> ss[j].run.Halting? || ss[j].run.Done?
  {
    ExecutionInv(ss, steps, i);
    ExecutionInv(ss, steps, j);
    HistoryGrows(ss, steps, i, j);
    var h := ss[j].history;
    if Draining in ss[i].history {
      var k :| 0 <= k < |ss[i].history| && ss[i].history[k] == Draining;
      assert h[k] == Draining;
      if k < |h| - 1 {
        PathIsOneWay(h, k, |h| - 1);
      }
    }
    if Terminal(ss[i].current) {
      var k := |ss[i].history| - 1;
      assert h[k] == ss[i].current;
      if k < |h| - 1 {
        PathIsOneWay(h, k, |h| - 1);
      }
    }
  }
}
