/** Where every task handed to the time wheel ends up, and which removals are still pending
    (lib/util/timer/timewheel.go). */
module WheelAccount {
  import opened Options
  import opened WheelSpec
  import opened WheelState

  // ---- counting calls ------------------------------------------------------------------------------------

  /** How often the job was called for `t`, at whatever times. */
  ghost function Calls(fired: multiset<(int, Task)>, t: Task): nat
    decreases |fired|
  {
    if Called(fired, t) then
      var e := SomeTime(fired, t);
      LessWithout(fired, (e, t));
      fired[(e, t)] + Calls(fired[(e, t) := 0], t)
    else 0
  }

  ghost predicate Called(fired: multiset<(int, Task)>, t: Task) {
    exists e :: (e, t) in fired
  }

  ghost function SomeTime(fired: multiset<(int, Task)>, t: Task): (e: int)
    requires Called(fired, t)
    ensures (e, t) in fired
  {
    var e :| (e, t) in fired;
    e
  }

  lemma LessWithout(fired: multiset<(int, Task)>, p: (int, Task))
    requires p in fired
    ensures |fired[p := 0]| < |fired|
  {
    assert fired == fired[p := 0] + multiset{}[p := fired[p]];
  }

  /** The calls at one time can be counted apart. */
  lemma {:induction false} CallsAt(fired: multiset<(int, Task)>, t: Task, e: int)
    ensures Calls(fired, t) == fired[(e, t)] + Calls(fired[(e, t) := 0], t)
    decreases |fired|
  {
    if Called(fired, t) {
      var x := SomeTime(fired, t);
      if x != e {
        LessWithout(fired, (x, t));
        CallsAt(fired[(x, t) := 0], t, e);
        if (e, t) in fired {
          LessWithout(fired, (e, t));
          CallsAt(fired[(e, t) := 0], t, x);
        }
        assert fired[(x, t) := 0][(e, t) := 0] == fired[(e, t) := 0][(x, t) := 0];
        assert (e, t) !in fired ==> fired[(e, t) := 0] == fired;
      }
    } else {
      assert fired[(e, t) := 0] == fired;
    }
  }

  lemma {:induction false} SameCalls(f: multiset<(int, Task)>, g: multiset<(int, Task)>, t: Task)
    requires forall e :: f[(e, t)] == g[(e, t)]
    ensures Calls(f, t) == Calls(g, t)
    decreases |f|
  {
    if Called(f, t) {
      var x := SomeTime(f, t);
      LessWithout(f, (x, t));
      CallsAt(g, t, x);
      SameCalls(f[(x, t) := 0], g[(x, t) := 0], t);
    } else {
      assert forall e :: g[(e, t)] == 0;
      assert !Called(g, t);
    }
  }

  lemma MoreCalls(f: multiset<(int, Task)>, g: multiset<(int, Task)>, t: Task, now: int, n: nat)
    requires forall e :: g[(e, t)] == f[(e, t)] + if e == now then n else 0
    ensures Calls(g, t) == Calls(f, t) + n
  {
    CallsAt(f, t, now);
    CallsAt(g, t, now);
    SameCalls(f[(now, t) := 0], g[(now, t) := 0], t);
  }

  // ---- the account of a run -------------------------------------------------------------------------------

  function Added(ops: seq<Op>, t: Task): nat {
    if ops == [] then 0 else Added(ops[..|ops| - 1], t) + if ops[|ops| - 1] == Add(t) then 1 else 0
  }

  /** The task is added before it expires, and a removal of its key is pending. */
  ghost predicate DroppedBy(w: Wheel, op: Op, t: Task, tick: nat) {
    op == Add(t) && t.expiration > w.ticks * tick && t.key.Some? && t.key.value in w.marks
  }

  ghost function Dropped(ws: seq<Wheel>, ops: seq<Op>, t: Task, tick: nat): nat
    requires |ws| == |ops| + 1
    decreases |ops|
  {
    if ops == [] then 0
    else
      var n := |ops| - 1;
      Dropped(ws[..|ops|], ops[..n], t, tick) + if DroppedBy(ws[n], ops[n], t, tick) then 1 else 0
  }

  /** How many copies a step removes by their key. */
  ghost function TakenBy(w: Wheel, op: Op, t: Task): nat {
    if op.Remove? && Carries(t, op.key) then w.live[t] else 0
  }

  ghost function Taken(ws: seq<Wheel>, ops: seq<Op>, t: Task): nat
    requires |ws| == |ops| + 1
    decreases |ops|
  {
    if ops == [] then 0
    else
      var n := |ops| - 1;
      Taken(ws[..|ops|], ops[..n], t) + TakenBy(ws[n], ops[n], t)
  }

  lemma StepAccounted(w: Wheel, op: Op, w': Wheel, tick: nat, t: Task)
    requires tick > 0 && Step(w, op, w', tick)
    ensures w'.live[t] + Calls(w'.fired, t) + TakenBy(w, op, t) + (if DroppedBy(w, op, t, tick) then 1 else 0)
            == w.live[t] + Calls(w.fired, t) + if op == Add(t) then 1 else 0
  {
    match op
    case Add(u) => MoreCalls(w.fired, w'.fired, t, w.ticks * tick,
                             if u == t && t.expiration <= w.ticks * tick then 1 else 0);
    case Remove(_) =>
    case Tick => MoreCalls(w.fired, w'.fired, t, w'.ticks * tick, if ExpiresIn(t, tick, w.ticks) then w.live[t] else 0);
  }

  /** In every run each copy of a task that is added is found once: it waits, or the job was called for
      it, or it was removed while it waited, or it was added in time while a removal of its key was
      pending. */
  lemma {:induction false} Accounted(ws: seq<Wheel>, ops: seq<Op>, tick: nat, t: Task)
    requires tick > 0 && Run(ws, ops, tick)
    ensures ws[|ops|].live[t] + Calls(ws[|ops|].fired, t) + Taken(ws, ops, t) + Dropped(ws, ops, t, tick)
            == ws[0].live[t] + Calls(ws[0].fired, t) + Added(ops, t)
    decreases |ops|
  {
    hide Step, Calls;
    if |ops| > 0 {
      var n := |ops| - 1;
      Accounted(ws[..|ops|], ops[..n], tick, t);
      StepAccounted(ws[n], ops[n], ws[|ops|], tick, t);
    }
  }

  ghost predicate NewWheel(w: Wheel) {
    w.live == multiset{} && w.marks == {} && w.fired == multiset{}
  }

  lemma {:induction false} NoneRemoved(ws: seq<Wheel>, ops: seq<Op>, tick: nat, t: Task)
    requires tick > 0 && Run(ws, ops, tick) && ws[0].marks == {} && forall i :: 0 <= i < |ops| ==> !ops[i].Remove?
    ensures ws[|ops|].marks == {} && Taken(ws, ops, t) == 0 && Dropped(ws, ops, t, tick) == 0
    decreases |ops|
  {
    if |ops| > 0 {
      var n := |ops| - 1;
      NoneRemoved(ws[..|ops|], ops[..n], tick, t);
      assert Step(ws[n], ops[n], ws[|ops|], tick);
    }
  }

  /** When nothing is removed, a new wheel keeps or fires exactly what it is given. */
  lemma NothingLost(ws: seq<Wheel>, ops: seq<Op>, tick: nat, t: Task)
    requires tick > 0 && Run(ws, ops, tick) && NewWheel(ws[0]) && forall i :: 0 <= i < |ops| ==> !ops[i].Remove?
    ensures ws[|ops|].live[t] + Calls(ws[|ops|].fired, t) == Added(ops, t)
  {
    Accounted(ws, ops, tick, t);
    NoneRemoved(ws, ops, tick, t);
  }

  /** A task added when it has already expired is run at once, whatever its key and whatever removals
      are pending, and nothing else changes; if it is not added again it never runs a second time. */
  lemma ExpiredRunsAtOnce(ws: seq<Wheel>, ops: seq<Op>, tick: nat, t: Task, e: int)
    requires tick > 0 && Run(ws, ops, tick) && |ops| > 0 && ops[0] == Add(t)
    requires t.expiration <= ws[0].ticks * tick && t !in ws[0].live
    requires forall i :: 1 <= i < |ops| ==> !Touches(ops[i], t)
    ensures var now := ws[0].ticks * tick;
            && ws[1] == ws[0].(fired := ws[0].fired + multiset{(now, t)})
            && ws[|ops|].live[t] == 0
            && ws[|ops|].fired[(e, t)] == ws[0].fired[(e, t)] + if e == now then 1 else 0
  {
    assert Step(ws[0], ops[0], ws[1], tick);
    WaitsThenFires(ws[1..], ops[1..], tick, t, e);
  }

  // ---- which removals are pending ---------------------------------------------------------------------------

  /** By its history: the key was removed when no task carried it, and no task with it has been added in
      time since. */
  ghost predicate Pending(ws: seq<Wheel>, ops: seq<Op>, tick: nat, key: int)
    requires |ws| == |ops| + 1
    decreases |ops|
  {
    && ops != []
    && var n := |ops| - 1;
       if AddsInTime(ws[n], ops[n], key, tick) then false
       else (ops[n] == Remove(key) && NoneCarries(ws[n], key)) || Pending(ws[..|ops|], ops[..n], tick, key)
  }

  /** A key is marked exactly while a removal of it is pending, and then no waiting task carries it. */
  lemma {:induction false} MarksExact(ws: seq<Wheel>, ops: seq<Op>, tick: nat, key: int)
    requires tick > 0 && Run(ws, ops, tick) && NewWheel(ws[0])
    ensures key in ws[|ops|].marks <==> Pending(ws, ops, tick, key)
    ensures key in ws[|ops|].marks ==> NoneCarries(ws[|ops|], key)
    decreases |ops|
  {
    if |ops| > 0 {
      var n := |ops| - 1;
      MarksExact(ws[..|ops|], ops[..n], tick, key);
      assert Step(ws[n], ops[n], ws[|ops|], tick);
      MarkStep(ws[n], ops[n], ws[|ops|], tick, key);
    }
  }

  lemma MarkStep(w: Wheel, op: Op, w': Wheel, tick: nat, key: int)
    requires tick > 0 && Step(w, op, w', tick) && (key in w.marks ==> NoneCarries(w, key))
    ensures key in w'.marks <==> !AddsInTime(w, op, key, tick)
                                 && ((op == Remove(key) && NoneCarries(w, key)) || key in w.marks)
    ensures key in w'.marks ==> NoneCarries(w', key)
  {
    forall t | t in w'.live
      ensures t in w.live || op == Add(t)
    {
    }
  }
}
