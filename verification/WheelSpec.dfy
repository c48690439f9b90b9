/** What the time wheel means to its callers: a set of tasks with deadlines. */
module WheelSpec {
  import opened Options
  import opened WheelArithmetic
  import opened WheelState

  /** After `ticks` ticks: the tasks waiting, the removals that still wait for their task, and the
      calls of the job made so far, each with its time. */
  datatype Wheel = Wheel(ticks: nat, live: multiset<Task>, marks: set<int>, fired: multiset<(int, Task)>)

  datatype Op = Add(t: Task) | Remove(key: int) | Tick

  /** One tick fires exactly the waiting tasks whose expiration tick has just passed, and stamps
      them with the new time. */
  ghost predicate Advanced(w: Wheel, w': Wheel, tick: nat)
    requires tick > 0
  {
    && w'.ticks == w.ticks + 1 && w'.marks == w.marks
    && (forall t :: w'.live[t] == if ExpiresIn(t, tick, w.ticks) then 0 else w.live[t])
    && (forall e, t :: w'.fired[(e, t)] ==
          w.fired[(e, t)] + if e == w'.ticks * tick && ExpiresIn(t, tick, w.ticks) then w.live[t] else 0)
  }

  /** The expiration lies in `[k * tick, (k + 1) * tick)`. */
  ghost predicate ExpiresIn(t: Task, tick: nat, k: nat)
    requires tick > 0
  {
    t.expiration / tick == k
  }

  /** A task that has expired is run at once, even when its key was removed before; otherwise an
      earlier removal of its key drops it; otherwise it waits. */
  ghost predicate Scheduled(w: Wheel, w': Wheel, t: Task, tick: nat) {
    if t.expiration <= w.ticks * tick then
      w' == w.(fired := w.fired + multiset{(w.ticks * tick, t)})
    else if t.key.Some? && t.key.value in w.marks then
      w' == w.(marks := w.marks - {t.key.value})
    else
      w' == w.(live := w.live + multiset{t})
  }

  ghost predicate Carries(t: Task, key: int) {
    t.key == Some(key)
  }

  /** Removing the key of a waiting task removes that task; any other key is remembered. */
  ghost predicate Removed(w: Wheel, w': Wheel, key: int) {
    && w'.ticks == w.ticks && w'.fired == w.fired
    && (forall t :: w'.live[t] == if Carries(t, key) then 0 else w.live[t])
    && w'.marks == if exists t :: t in w.live && Carries(t, key) then w.marks else w.marks + {key}
  }

  ghost predicate Step(w: Wheel, op: Op, w': Wheel, tick: nat)
    requires tick > 0
  {
    match op
    case Add(t) => Scheduled(w, w', t, tick)
    case Remove(key) => Removed(w, w', key)
    case Tick => Advanced(w, w', tick)
  }

  /** A run: `ws[i + 1]` is the state after `ops[i]`. */
  ghost predicate Run(ws: seq<Wheel>, ops: seq<Op>, tick: nat)
    requires tick > 0
  {
    |ws| == |ops| + 1 && forall i :: 0 <= i < |ops| ==> Step(ws[i], ops[i], ws[i + 1], tick)
  }

  ghost predicate Touches(op: Op, t: Task) {
    op == Add(t) || (op.Remove? && Carries(t, op.key))
  }

  /** The tick on which a waiting task fires: later than its expiration, by one tick at most. */
  function FireTick(t: Task, tick: nat): (n: int)
    requires tick > 0
    ensures t.expiration < n * tick <= t.expiration + tick
  {
    DivBounds(t.expiration, tick);
    t.expiration / tick + 1
  }

  /** While nothing removes it or adds it again, a waiting task waits until its fire tick and is
      then fired, once. */
  lemma {:induction false} WaitsThenFires(ws: seq<Wheel>, ops: seq<Op>, tick: nat, t: Task, e: int)
    requires tick > 0 && Run(ws, ops, tick)
    requires forall i :: 0 <= i < |ops| ==> !Touches(ops[i], t)
    requires ws[0].live[t] > 0 ==> ws[0].ticks < FireTick(t, tick)
    ensures var last, n := ws[|ops|], FireTick(t, tick);
            && last.live[t] == (if last.ticks >= n then 0 else ws[0].live[t])
            && last.fired[(e, t)] == ws[0].fired[(e, t)] + (if last.ticks >= n && e == n * tick then ws[0].live[t] else 0)
    decreases |ops|
  {
    if |ops| > 0 {
      var m := |ops| - 1;
      WaitsThenFires(ws[..|ops|], ops[..m], tick, t, e);
      assert Step(ws[m], ops[m], ws[|ops|], tick) && !Touches(ops[m], t);
    }
  }

  /** The main promise of the wheel: a task added before it expires, and never removed, is fired
      exactly once, on the first tick strictly after its expiration. */
  lemma FiresExactlyOnce(ws: seq<Wheel>, ops: seq<Op>, tick: nat, t: Task, e: int)
    requires tick > 0 && Run(ws, ops, tick) && |ops| > 0 && ops[0] == Add(t)
    requires t.expiration > ws[0].ticks * tick && t !in ws[0].live
    requires t.key.Some? ==> t.key.value !in ws[0].marks
    requires forall i :: 1 <= i < |ops| ==> !Touches(ops[i], t)
    ensures var last, n := ws[|ops|], FireTick(t, tick);
            && last.fired[(e, t)] == ws[0].fired[(e, t)] + (if last.ticks >= n && e == n * tick then 1 else 0)
            && last.live[t] == (if last.ticks >= n then 0 else 1)
  {
    assert Step(ws[0], ops[0], ws[1], tick);
    var n := FireTick(t, tick);
    if n <= ws[0].ticks {
      MulMonotone(n, ws[0].ticks, tick);
    }
    WaitsThenFires(ws[1..], ops[1..], tick, t, e);
  }

  /** A removed task never fires. */
  lemma RemovedNeverFires(ws: seq<Wheel>, ops: seq<Op>, tick: nat, t: Task, e: int)
    requires tick > 0 && Run(ws, ops, tick) && |ops| > 0 && t.key.Some? && ops[0] == Remove(t.key.value)
    requires forall i :: 1 <= i < |ops| ==> !Touches(ops[i], t)
    ensures ws[|ops|].live[t] == 0 && ws[|ops|].fired[(e, t)] == ws[0].fired[(e, t)]
  {
    assert Step(ws[0], ops[0], ws[1], tick);
    WaitsThenFires(ws[1..], ops[1..], tick, t, e);
  }

  ghost predicate NoneCarries(w: Wheel, key: int) {
    forall t :: t in w.live ==> !Carries(t, key)
  }

  /** A task with this key is added before it expires. */
  ghost predicate AddsInTime(w: Wheel, op: Op, key: int, tick: nat) {
    op.Add? && Carries(op.t, key) && op.t.expiration > w.ticks * tick
  }

  /** A remembered removal waits for the next task with its key that is added in time: neither ticks,
      nor other keys, nor a task that has already expired use it up. */
  lemma {:induction false} MarkWaits(ws: seq<Wheel>, ops: seq<Op>, tick: nat, key: int)
    requires tick > 0 && Run(ws, ops, tick) && key in ws[0].marks && NoneCarries(ws[0], key)
    requires forall i :: 0 <= i < |ops| ==> !AddsInTime(ws[i], ops[i], key, tick)
    ensures key in ws[|ops|].marks && NoneCarries(ws[|ops|], key)
    decreases |ops|
  {
    if |ops| > 0 {
      var m := |ops| - 1;
      MarkWaits(ws[..|ops|], ops[..m], tick, key);
      assert Step(ws[m], ops[m], ws[|ops|], tick) && !AddsInTime(ws[m], ops[m], key, tick);
      MarkWaitsOneStep(ws[m], ops[m], ws[|ops|], tick, key);
    }
  }

  lemma MarkWaitsOneStep(w: Wheel, op: Op, w': Wheel, tick: nat, key: int)
    requires tick > 0 && Step(w, op, w', tick) && key in w.marks && NoneCarries(w, key)
    requires !AddsInTime(w, op, key, tick)
    ensures key in w'.marks && NoneCarries(w', key)
  {
    forall t | t in w'.live
      ensures !Carries(t, key)
    {
      assert t in w.live || op == Add(t);
    }
  }

  /** Removing a key that no waiting task carries, then anything but a timely task with that key, then a
      task with it: the task is silently dropped, and the removal used up, exactly when the task has not
      expired yet. A task that has expired runs, because that branch of schedule does not look at pending
      removals, and the removal goes on waiting for the next. */
  lemma OvertakingRemoval(ws: seq<Wheel>, ops: seq<Op>, tick: nat, t: Task)
    requires tick > 0 && Run(ws, ops, tick) && |ops| >= 2 && t.key.Some?
    requires ops[0] == Remove(t.key.value) && NoneCarries(ws[0], t.key.value) && ops[|ops| - 1] == Add(t)
    requires forall i :: 0 <= i < |ops| - 1 ==> !AddsInTime(ws[i], ops[i], t.key.value, tick)
    ensures var (before, after, key) := (ws[|ops| - 1], ws[|ops|], t.key.value);
            && key in before.marks && NoneCarries(before, key)
            && (after == before.(marks := before.marks - {key}) <==> t.expiration > before.ticks * tick)
            && (after == before.(fired := before.fired + multiset{(before.ticks * tick, t)})
                <==> t.expiration <= before.ticks * tick)
  {
    var n := |ops| - 1;
    assert Step(ws[0], ops[0], ws[1], tick);
    assert forall u :: u in ws[1].live ==> u in ws[0].live;
    MarkWaits(ws[1..|ops|], ops[1..n], tick, t.key.value);
    var before := ws[n];
    assert Step(before, ops[n], ws[n + 1], tick);
    assert |before.fired + multiset{(before.ticks * tick, t)}| == |before.fired| + 1;
  }

  // ---- from the layers to this view -----------------------------------------------------------

  /** A task whose expiration tick is the current one hangs nowhere but in the current slot. */
  lemma DueTaskPosition(ls: seq<Layer>, tick: nat, slotNum: nat, k: nat, t: Task, h: nat, m: nat)
    requires Geometry(ls, tick, slotNum) && Timely(ls, tick, slotNum, k, 0) && ExpiresIn(t, tick, k)
    requires h < |ls| && m < slotNum && t in ls[h].slots[m]
    ensures h == 0 && m == Wrapped(k, slotNum)
  {
    if h > 0 {
      HigherNotDue(ls, tick, slotNum, k, h, m, t);
    } else {
      assert Hits(slotNum, m, t.expiration / tick);
    }
  }

  lemma SlotMateNotDue(ls: seq<Layer>, tick: nat, slotNum: nat, k: nat, t: Task)
    requires Geometry(ls, tick, slotNum) && Timely(ls, tick, slotNum, k, 0) && !ExpiresIn(t, tick, k)
    requires t in ls[0].slots[Wrapped(k, slotNum)]
    ensures t.expiration > (k + 1) * tick
  {
    var a := t.expiration / tick;
    assert Hits(slotNum, Wrapped(k, slotNum), a);
    NextOnSameSlot(slotNum, k, a);
    DivBounds(t.expiration, tick);
    MulMonotone(k + 2, a, tick);
    assert (k + 2) * tick == (k + 1) * tick + tick;
  }

  lemma DueTaskOnlyInSlot(ls: seq<Layer>, tick: nat, slotNum: nat, k: nat, t: Task)
    requires Geometry(ls, tick, slotNum) && Timely(ls, tick, slotNum, k, 0) && ExpiresIn(t, tick, k)
    ensures InLayers(ls)[t] == multiset(ls[0].slots[Wrapped(k, slotNum)])[t]
  {
    forall h, m | 0 <= h < |ls| && 0 <= m < |ls[h].slots| && (h != 0 || m != Wrapped(k, slotNum))
      ensures t !in ls[h].slots[m]
    {
      if t in ls[h].slots[m] {
        DueTaskPosition(ls, tick, slotNum, k, t, h, m);
      }
    }
    InLayersOnlyAt(ls, 0, Wrapped(k, slotNum), t);
  }

  /** The tasks one tick takes out of the lowest layer are exactly the waiting ones whose expiration
      tick has passed, wherever they were scheduled from. */
  lemma AdvanceFires(ls: seq<Layer>, tick: nat, slotNum: nat, k: nat, s: seq<Task>, elapsed: nat, t: Task)
    requires Geometry(ls, tick, slotNum) && Timely(ls, tick, slotNum, k, 0)
    requires s == ls[0].slots[Wrapped(k, slotNum)] && elapsed == (k + 1) * tick
    ensures multiset(Due(s, elapsed))[t] == if ExpiresIn(t, tick, k) then InLayers(ls)[t] else 0
  {
    DueCount(s, elapsed, t);
    if ExpiresIn(t, tick, k) {
      ExpiresBefore(t, tick, k);
      DueTaskOnlyInSlot(ls, tick, slotNum, k, t);
    } else if t in s {
      SlotMateNotDue(ls, tick, slotNum, k, t);
    }
  }

  lemma ExpiresBefore(t: Task, tick: nat, k: nat)
    requires tick > 0 && ExpiresIn(t, tick, k)
    ensures t.expiration < (k + 1) * tick
  {
    DivBounds(t.expiration, tick);
  }

  lemma AdvancedFromDue(w: Wheel, w': Wheel, due: seq<Task>, tick: nat)
    requires tick > 0
    requires forall t :: multiset(due)[t] == if ExpiresIn(t, tick, w.ticks) then w.live[t] else 0
    requires w'.ticks == w.ticks + 1 && w'.marks == w.marks && w'.live == w.live - multiset(due)
    requires w'.fired == w.fired + multiset(Stamped(due, w'.ticks * tick))
    ensures Advanced(w, w', tick)
  {
    forall e, t
      ensures multiset(Stamped(due, w'.ticks * tick))[(e, t)] == if e == w'.ticks * tick then multiset(due)[t] else 0
    {
      StampedCount(due, w'.ticks * tick, e, t);
    }
  }

  /** What TickLayer does to the wheel is what one tick means. */
  lemma AdvancedByTick(w: Wheel, w': Wheel, ls: seq<Layer>, loc: Loc, tick: nat, slotNum: nat, due: seq<Task>)
    requires Sound(ls, loc, tick, slotNum, w.ticks, 0) && w.live == InLayers(ls)
    requires due == Due(ls[0].slots[Wrapped(w.ticks, slotNum)], (w.ticks + 1) * tick)
    requires w'.ticks == w.ticks + 1 && w'.marks == w.marks && w'.live == w.live - multiset(due)
    requires w'.fired == w.fired + multiset(Stamped(due, w'.ticks * tick))
    ensures Advanced(w, w', tick)
  {
    hide InLayers, LocExact, ExpiresIn, Advanced;
    forall t
      ensures multiset(due)[t] == if ExpiresIn(t, tick, w.ticks) then w.live[t] else 0
    {
      AdvanceFires(ls, tick, slotNum, w.ticks, ls[0].slots[Wrapped(w.ticks, slotNum)], (w.ticks + 1) * tick, t);
    }
    AdvancedFromDue(w, w', due, tick);
  }

  /** A task that carries a key of the index is the only one that does. */
  lemma KeyedTaskIsUnique(ls: seq<Layer>, loc: Loc, i: nat, j: nat, n: nat, t: Task)
    requires LocExact(ls, loc) && i < |ls| && j < |ls[i].slots| && n < |ls[i].slots[j]|
    requires ls[i].slots[j][n].key.Some? && t.key == ls[i].slots[j][n].key
    ensures InLayers(ls)[t] == if t == ls[i].slots[j][n] then 1 else 0
  {
    var s := ls[i].slots[j];
    assert SlotIndexed(s, loc, i, j) && DistinctKeys(s);
    forall h, m | 0 <= h < |ls| && 0 <= m < |ls[h].slots| && (h != i || m != j)
      ensures t !in ls[h].slots[m]
    {
      assert SlotIndexed(ls[h].slots[m], loc, h, m);
    }
    InLayersOnlyAt(ls, i, j, t);
    assert s == s[..n] + [s[n]] + s[n + 1..];
    assert t !in s[..n] && t !in s[n + 1..];
  }

  /** Every key of the index belongs to a waiting task. */
  lemma LiveKey(ls: seq<Layer>, loc: Loc, key: int)
    requires LocExact(ls, loc) && key in loc
    ensures exists t :: t in InLayers(ls) && Carries(t, key)
  {
    var (i, j) := loc[key];
    var n :| 0 <= n < |ls[i].slots[j]| && ls[i].slots[j][n].key == Some(key);
    InLayersUpdate(ls, i, j, []);
    assert ls[i].slots[j][n] in InLayers(ls);
  }

  lemma KeyInLayers(ls: seq<Layer>, loc: Loc, t: Task)
    requires LocExact(ls, loc) && t in InLayers(ls)
    ensures t.key.Some? ==> t.key.value in loc
  {
    if forall i, j :: 0 <= i < |ls| && 0 <= j < |ls[i].slots| ==> t !in ls[i].slots[j] {
      InLayersAbsent(ls, t);
      assert false;
    }
    var i, j :| 0 <= i < |ls| && 0 <= j < |ls[i].slots| && t in ls[i].slots[j];
    assert SlotIndexed(ls[i].slots[j], loc, i, j);
  }

  /** Unlinking the task that carries a key removes that key's task and nothing else. */
  lemma RemovedByUnlink(w: Wheel, ls: seq<Layer>, loc: Loc, i: nat, j: nat, n: nat, key: int)
    requires LocExact(ls, loc) && i < |ls| && j < |ls[i].slots| && n < |ls[i].slots[j]|
    requires ls[i].slots[j][n].key == Some(key) && w.live == InLayers(ls)
    ensures Removed(w, w.(live := InLayers(ls) - multiset{ls[i].slots[j][n]}), key)
  {
    var t := ls[i].slots[j][n];
    hide LocExact;
    forall u
      ensures (InLayers(ls) - multiset{t})[u] == if Carries(u, key) then 0 else InLayers(ls)[u]
    {
      if Carries(u, key) {
        KeyedTaskIsUnique(ls, loc, i, j, n, u);
      }
    }
    KeyedTaskIsUnique(ls, loc, i, j, n, t);
    assert t in w.live && Carries(t, key);
  }

  lemma RemovedUnknown(w: Wheel, ls: seq<Layer>, loc: Loc, key: int)
    requires LocExact(ls, loc) && key !in loc && w.live == InLayers(ls)
    ensures Removed(w, w.(marks := w.marks + {key}), key)
  {
    hide LocExact;
    forall t | t in w.live
      ensures !Carries(t, key)
    {
      KeyInLayers(ls, loc, t);
    }
  }
}
