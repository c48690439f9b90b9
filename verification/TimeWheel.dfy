/** The hierarchical time wheel as its scheduling goroutine drives it: schedule, advance and
    removeByKey over the slot lists (lib/util/timer/timewheel.go). */
module Timer {
  import opened Options
  import opened WheelArithmetic
  import opened WheelState
  import opened WheelSpec

  class TimeWheel {
    const tickInterval: nat
    const slotNum: nat
    var layers: seq<Layer>
    // key -> (layer, slot) of the task that carries it
    var loc: Loc
    // keys whose removal arrived before their task
    var cancelled: set<int>
    var elapsed: nat
    // every call of the job: the time it was made and the task it was made for
    var fired: seq<(int, Task)>
    ghost var ticks: nat

    ghost predicate Valid()
      reads this
    {
      && Sound(layers, loc, tickInterval, slotNum, ticks, 0)
      && elapsed == ticks * tickInterval
      && cancelled !! loc.Keys
    }

    /** What a caller can observe: the tasks still to come, the pending removals and the calls made. */
    ghost function Abs(): Wheel
      reads this
    {
      Wheel(ticks, InLayers(layers), cancelled, multiset(fired))
    }

    constructor (tick: nat, slots: nat, layerCount: nat)
      requires tick > 0 && slots >= 2 && layerCount > 0
      ensures Valid() && tickInterval == tick && slotNum == slots && |layers| == layerCount
      ensures Abs() == Wheel(0, multiset{}, {}, multiset{})
    {
      tickInterval, slotNum := tick, slots;
      loc, cancelled, elapsed, fired, ticks := map[], {}, 0, [], 0;
      layers := [];
      new;
      BuildLayers(layerCount);
      EmptyWheelSound(layers, tickInterval, slotNum);
      EmptyWheelHoldsNothing(layers);
    }

    method BuildLayers(layerCount: nat)
      requires tickInterval > 0 && slotNum >= 2 && layerCount > 0 && layers == []
      modifies this`layers
      ensures |layers| == layerCount && Geometry(layers, tickInterval, slotNum)
      ensures forall i :: 0 <= i < |layers| ==> EmptyLayer(layers[i])
    {
      var perSlot := tickInterval;
      for i := 0 to layerCount
        invariant |layers| == i && perSlot > 0
        invariant perSlot == if i == 0 then tickInterval else layers[i - 1].capacity
        invariant i > 0 ==> Geometry(layers, tickInterval, slotNum)
        invariant forall h :: 0 <= h < i ==> EmptyLayer(layers[h])
      {
        MulMonotone(1, perSlot, slotNum);
        var l := Layer(seq(slotNum, _ => []), perSlot, perSlot * slotNum, 0);
        layers := layers + [l];
        perSlot := l.capacity;
      }
    }

    /** Moves time on by one tick. */
    method Advance(delta: nat)
      requires Valid() && delta == tickInterval
      modifies this
      ensures Valid() && ticks == old(ticks) + 1
      ensures Advanced(old(Abs()), Abs(), tickInterval)
    {
      hide Sound, Ticking, InLayers, Advanced, Due, Stamped;
      ghost var w, before, loc0 := Abs(), layers, loc;
      StartTick(layers, loc, tickInterval, slotNum, ticks);
      TickingShape(layers, loc, tickInterval, slotNum, ticks + 1, 0);
      elapsed := elapsed + delta;
      ticks := ticks + 1;
      TickLayer(0);
      AdvancedByTick(w, Abs(), before, loc0, tickInterval, slotNum, Due(CurrentSlot(before, 0), elapsed));
    }

    /** Runs the slot layer `idx` points at, moves the pointer on and, when it wraps, moves the next
        layer and spreads that layer's new slot over the layers below it. */
    method TickLayer(idx: nat)
      requires Ticking(layers, loc, tickInterval, slotNum, ticks, idx) && cancelled !! loc.Keys
      requires elapsed == ticks * tickInterval
      modifies this`layers, this`loc, this`cancelled, this`fired
      decreases |layers| - idx, 1
      ensures |layers| == old(|layers|) && Sound(layers, loc, tickInterval, slotNum, ticks, idx)
      ensures AtBoundary(layers[idx], tickInterval, ticks, Turns(ticks, slotNum, idx))
      ensures cancelled == old(cancelled) && cancelled !! loc.Keys
      ensures var due := Due(old(CurrentSlot(layers, idx)), elapsed);
              InLayers(layers) == old(InLayers(layers)) - multiset(due) && fired == old(fired) + Stamped(due, elapsed)
      ensures idx > 0 ==> fired == old(fired) && InLayers(layers) == old(InLayers(layers))
    {
      hide Sound, Ticking, InLayers, AtBoundary, Due, NotDue, LocExact, Stamped;
      ghost var before, loc0 := layers, loc;
      TickingShape(layers, loc, tickInterval, slotNum, ticks, idx);
      RunSlot(idx, layers[idx].curPos);
      TickRun(before, loc0, loc, tickInterval, slotNum, ticks, idx);
      ContentsAfterRun(before, idx, before[idx].curPos, elapsed);
      MovePointer(idx);
      BoundaryStays(before, layers, loc0, loc, tickInterval, slotNum, ticks, idx);
    }

    /** The second half of a tick of layer `idx`. */
    method MovePointer(idx: nat)
      requires Ticking(layers, loc, tickInterval, slotNum, ticks, idx) && cancelled !! loc.Keys
      requires elapsed == ticks * tickInterval && layers[idx].curPos < |layers[idx].slots|
      requires idx == 0 ==> forall t :: t in CurrentSlot(layers, 0) ==> t.expiration > elapsed
      modifies this`layers, this`loc, this`cancelled, this`fired
      decreases |layers| - idx, 0
      ensures |layers| == old(|layers|) && Sound(layers, loc, tickInterval, slotNum, ticks, idx)
      ensures cancelled == old(cancelled) && cancelled !! loc.Keys
      ensures fired == old(fired) && InLayers(layers) == old(InLayers(layers))
    {
      hide Sound, Ticking, InLayers, AtBoundary, Due, NotDue, LocExact, Stamped;
      TickingShape(layers, loc, tickInterval, slotNum, ticks, idx);
      ghost var ran := layers;
      layers := WithPointer(layers, idx, layers[idx].curPos + 1);
      if layers[idx].curPos >= slotNum {
        layers := WithPointer(layers, idx, 0);
        ContentsAfterMove(ran, idx, 0);
        assert layers == WithPointer(ran, idx, 0);
        if idx + 1 < |layers| {
          MoveWithWrap(ran, loc, tickInterval, slotNum, ticks, idx);
          TickLayer(idx + 1);
          CascadeDown(idx + 1);
        } else {
          MoveLastLayer(ran, loc, tickInterval, slotNum, ticks, idx);
        }
      } else {
        ContentsAfterMove(ran, idx, layers[idx].curPos);
        MoveWithoutWrap(ran, loc, tickInterval, slotNum, ticks, idx);
      }
    }

    /** Runs the tasks of one slot that have expired and keeps the others. */
    method RunSlot(idx: nat, slotIdx: nat)
      requires idx < |layers| && slotIdx < |layers[idx].slots| && LocExact(layers, loc)
      modifies this`layers, this`loc, this`cancelled, this`fired
      ensures layers == old(WithSlot(layers, idx, slotIdx, NotDue(layers[idx].slots[slotIdx], elapsed)))
      ensures LocExact(layers, loc) && loc.Keys <= old(loc.Keys) && cancelled <= old(cancelled)
      ensures old(cancelled !! loc.Keys) ==>
                && cancelled == old(cancelled)
                && fired == old(fired) + Stamped(Due(old(layers[idx].slots[slotIdx]), elapsed), elapsed)
    {
      hide LocExact;
      ghost var slot, seen := layers[idx].slots[slotIdx], 0;
      var n := 0;
      ghost var ls := layers;
      WithSlotSame(ls, idx, slotIdx);
      assert NotDue(slot[..seen], elapsed) + slot[seen..] == slot;
      assert Stamped(Due(slot[..seen], elapsed), elapsed) == [];
      hide Due, NotDue, Stamped, RemoveAt;
      while n < |layers[idx].slots[slotIdx]|
        invariant seen <= |slot| && n == |NotDue(slot[..seen], elapsed)|
        invariant layers == WithSlot(ls, idx, slotIdx, NotDue(slot[..seen], elapsed) + slot[seen..])
        invariant LocExact(layers, loc) && loc.Keys <= old(loc.Keys) && cancelled <= old(cancelled)
        invariant old(cancelled !! loc.Keys) ==>
                    cancelled == old(cancelled) && fired == old(fired) + Stamped(Due(slot[..seen], elapsed), elapsed)
        decreases |slot| - seen
      {
        var t := layers[idx].slots[slotIdx][n];
        DueStep(slot, elapsed, seen);
        RunStep(ls, layers, loc, idx, slotIdx, slot, seen, elapsed);
        seen := seen + 1;
        if t.expiration <= elapsed {
          layers := WithSlot(layers, idx, slotIdx, RemoveAt(layers[idx].slots[slotIdx], n));
          loc := Forget(loc, t.key);
          if t.key.Some? && t.key.value in cancelled {
            cancelled := cancelled - {t.key.value};
            continue;
          }
          Exec(t);
        } else {
          n := n + 1;
        }
      }
      assert slot[..seen] == slot && NotDue(slot, elapsed) + slot[seen..] == NotDue(slot, elapsed);
    }

    /** Spreads the tasks of the slot layer `idx` has just reached over the layers below it. */
    method CascadeDown(idx: nat)
      requires 0 < idx < |layers| && Sound(layers, loc, tickInterval, slotNum, ticks, idx)
      requires elapsed == ticks * tickInterval && AtBoundary(layers[idx], tickInterval, ticks, Turns(ticks, slotNum, idx))
      modifies this`layers, this`loc, this`cancelled
      ensures |layers| == old(|layers|) && Sound(layers, loc, tickInterval, slotNum, ticks, idx - 1)
      ensures loc.Keys <= old(loc.Keys) && cancelled <= old(cancelled)
      ensures old(cancelled !! loc.Keys) ==> cancelled == old(cancelled) && InLayers(layers) == old(InLayers(layers))
    {
      hide Sound, InLayers, AtBoundary, Geometry;
      SoundShape(layers, loc, tickInterval, slotNum, ticks, idx, idx);
      var pos := layers[idx].curPos;
      var pending := layers[idx].slots[pos];
      // the wheel as it would be with the tasks still pending in their old slot
      ghost var whole := layers;
      PendingReached(layers, loc, tickInterval, slotNum, ticks, idx);
      layers := WithSlot(layers, idx, pos, []);
      for n := 0 to |pending|
        invariant |whole| == old(|layers|) && Sound(whole, loc, tickInterval, slotNum, ticks, idx)
        invariant pos < |whole[idx].slots| && whole[idx].curPos == pos && whole[idx].slots[pos] == pending[n..]
        invariant layers == WithSlot(whole, idx, pos, [])
        invariant loc.Keys <= old(loc.Keys) && cancelled <= old(cancelled)
        invariant old(cancelled !! loc.Keys) ==> cancelled == old(cancelled) && InLayers(whole) == old(InLayers(layers))
      {
        var t := pending[n];
        CascadeTake(whole, loc, tickInterval, slotNum, ticks, idx, pos);
        ghost var keys := loc.Keys;
        loc := Forget(loc, t.key);
        assert pending[n..][1..] == pending[n + 1..];
        ghost var taken := WithSlot(whole, idx, pos, pending[n + 1..]);
        WithSlotTwice(whole, idx, pos, pending[n + 1..], []);
        if t.key.Some? && t.key.value in cancelled {
          cancelled := cancelled - {t.key.value};
          whole := taken;
          continue;
        }
        CascadePut(taken, layers, loc, tickInterval, slotNum, ticks, idx, pos, t);
        ghost var c, p := ScheduleIn(t, idx - 1);
        CascadeContents(whole, idx, pos, c, p);
        whole := WithSlot(taken, c, p, taken[c].slots[p] + [t]);
      }
      WithSlotSame(whole, idx, pos);
      CascadeDone(layers, loc, tickInterval, slotNum, ticks, idx);
    }

    /** Accepts a new task. A task that carries a key must carry one no waiting task has. */
    method Schedule(t: Task)
      requires Valid()
      requires t.key.Some? ==> forall u :: u in Abs().live ==> !Carries(u, t.key.value)
      modifies this
      ensures Valid() && ticks == old(ticks)
      ensures Scheduled(old(Abs()), Abs(), t, tickInterval)
    {
      hide Sound, InLayers, Geometry;
      var remaining := t.expiration - elapsed;
      if remaining <= 0 {
        Exec(t);
        return;
      }
      SoundLoc(layers, loc, tickInterval, slotNum, ticks, 0);
      hide LocExact;
      if Indexed(t, loc) {
        LiveKey(layers, loc, t.key.value);
      }
      HangNew(layers, loc, tickInterval, slotNum, ticks, t);
      ghost var ls := layers;
      ghost var c, p := ScheduleIn(t, |layers| - 1);
      ContentsAfterAdd(ls, c, p, t);
    }

    /** Hangs a task into the first of the layers `0..maxIdx` that spans its remaining delay. */
    method ScheduleIn(t: Task, maxIdx: nat) returns (ghost c: nat, ghost pos: nat)
      requires Geometry(layers, tickInterval, slotNum) && maxIdx < |layers|
      modifies this`layers, this`loc, this`cancelled
      ensures c == ChosenLayer(old(layers), 0, maxIdx, Remaining(t, elapsed))
      ensures old(layers)[c].perSlot > 0 && pos == SlotAhead(old(layers)[c], Remaining(t, elapsed))
      ensures if t.key.Some? && t.key.value in old(cancelled) then
                cancelled == old(cancelled) - {t.key.value} && layers == old(layers) && loc == old(loc)
              else
                && cancelled == old(cancelled) && loc == Remember(old(loc), t.key, c, pos)
                && layers == WithSlot(old(layers), c, pos, old(layers)[c].slots[pos] + [t])
    {
      hide Spans, SlotAhead;
      c := ChosenLayer(layers, 0, maxIdx, Remaining(t, elapsed));
      pos := SlotAhead(layers[c], Remaining(t, elapsed));
      if t.key.Some? && t.key.value in cancelled {
        cancelled := cancelled - {t.key.value};
        return;
      }
      var remaining := t.expiration - elapsed;
      if remaining < 0 {
        remaining := 0;
      }
      var chosen := 0;
      var i := 0;
      while i <= maxIdx
        invariant i <= maxIdx + 1
        invariant i <= maxIdx ==> c == ChosenLayer(layers, i, maxIdx, remaining)
        invariant i > maxIdx ==> c == chosen
      {
        chosen := i;
        if layers[i].capacity > remaining {
          break;
        }
        i := i + 1;
      }
      var at := SlotAhead(layers[chosen], remaining);
      layers := WithSlot(layers, chosen, at, layers[chosen].slots[at] + [t]);
      if t.key.Some? {
        loc := loc[t.key.value := (chosen, at)];
      }
    }

    /** Takes the task with this key out of its slot, or remembers the key when there is none. */
    method RemoveByKey(key: int)
      requires Valid()
      modifies this
      ensures Valid() && ticks == old(ticks)
      ensures Removed(old(Abs()), Abs(), key)
    {
      hide Sound, InLayers, Geometry, Removed;
      ghost var w, ls, loc0 := Abs(), layers, loc;
      assert LocExact(layers, loc) by { SoundLoc(layers, loc, tickInterval, slotNum, ticks, 0); }
      cancelled := cancelled + {key};
      if key !in loc {
        RemovedUnknown(w, ls, loc0, key);
        return;
      }
      var (i, j) := loc[key];
      loc := loc - {key};
      var n := 0;
      while n < |layers[i].slots[j]|
        invariant layers == ls && loc == loc0 - {key} && cancelled == w.marks + {key}
        invariant 0 <= n <= |layers[i].slots[j]|
        invariant forall m :: 0 <= m < n ==> layers[i].slots[j][m].key != Some(key)
      {
        if layers[i].slots[j][n].key == Some(key) {
          UnhangKeepsSound(ls, loc0, tickInterval, slotNum, ticks, 0, i, j, n);
          ContentsAfterRemove(ls, i, j, n);
          RemovedByUnlink(w, ls, loc0, i, j, n, key);
          layers := WithSlot(layers, i, j, RemoveAt(layers[i].slots[j], n));
          cancelled := cancelled - {key};
          return;
        }
        n := n + 1;
      }
      assert false;
    }

    method Exec(t: Task)
      modifies this`fired
      ensures fired == old(fired) + [(elapsed, t)]
    {
      fired := fired + [(elapsed, t)];
    }
  }
}
