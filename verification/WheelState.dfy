/** The state of the hierarchical time wheel and the invariant that ties every task's slot to its
    expiration (lib/util/timer/timewheel.go). Durations and expirations count in the same unit. */
module WheelState {
  import opened Options
  import opened WheelArithmetic

  datatype Task = Task(expiration: int, key: Option<int>, data: int)

  datatype Layer = Layer(slots: seq<seq<Task>>, perSlot: nat, capacity: nat, curPos: nat)

  type Loc = map<int, (int, int)>

  /** Every layer has `slotNum` slots, and one slot of a layer spans the whole layer below it. */
  ghost predicate Geometry(ls: seq<Layer>, tick: nat, slotNum: nat) {
    && |ls| > 0 && tick > 0 && slotNum >= 2 && ls[0].perSlot == tick
    && (forall i :: 0 <= i < |ls| ==>
          |ls[i].slots| == slotNum && ls[i].perSlot > 0 && Spans(ls[i], slotNum))
    && (forall i, h :: 0 <= i < |ls| && 0 <= h < |ls| && h == i + 1 ==> ls[h].perSlot == ls[i].capacity)
  }

  ghost predicate Spans(l: Layer, slotNum: nat) {
    l.capacity == l.perSlot * slotNum
  }

  function WithSlot(ls: seq<Layer>, i: nat, j: nat, s: seq<Task>): (r: seq<Layer>)
    requires i < |ls| && j < |ls[i].slots|
  {
    ls[i := ls[i].(slots := ls[i].slots[j := s])]
  }

  lemma WithSlotSame(ls: seq<Layer>, i: nat, j: nat)
    requires i < |ls| && j < |ls[i].slots|
    ensures WithSlot(ls, i, j, ls[i].slots[j]) == ls
  {
    assert ls[i].slots[j := ls[i].slots[j]] == ls[i].slots;
  }

  lemma WithSlotTwice(ls: seq<Layer>, i: nat, j: nat, s: seq<Task>, s': seq<Task>)
    requires i < |ls| && j < |ls[i].slots|
    ensures WithSlot(WithSlot(ls, i, j, s), i, j, s') == WithSlot(ls, i, j, s')
  {
    assert ls[i].slots[j := s][j := s'] == ls[i].slots[j := s'];
  }

  // ---- contents -------------------------------------------------------------------------------

  ghost function InSlots(slots: seq<seq<Task>>): multiset<Task> {
    if slots == [] then multiset{} else multiset(slots[0]) + InSlots(slots[1..])
  }

  /** All tasks hanging in the wheel. */
  ghost function InLayers(ls: seq<Layer>): multiset<Task> {
    if ls == [] then multiset{} else InSlots(ls[0].slots) + InLayers(ls[1..])
  }

  lemma AddFront(front: multiset<Task>, all: multiset<Task>, part: multiset<Task>, part': multiset<Task>)
    requires part <= all
    ensures part <= front + all && front + (all - part + part') == front + all - part + part'
  {
  }

  lemma {:induction false} InSlotsUpdate(slots: seq<seq<Task>>, j: nat, s: seq<Task>)
    requires j < |slots|
    ensures multiset(slots[j]) <= InSlots(slots)
    ensures InSlots(slots[j := s]) == InSlots(slots) - multiset(slots[j]) + multiset(s)
  {
    if j > 0 {
      assert slots[j := s][1..] == slots[1..][j - 1 := s];
      InSlotsUpdate(slots[1..], j - 1, s);
      assert slots[1..][j - 1] == slots[j];
      AddFront(multiset(slots[0]), InSlots(slots[1..]), multiset(slots[j]), multiset(s));
    } else {
      assert slots[j := s][1..] == slots[1..];
    }
  }

  lemma {:induction false} InLayersUpdate(ls: seq<Layer>, i: nat, j: nat, s: seq<Task>)
    requires i < |ls| && j < |ls[i].slots|
    ensures multiset(ls[i].slots[j]) <= InLayers(ls)
    ensures InLayers(WithSlot(ls, i, j, s)) == InLayers(ls) - multiset(ls[i].slots[j]) + multiset(s)
  {
    hide InSlots;
    var ls' := WithSlot(ls, i, j, s);
    if i > 0 {
      assert ls'[1..] == WithSlot(ls[1..], i - 1, j, s);
      InLayersUpdate(ls[1..], i - 1, j, s);
      assert ls[1..][i - 1] == ls[i];
      AddFront(InSlots(ls[0].slots), InLayers(ls[1..]), multiset(ls[i].slots[j]), multiset(s));
    } else {
      assert ls'[1..] == ls[1..];
      InSlotsUpdate(ls[0].slots, j, s);
    }
  }

  lemma {:induction false} InSlotsAbsent(slots: seq<seq<Task>>, t: Task)
    requires forall j :: 0 <= j < |slots| ==> t !in slots[j]
    ensures InSlots(slots)[t] == 0
  {
    if slots != [] {
      assert t !in slots[0];
      InSlotsAbsent(slots[1..], t);
    }
  }

  lemma {:induction false} InLayersAbsent(ls: seq<Layer>, t: Task)
    requires forall i, j :: 0 <= i < |ls| && 0 <= j < |ls[i].slots| ==> t !in ls[i].slots[j]
    ensures InLayers(ls)[t] == 0
  {
    if ls != [] {
      InSlotsAbsent(ls[0].slots, t);
      assert forall i :: 0 <= i < |ls[1..]| ==> ls[1..][i] == ls[i + 1];
      InLayersAbsent(ls[1..], t);
    }
  }

  /** A task that can only hang in one slot occurs in the wheel as often as in that slot. */
  lemma InLayersOnlyAt(ls: seq<Layer>, i: nat, j: nat, t: Task)
    requires i < |ls| && j < |ls[i].slots|
    requires forall h, m :: 0 <= h < |ls| && 0 <= m < |ls[h].slots| && (h != i || m != j) ==> t !in ls[h].slots[m]
    ensures InLayers(ls)[t] == multiset(ls[i].slots[j])[t]
  {
    InLayersUpdate(ls, i, j, []);
    InLayersAbsent(WithSlot(ls, i, j, []), t);
  }

  // ---- the key index --------------------------------------------------------------------------

  /** `loc` holds exactly the keys of the tasks in the wheel, each with its only position. */
  ghost predicate LocExact(ls: seq<Layer>, loc: Loc) {
    AllIndexed(ls, loc) && AllPresent(ls, loc) && AllDistinct(ls)
  }

  ghost predicate AllIndexed(ls: seq<Layer>, loc: Loc) {
    forall i, j :: 0 <= i < |ls| && 0 <= j < |ls[i].slots| ==> SlotIndexed(ls[i].slots[j], loc, i, j)
  }

  ghost predicate SlotIndexed(s: seq<Task>, loc: Loc, i: int, j: int) {
    forall n :: 0 <= n < |s| && s[n].key.Some? ==> s[n].key.value in loc && loc[s[n].key.value] == (i, j)
  }

  ghost predicate AllPresent(ls: seq<Layer>, loc: Loc) {
    forall key :: key in loc ==>
      0 <= loc[key].0 < |ls| && 0 <= loc[key].1 < |ls[loc[key].0].slots|
      && HasKey(ls[loc[key].0].slots[loc[key].1], key)
  }

  ghost predicate HasKey(s: seq<Task>, key: int) {
    exists n :: 0 <= n < |s| && s[n].key == Some(key)
  }

  ghost predicate AllDistinct(ls: seq<Layer>) {
    forall i, j :: 0 <= i < |ls| && 0 <= j < |ls[i].slots| ==> DistinctKeys(ls[i].slots[j])
  }

  ghost predicate DistinctKeys(s: seq<Task>) {
    forall n, m :: 0 <= n < m < |s| && s[n].key.Some? ==> s[n].key != s[m].key
  }

  function RemoveAt(s: seq<Task>, n: nat): seq<Task>
    requires n < |s|
  {
    s[..n] + s[n + 1..]
  }

  function Forget(loc: Loc, key: Option<int>): Loc {
    if key.Some? then loc - {key.value} else loc
  }

  function Remember(loc: Loc, key: Option<int>, i: nat, j: nat): Loc {
    if key.Some? then loc[key.value := (i, j)] else loc
  }

  lemma SlotAfterRemove(s: seq<Task>, loc: Loc, i: nat, j: nat, n: nat)
    requires n < |s| && SlotIndexed(s, loc, i, j) && DistinctKeys(s)
    ensures SlotIndexed(RemoveAt(s, n), Forget(loc, s[n].key), i, j) && DistinctKeys(RemoveAt(s, n))
    ensures forall k :: HasKey(s, k) && s[n].key != Some(k) ==> HasKey(RemoveAt(s, n), k)
  {
    var s' := RemoveAt(s, n);
    forall k | HasKey(s, k) && s[n].key != Some(k)
      ensures HasKey(s', k)
    {
      var x :| 0 <= x < |s| && s[x].key == Some(k);
      assert s'[if x > n then x - 1 else x].key == Some(k);
    }
  }

  lemma OtherSlotForget(s: seq<Task>, loc: Loc, h: nat, m: nat, key: Option<int>, i: nat, j: nat)
    requires SlotIndexed(s, loc, h, m) && (h != i || m != j)
    requires key.Some? ==> key.value in loc && loc[key.value] == (i, j)
    ensures SlotIndexed(s, Forget(loc, key), h, m)
  {
  }

  lemma OtherSlotRemember(s: seq<Task>, loc: Loc, h: nat, m: nat, key: Option<int>, i: nat, j: nat)
    requires SlotIndexed(s, loc, h, m) && (key.Some? ==> key.value !in loc)
    ensures SlotIndexed(s, Remember(loc, key, i, j), h, m)
  {
  }

  /** Taking one task out of a slot, and its key out of the index, keeps the index exact. */
  lemma LocAfterRemove(ls: seq<Layer>, loc: Loc, i: nat, j: nat, n: nat)
    requires LocExact(ls, loc) && i < |ls| && j < |ls[i].slots| && n < |ls[i].slots[j]|
    ensures LocExact(WithSlot(ls, i, j, RemoveAt(ls[i].slots[j], n)), Forget(loc, ls[i].slots[j][n].key))
  {
    var s, key := ls[i].slots[j], ls[i].slots[j][n].key;
    var ls', loc' := WithSlot(ls, i, j, RemoveAt(s, n)), Forget(loc, key);
    SlotAfterRemove(s, loc, i, j, n);
    assert key.Some? ==> key.value in loc && loc[key.value] == (i, j);
    hide DistinctKeys, HasKey, RemoveAt, SlotIndexed;
    forall h, m | 0 <= h < |ls'| && 0 <= m < |ls'[h].slots|
      ensures SlotIndexed(ls'[h].slots[m], loc', h, m) && DistinctKeys(ls'[h].slots[m])
    {
      if h != i || m != j {
        OtherSlotForget(ls[h].slots[m], loc, h, m, key, i, j);
      }
    }
    assert AllPresent(ls', loc');
  }

  lemma RemoveAtCounts(s: seq<Task>, n: nat)
    requires n < |s|
    ensures multiset(s) == multiset(RemoveAt(s, n)) + multiset{s[n]}
  {
    assert s == s[..n] + [s[n]] + s[n + 1..];
  }

  lemma SwapPart(all: multiset<Task>, part: multiset<Task>, part': multiset<Task>, t: Task)
    requires part <= all && part == part' + multiset{t}
    ensures all - part + part' == all - multiset{t} && t in all
  {
  }

  lemma ContentsAfterRemove(ls: seq<Layer>, i: nat, j: nat, n: nat)
    requires i < |ls| && j < |ls[i].slots| && n < |ls[i].slots[j]|
    ensures ls[i].slots[j][n] in InLayers(ls)
    ensures InLayers(WithSlot(ls, i, j, RemoveAt(ls[i].slots[j], n))) == InLayers(ls) - multiset{ls[i].slots[j][n]}
  {
    hide InLayers, RemoveAt, WithSlot;
    var s := ls[i].slots[j];
    InLayersUpdate(ls, i, j, RemoveAt(s, n));
    RemoveAtCounts(s, n);
    SwapPart(InLayers(ls), multiset(s), multiset(RemoveAt(s, n)), s[n]);
  }

  lemma SlotAfterAdd(s: seq<Task>, loc: Loc, i: nat, j: nat, t: Task)
    requires SlotIndexed(s, loc, i, j) && DistinctKeys(s)
    requires t.key.Some? ==> t.key.value !in loc
    ensures SlotIndexed(s + [t], Remember(loc, t.key, i, j), i, j) && DistinctKeys(s + [t])
    ensures forall k :: HasKey(s, k) || t.key == Some(k) ==> HasKey(s + [t], k)
  {
    forall k | HasKey(s, k) || t.key == Some(k)
      ensures HasKey(s + [t], k)
    {
      if HasKey(s, k) {
        var x :| 0 <= x < |s| && s[x].key == Some(k);
        assert (s + [t])[x].key == Some(k);
      } else {
        assert (s + [t])[|s|].key == Some(k);
      }
    }
  }

  /** Appending a task with a new key to a slot, and indexing it, keeps the index exact. */
  lemma LocAfterAdd(ls: seq<Layer>, loc: Loc, i: nat, j: nat, t: Task)
    requires LocExact(ls, loc) && i < |ls| && j < |ls[i].slots|
    requires t.key.Some? ==> t.key.value !in loc
    ensures LocExact(WithSlot(ls, i, j, ls[i].slots[j] + [t]), Remember(loc, t.key, i, j))
  {
    var s := ls[i].slots[j];
    var ls', loc' := WithSlot(ls, i, j, s + [t]), Remember(loc, t.key, i, j);
    SlotAfterAdd(s, loc, i, j, t);
    hide DistinctKeys, HasKey, SlotIndexed;
    forall h, m | 0 <= h < |ls'| && 0 <= m < |ls'[h].slots|
      ensures SlotIndexed(ls'[h].slots[m], loc', h, m) && DistinctKeys(ls'[h].slots[m])
    {
      if h != i || m != j {
        OtherSlotRemember(ls[h].slots[m], loc, h, m, t.key, i, j);
      }
    }
    assert AllPresent(ls', loc');
  }

  lemma ContentsAfterAdd(ls: seq<Layer>, i: nat, j: nat, t: Task)
    requires i < |ls| && j < |ls[i].slots|
    ensures InLayers(WithSlot(ls, i, j, ls[i].slots[j] + [t])) == InLayers(ls) + multiset{t}
  {
    InLayersUpdate(ls, i, j, ls[i].slots[j] + [t]);
    assert multiset(ls[i].slots[j] + [t]) == multiset(ls[i].slots[j]) + multiset{t};
  }

  // ---- timing ---------------------------------------------------------------------------------

  ghost predicate Hits(slotNum: nat, j: nat, a: int)
    requires slotNum > 0
  {
    a % slotNum == j
  }

  /** The layer stands on slot `j` at some move number `a >= b` that is not later than `x`. */
  ghost predicate VisitedBy(slotNum: nat, b: int, j: nat, perSlot: nat, x: int)
    requires slotNum > 0
  {
    exists a :: b <= a && Hits(slotNum, j, a) && a * perSlot <= x
  }

  /** Every task of the layer is reached, from move `b` on, no later than it expires. */
  ghost predicate OnTime(l: Layer, slotNum: nat, b: int)
    requires slotNum > 0 && |l.slots| == slotNum
  {
    forall j, t :: 0 <= j < slotNum && t in l.slots[j] ==> VisitedBy(slotNum, b, j, l.perSlot, t.expiration)
  }

  /** The lowest layer holds each task in the slot of its own expiration tick, which is not past. */
  ghost predicate AtOwnTick(l: Layer, slotNum: nat, tick: nat, k: nat)
    requires slotNum > 0 && |l.slots| == slotNum && tick > 0
  {
    forall j, t :: 0 <= j < slotNum && t in l.slots[j] ==> t.expiration / tick >= k && Hits(slotNum, j, t.expiration / tick)
  }

  /** After `k` ticks, with the slots that layers `1..m` point at still to be cascaded. */
  ghost predicate Timely(ls: seq<Layer>, tick: nat, slotNum: nat, k: nat, m: nat)
    requires Geometry(ls, tick, slotNum)
  {
    && AtOwnTick(ls[0], slotNum, tick, k)
    && forall i :: 0 < i < |ls| ==> OnTime(ls[i], slotNum, Turns(k, slotNum, i) + if i > m then 1 else 0)
  }

  ghost predicate Pointers(ls: seq<Layer>, slotNum: nat, k: nat)
    requires slotNum > 0
  {
    forall i :: 0 <= i < |ls| ==> ls[i].curPos == Wrapped(Turns(k, slotNum, i), slotNum)
  }

  /** Layer `i` has moved `elapsed / perSlot` times, rounded down. */
  lemma {:induction false} TurnsCountSlots(ls: seq<Layer>, tick: nat, slotNum: nat, k: nat, i: nat)
    requires Geometry(ls, tick, slotNum) && i < |ls|
    ensures Turns(k, slotNum, i) == k * tick / ls[i].perSlot
    ensures Turns(k, slotNum, i) * ls[i].perSlot <= k * tick < (Turns(k, slotNum, i) + 1) * ls[i].perSlot
  {
    if i == 0 {
      assert (k + 1) * tick == k * tick + tick;
    } else {
      TurnsCountSlots(ls, tick, slotNum, k, i - 1);
      CoarserSteps(Turns(k, slotNum, i - 1), ls[i - 1].perSlot, slotNum, k * tick);
    }
    DivUnique(k * tick, ls[i].perSlot, Turns(k, slotNum, i));
  }

  /** What scheduleIn's layer scan picks: the first layer up to `maxIdx` that spans `remaining`,
      else layer `maxIdx`. */
  ghost function ChosenLayer(ls: seq<Layer>, i: nat, maxIdx: nat, remaining: nat): (c: nat)
    requires i <= maxIdx < |ls|
    ensures i <= c <= maxIdx
    decreases maxIdx - i
  {
    if ls[i].capacity > remaining || i == maxIdx then i else ChosenLayer(ls, i + 1, maxIdx, remaining)
  }

  /** The slot of layer `l` that lies `remaining` ahead of its pointer. */
  function SlotAhead(l: Layer, remaining: nat): (pos: nat)
    requires l.perSlot > 0 && |l.slots| > 0
    ensures pos < |l.slots|
  {
    (l.curPos + remaining / l.perSlot) % |l.slots|
  }

  lemma {:induction false} ChosenLayerExceedsLower(ls: seq<Layer>, i: nat, maxIdx: nat, remaining: nat)
    requires i <= maxIdx < |ls|
    ensures var c := ChosenLayer(ls, i, maxIdx, remaining); c > i ==> ls[c - 1].capacity <= remaining
    decreases maxIdx - i
  {
    if ls[i].capacity > remaining || i == maxIdx {
    } else {
      ChosenLayerExceedsLower(ls, i + 1, maxIdx, remaining);
    }
  }

  /** Slot `pos` of layer `i` is a right place, after `k` ticks, for a task that expires at `x`. */
  ghost predicate FitsSlot(l: Layer, tick: nat, slotNum: nat, k: nat, i: nat, pos: nat, x: int)
    requires slotNum > 0 && tick > 0
  {
    if i == 0 then x / tick >= k && Hits(slotNum, pos, x / tick)
    else VisitedBy(slotNum, Turns(k, slotNum, i) + 1, pos, l.perSlot, x)
  }

  /** How far ahead of `elapsed` a task lies, never less than nothing. */
  function Remaining(t: Task, elapsed: int): nat {
    if t.expiration < elapsed then 0 else t.expiration - elapsed
  }

  /** The slot scheduleIn computes is right for its layer, whatever the delay, even one beyond
      the capacity of the highest layer allowed. */
  lemma PlacedOnTime(ls: seq<Layer>, tick: nat, slotNum: nat, k: nat, maxIdx: nat, x: int)
    requires Geometry(ls, tick, slotNum) && Pointers(ls, slotNum, k) && maxIdx < |ls| && x >= k * tick
    ensures var c := ChosenLayer(ls, 0, maxIdx, x - k * tick);
            FitsSlot(ls[c], tick, slotNum, k, c, SlotAhead(ls[c], x - k * tick), x)
  {
    var remaining: nat := x - k * tick;
    var c := ChosenLayer(ls, 0, maxIdx, remaining);
    if c == 0 {
      DivExactAdd(k, tick, remaining);
      ModAdd(slotNum, k, remaining / tick);
    } else {
      ChosenLayerExceedsLower(ls, 0, maxIdx, remaining);
      TurnsCountSlots(ls, tick, slotNum, k, c);
      PlacedVisit(slotNum, Turns(k, slotNum, c), ls[c].perSlot, k * tick, remaining);
    }
  }

  lemma PlacedVisit(slotNum: nat, turns: nat, p: nat, elapsed: nat, remaining: nat)
    requires slotNum > 0 && 0 < p <= remaining && turns * p <= elapsed
    ensures VisitedBy(slotNum, turns + 1, (turns % slotNum + remaining / p) % slotNum, p, elapsed + remaining)
  {
    var moves: nat := remaining / p;
    ModAdd(slotNum, turns, moves);
    DivBounds(remaining, p);
    DivExactAdd(1, p, remaining - p);
    assert (turns + moves) * p == turns * p + moves * p;
    assert Hits(slotNum, (turns % slotNum + moves) % slotNum, turns + moves);
  }

  /** No task above the lowest layer expires before the next tick. */
  lemma HigherNotDue(ls: seq<Layer>, tick: nat, slotNum: nat, k: nat, i: nat, j: nat, t: Task)
    requires Geometry(ls, tick, slotNum) && Timely(ls, tick, slotNum, k, 0)
    requires 0 < i < |ls| && j < slotNum && t in ls[i].slots[j]
    ensures t.expiration / tick > k
  {
    var turns, p := Turns(k, slotNum, i), ls[i].perSlot;
    assert VisitedBy(slotNum, turns + 1, j, p, t.expiration);
    var a :| turns + 1 <= a && Hits(slotNum, j, a) && a * p <= t.expiration;
    TurnsCountSlots(ls, tick, slotNum, k, i);
    PerSlotIsMultiple(ls, tick, slotNum, i);
    var q: nat :| p == q * tick;
    VisitedAfterTick(k, tick, turns, p, q, a, t.expiration);
  }

  lemma VisitedAfterTick(k: nat, tick: nat, turns: nat, p: nat, q: nat, a: nat, x: int)
    requires tick > 0 && p == q * tick && k * tick < (turns + 1) * p
    requires turns + 1 <= a && a * p <= x
    ensures x / tick > k
  {
    MulMonotone(turns + 1, a, p);
    MulAssoc(turns + 1, q, tick);
    LessFromProducts(k, (turns + 1) * q, tick);
    DivAtLeast(x, tick, (turns + 1) * q);
  }

  lemma {:induction false} PerSlotIsMultiple(ls: seq<Layer>, tick: nat, slotNum: nat, i: nat)
    requires Geometry(ls, tick, slotNum) && i < |ls|
    ensures exists q: nat :: ls[i].perSlot == q * tick
  {
    if i == 0 {
      assert ls[i].perSlot == 1 * tick;
    } else {
      PerSlotIsMultiple(ls, tick, slotNum, i - 1);
      var q: nat :| ls[i - 1].perSlot == q * tick;
      assert ls[i].perSlot == (q * slotNum) * tick;
    }
  }

  lemma NextOnSameSlot(slotNum: nat, c: nat, a: int)
    requires slotNum >= 2 && c + 1 <= a && Hits(slotNum, Wrapped(c, slotNum), a)
    ensures c + 2 <= a
  {
    DivStep(slotNum, c);
  }

  /** The slot a higher layer leaves holds nothing that has expired by its next move. */
  lemma LeftSlotNotDue(l: Layer, slotNum: nat, c: nat, elapsed: int)
    requires slotNum >= 2 && |l.slots| == slotNum && l.perSlot > 0
    requires OnTime(l, slotNum, c + 1) && elapsed == (c + 1) * l.perSlot
    ensures forall t :: t in l.slots[Wrapped(c, slotNum)] ==> t.expiration > elapsed
  {
    forall t | t in l.slots[Wrapped(c, slotNum)]
      ensures t.expiration > elapsed
    {
      assert VisitedBy(slotNum, c + 1, Wrapped(c, slotNum), l.perSlot, t.expiration);
      NextVisitLater(slotNum, c, l.perSlot, t.expiration);
    }
  }

  lemma NextVisitLater(slotNum: nat, c: nat, perSlot: nat, x: int)
    requires slotNum >= 2 && perSlot > 0 && VisitedBy(slotNum, c + 1, Wrapped(c, slotNum), perSlot, x)
    ensures x > (c + 1) * perSlot
  {
    var a :| c + 1 <= a && Hits(slotNum, Wrapped(c, slotNum), a) && a * perSlot <= x;
    NextOnSameSlot(slotNum, c, a);
    MulMonotone(c + 2, a, perSlot);
    assert (c + 2) * perSlot == (c + 1) * perSlot + perSlot;
  }

  /** Once the slot a layer points at is empty, the next visit of every task is a later one. */
  lemma CascadedOnTime(l: Layer, slotNum: nat, c: nat)
    requires slotNum > 0 && |l.slots| == slotNum && OnTime(l, slotNum, c) && l.slots[Wrapped(c, slotNum)] == []
    ensures OnTime(l, slotNum, c + 1)
  {
    forall j, t | 0 <= j < slotNum && t in l.slots[j]
      ensures VisitedBy(slotNum, c + 1, j, l.perSlot, t.expiration)
    {
      assert VisitedBy(slotNum, c, j, l.perSlot, t.expiration);
      var a :| c <= a && Hits(slotNum, j, a) && a * l.perSlot <= t.expiration;
      assert c + 1 <= a;
    }
  }

  lemma ReachedNow(l: Layer, slotNum: nat, b: nat, j: nat, t: Task)
    requires slotNum > 0 && |l.slots| == slotNum && OnTime(l, slotNum, b) && j < slotNum && t in l.slots[j]
    ensures t.expiration >= b * l.perSlot
  {
    assert VisitedBy(slotNum, b, j, l.perSlot, t.expiration);
    var a :| b <= a && Hits(slotNum, j, a) && a * l.perSlot <= t.expiration;
    MulMonotone(b, a, l.perSlot);
  }

  /** Replacing a slot by some of its own tasks keeps every task on time. */
  lemma TimelyAfterShrink(ls: seq<Layer>, tick: nat, slotNum: nat, k: nat, m: nat, i: nat, j: nat, s: seq<Task>)
    requires Geometry(ls, tick, slotNum) && Timely(ls, tick, slotNum, k, m) && i < |ls| && j < slotNum
    requires forall t :: t in s ==> t in ls[i].slots[j]
    ensures Geometry(WithSlot(ls, i, j, s), tick, slotNum) && Timely(WithSlot(ls, i, j, s), tick, slotNum, k, m)
  {
    if i > 0 {
      OnTimeAfterUpdate(ls[i], slotNum, Turns(k, slotNum, i) + if i > m then 1 else 0, j, s);
    }
  }

  lemma OnTimeAfterUpdate(l: Layer, slotNum: nat, b: int, j: nat, s: seq<Task>)
    requires slotNum > 0 && |l.slots| == slotNum && OnTime(l, slotNum, b) && j < slotNum
    requires forall t :: t in s ==> t in l.slots[j] || VisitedBy(slotNum, b, j, l.perSlot, t.expiration)
    ensures OnTime(l.(slots := l.slots[j := s]), slotNum, b)
  {
  }

  /** Appending a task to the slot scheduleIn computes keeps every task on time. */
  lemma TimelyAfterAdd(ls: seq<Layer>, tick: nat, slotNum: nat, k: nat, m: nat, i: nat, j: nat, t: Task)
    requires Geometry(ls, tick, slotNum) && Timely(ls, tick, slotNum, k, m) && i < |ls| && j < slotNum
    requires FitsSlot(ls[i], tick, slotNum, k, i, j, t.expiration)
    ensures Geometry(WithSlot(ls, i, j, ls[i].slots[j] + [t]), tick, slotNum)
    ensures Timely(WithSlot(ls, i, j, ls[i].slots[j] + [t]), tick, slotNum, k, m)
  {
    if i > 0 {
      var b := Turns(k, slotNum, i) + if i > m then 1 else 0;
      assert VisitedBy(slotNum, b, j, ls[i].perSlot, t.expiration) by {
        var a :| Turns(k, slotNum, i) + 1 <= a && Hits(slotNum, j, a) && a * ls[i].perSlot <= t.expiration;
      }
      OnTimeAfterUpdate(ls[i], slotNum, b, j, ls[i].slots[j] + [t]);
    }
  }

  // ---- the invariant and its steps --------------------------------------------------------------

  /** The wheel after `k` ticks; the slots layers `1..m` point at may still have to be cascaded. */
  ghost predicate Sound(ls: seq<Layer>, loc: Loc, tick: nat, slotNum: nat, k: nat, m: nat) {
    && Geometry(ls, tick, slotNum) && Pointers(ls, slotNum, k)
    && Timely(ls, tick, slotNum, k, m) && LocExact(ls, loc)
  }

  /** The wheel while tick `k` is being made: the layers below `idx` have moved and wrapped, layer
      `idx` is the next to move, and layer `idx` is reached exactly at a boundary of its slots. */
  ghost predicate Ticking(ls: seq<Layer>, loc: Loc, tick: nat, slotNum: nat, k: nat, idx: nat) {
    && Geometry(ls, tick, slotNum) && idx < |ls| && k > 0 && LocExact(ls, loc)
    && AtBoundary(ls[idx], tick, k, Turns(k, slotNum, idx))
    && (forall i :: 0 <= i <= idx ==> Turns(k, slotNum, i) == Turns(k - 1, slotNum, i) + 1)
    && (forall i :: 0 <= i < idx ==> ls[i].curPos == Wrapped(Turns(k, slotNum, i), slotNum))
    && (forall i :: idx <= i < |ls| ==> ls[i].curPos == Wrapped(Turns(k - 1, slotNum, i), slotNum))
    && (forall i :: 0 < i < |ls| ==> OnTime(ls[i], slotNum, Turns(k - 1, slotNum, i) + 1))
    && AtOwnTick(ls[0], slotNum, tick, if idx == 0 then k - 1 else k)
  }

  /** Time `k * tick` is where slot number `turns` of the layer begins. */
  ghost predicate AtBoundary(l: Layer, tick: nat, k: nat, turns: nat) {
    k * tick == turns * l.perSlot
  }

  /** Where the pointer of layer `i` stands, in terms of the time that has passed. */
  lemma PointerPosition(ls: seq<Layer>, loc: Loc, tick: nat, slotNum: nat, k: nat, m: nat, i: nat)
    requires Sound(ls, loc, tick, slotNum, k, m) && i < |ls|
    ensures ls[i].curPos == (k * tick / ls[i].perSlot) % slotNum
  {
    TurnsCountSlots(ls, tick, slotNum, k, i);
  }

  function WithPointer(ls: seq<Layer>, i: nat, pos: nat): seq<Layer>
    requires i < |ls|
  {
    ls[i := ls[i].(curPos := pos)]
  }

  lemma SoundShape(ls: seq<Layer>, loc: Loc, tick: nat, slotNum: nat, k: nat, m: nat, i: nat)
    requires Sound(ls, loc, tick, slotNum, k, m) && i < |ls|
    ensures |ls[i].slots| == slotNum && ls[i].curPos < slotNum
  {
  }

  lemma SoundLoc(ls: seq<Layer>, loc: Loc, tick: nat, slotNum: nat, k: nat, m: nat)
    requires Sound(ls, loc, tick, slotNum, k, m)
    ensures LocExact(ls, loc) && Geometry(ls, tick, slotNum)
  {
  }

  lemma TickingShape(ls: seq<Layer>, loc: Loc, tick: nat, slotNum: nat, k: nat, idx: nat)
    requires Ticking(ls, loc, tick, slotNum, k, idx)
    ensures idx < |ls| && |ls[idx].slots| == slotNum && ls[idx].curPos < slotNum && LocExact(ls, loc)
  {
  }

  predicate EmptyLayer(l: Layer) {
    l.curPos == 0 && forall j :: 0 <= j < |l.slots| ==> l.slots[j] == []
  }

  lemma EmptyWheelSound(ls: seq<Layer>, tick: nat, slotNum: nat)
    requires Geometry(ls, tick, slotNum) && forall i :: 0 <= i < |ls| ==> EmptyLayer(ls[i])
    ensures Sound(ls, map[], tick, slotNum, 0, 0)
  {
    forall i | 0 <= i < |ls|
      ensures Turns(0, slotNum, i) == 0
    {
      TurnsOfZero(slotNum, i);
    }
  }

  lemma EmptyWheelHoldsNothing(ls: seq<Layer>)
    requires forall i :: 0 <= i < |ls| ==> EmptyLayer(ls[i])
    ensures InLayers(ls) == multiset{}
  {
    forall t: Task
      ensures InLayers(ls)[t] == 0
    {
      InLayersAbsent(ls, t);
    }
  }

  lemma StartTick(ls: seq<Layer>, loc: Loc, tick: nat, slotNum: nat, k: nat)
    requires Sound(ls, loc, tick, slotNum, k, 0)
    ensures Ticking(ls, loc, tick, slotNum, k + 1, 0)
    ensures ls[0].curPos == Wrapped(k, slotNum)
  {
  }

  lemma TickingAfterShrink(ls: seq<Layer>, loc: Loc, loc': Loc, tick: nat, slotNum: nat, k: nat, idx: nat, s: seq<Task>)
    requires Ticking(ls, loc, tick, slotNum, k, idx)
    requires forall t :: t in s ==> t in ls[idx].slots[ls[idx].curPos]
    requires LocExact(WithSlot(ls, idx, ls[idx].curPos, s), loc')
    ensures Ticking(WithSlot(ls, idx, ls[idx].curPos, s), loc', tick, slotNum, k, idx)
  {
    hide LocExact, Wrapped, Turns;
    if idx > 0 {
      OnTimeAfterUpdate(ls[idx], slotNum, Turns(k - 1, slotNum, idx) + 1, ls[idx].curPos, s);
    }
  }

  lemma LocAfterMove(ls: seq<Layer>, loc: Loc, i: nat, pos: nat)
    requires LocExact(ls, loc) && i < |ls|
    ensures LocExact(WithPointer(ls, i, pos), loc)
  {
    var ls' := WithPointer(ls, i, pos);
    assert forall h :: 0 <= h < |ls| ==> ls'[h].slots == ls[h].slots;
  }

  lemma ContentsAfterMove(ls: seq<Layer>, i: nat, pos: nat)
    requires i < |ls|
    ensures InLayers(WithPointer(ls, i, pos)) == InLayers(ls)
  {
    SameSlotsSameTasks(ls, WithPointer(ls, i, pos));
  }

  lemma {:induction false} SameSlotsSameTasks(ls: seq<Layer>, ls': seq<Layer>)
    requires |ls| == |ls'| && forall h :: 0 <= h < |ls| ==> ls'[h].slots == ls[h].slots
    ensures InLayers(ls) == InLayers(ls')
  {
    if ls != [] {
      SameSlotsSameTasks(ls[1..], ls'[1..]);
    }
  }

  /** What tick `k` leaves in the lowest layer waits for its own, later, tick. */
  lemma OwnTickAfterRun(l: Layer, slotNum: nat, tick: nat, k: nat)
    requires slotNum > 0 && |l.slots| == slotNum && tick > 0 && k > 0 && AtOwnTick(l, slotNum, tick, k - 1)
    requires forall t :: t in l.slots[Wrapped(k - 1, slotNum)] ==> t.expiration > k * tick
    ensures AtOwnTick(l, slotNum, tick, k)
  {
    forall j, t | 0 <= j < slotNum && t in l.slots[j]
      ensures t.expiration / tick >= k
    {
      var a := t.expiration / tick;
      assert Hits(slotNum, j, a);
      if j == Wrapped(k - 1, slotNum) {
        DivBounds(t.expiration, tick);
      }
    }
  }

  /** The pointer of a layer plays no part in spans, positions or in when tasks are reached. */
  lemma PointerOnly(ls: seq<Layer>, loc: Loc, tick: nat, slotNum: nat, i: nat, pos: nat)
    requires Geometry(ls, tick, slotNum) && LocExact(ls, loc) && i < |ls|
    ensures var ls' := WithPointer(ls, i, pos);
            Geometry(ls', tick, slotNum) && LocExact(ls', loc)
  {
    LocAfterMove(ls, loc, i, pos);
  }

  lemma OnTimeAfterMove(l: Layer, slotNum: nat, pos: nat, b: int)
    requires slotNum > 0 && |l.slots| == slotNum && OnTime(l, slotNum, b)
    ensures OnTime(l.(curPos := pos), slotNum, b)
  {
  }

  /** Moving layer `idx` without wrapping: all other layers keep their turn. */
  lemma MoveWithoutWrap(ls: seq<Layer>, loc: Loc, tick: nat, slotNum: nat, k: nat, idx: nat)
    requires Ticking(ls, loc, tick, slotNum, k, idx) && ls[idx].curPos + 1 < slotNum
    requires idx == 0 ==> forall t :: t in ls[0].slots[ls[0].curPos] ==> t.expiration > k * tick
    ensures Sound(WithPointer(ls, idx, ls[idx].curPos + 1), loc, tick, slotNum, k, idx)
  {
    hide LocExact, OnTime, AtOwnTick, AtBoundary, Spans, Wrapped, Turns;
    var pos := ls[idx].curPos + 1;
    var ls' := WithPointer(ls, idx, pos);
    PointerOnly(ls, loc, tick, slotNum, idx, pos);
    WrappedStep(Turns(k - 1, slotNum, idx), slotNum);
    forall h | idx < h < |ls|
      ensures Turns(k, slotNum, h) == Turns(k - 1, slotNum, h)
    {
      TurnsAbove(k - 1, slotNum, idx, h);
    }
    TasksAfterMove(ls, loc, tick, slotNum, k, idx, pos);
  }

  lemma TasksAfterMove(ls: seq<Layer>, loc: Loc, tick: nat, slotNum: nat, k: nat, idx: nat, pos: nat)
    requires Ticking(ls, loc, tick, slotNum, k, idx)
    requires idx == 0 ==> forall t :: t in ls[0].slots[ls[0].curPos] ==> t.expiration > k * tick
    ensures AtOwnTick(WithPointer(ls, idx, pos)[0], slotNum, tick, k)
    ensures forall i :: 0 < i < |ls| ==> OnTime(WithPointer(ls, idx, pos)[i], slotNum, Turns(k - 1, slotNum, i) + 1)
  {
    hide LocExact, OnTime, Spans, Wrapped, Turns;
    var ls' := WithPointer(ls, idx, pos);
    forall i | 0 < i < |ls|
      ensures OnTime(ls'[i], slotNum, Turns(k - 1, slotNum, i) + 1)
    {
      OnTimeAfterMove(ls[i], slotNum, ls'[i].curPos, Turns(k - 1, slotNum, i) + 1);
    }
    if idx == 0 {
      OwnTickAfterRun(ls[0], slotNum, tick, k);
    }
  }

  /** Wrapping layer `idx`: the next layer has reached the beginning of its next slot. */
  lemma MoveWithWrap(ls: seq<Layer>, loc: Loc, tick: nat, slotNum: nat, k: nat, idx: nat)
    requires Ticking(ls, loc, tick, slotNum, k, idx) && ls[idx].curPos + 1 >= slotNum && idx + 1 < |ls|
    requires idx == 0 ==> forall t :: t in ls[0].slots[ls[0].curPos] ==> t.expiration > k * tick
    ensures Ticking(WithPointer(ls, idx, 0), loc, tick, slotNum, k, idx + 1)
  {
    hide LocExact, OnTime, AtOwnTick, AtBoundary, Spans, Wrapped, Turns;
    var ls' := WithPointer(ls, idx, 0);
    assert Geometry(ls', tick, slotNum) && LocExact(ls', loc) by {
      PointerOnly(ls, loc, tick, slotNum, idx, 0);
    }
    WrappedStep(Turns(k - 1, slotNum, idx), slotNum);
    TurnsAlign(k, slotNum, idx);
    BoundaryCarries(ls[idx], ls[idx + 1], tick, slotNum, k, Turns(k, slotNum, idx), Turns(k, slotNum, idx + 1));
    TasksAfterMove(ls, loc, tick, slotNum, k, idx, 0);
  }

  /** Wrapping the highest layer. */
  lemma MoveLastLayer(ls: seq<Layer>, loc: Loc, tick: nat, slotNum: nat, k: nat, idx: nat)
    requires Ticking(ls, loc, tick, slotNum, k, idx) && ls[idx].curPos + 1 >= slotNum && idx + 1 == |ls|
    requires idx == 0 ==> forall t :: t in ls[0].slots[ls[0].curPos] ==> t.expiration > k * tick
    ensures Sound(WithPointer(ls, idx, 0), loc, tick, slotNum, k, idx)
  {
    hide LocExact, OnTime, AtOwnTick, AtBoundary, Spans, Wrapped, Turns;
    var ls' := WithPointer(ls, idx, 0);
    PointerOnly(ls, loc, tick, slotNum, idx, 0);
    WrappedStep(Turns(k - 1, slotNum, idx), slotNum);
    TasksAfterMove(ls, loc, tick, slotNum, k, idx, 0);
  }

  lemma BoundaryCarries(l: Layer, l': Layer, tick: nat, slotNum: nat, k: nat, turns: nat, q: nat)
    requires Spans(l, slotNum) && l'.perSlot == l.capacity
    requires AtBoundary(l, tick, k, turns) && q * slotNum == turns
    ensures AtBoundary(l', tick, k, q)
  {
    assert q * slotNum * l.perSlot == q * (l.perSlot * slotNum);
  }

  /** Once the slot layer `idx` points at is empty, that layer is settled. */
  lemma CascadeDone(ls: seq<Layer>, loc: Loc, tick: nat, slotNum: nat, k: nat, idx: nat)
    requires Sound(ls, loc, tick, slotNum, k, idx) && 0 < idx < |ls|
    requires ls[idx].curPos < slotNum && ls[idx].slots[ls[idx].curPos] == []
    ensures Sound(ls, loc, tick, slotNum, k, idx - 1)
  {
    CascadedOnTime(ls[idx], slotNum, Turns(k, slotNum, idx));
  }

  /** Hanging a task where scheduleIn puts it keeps the wheel sound. `whole` may hold more tasks than
      `ls`, in a layer above those the task can go to. */
  lemma HangKeepsSound(ls: seq<Layer>, loc: Loc, tick: nat, slotNum: nat, k: nat, m: nat, c: nat, pos: nat, t: Task)
    requires Sound(ls, loc, tick, slotNum, k, m) && c < |ls| && pos < slotNum
    requires FitsSlot(ls[c], tick, slotNum, k, c, pos, t.expiration)
    requires t.key.Some? ==> t.key.value !in loc
    ensures |ls[c].slots| == slotNum
    ensures Sound(WithSlot(ls, c, pos, ls[c].slots[pos] + [t]), Remember(loc, t.key, c, pos), tick, slotNum, k, m)
  {
    TimelyAfterAdd(ls, tick, slotNum, k, m, c, pos, t);
    LocAfterAdd(ls, loc, c, pos, t);
  }

  lemma UnhangKeepsSound(ls: seq<Layer>, loc: Loc, tick: nat, slotNum: nat, k: nat, m: nat, i: nat, j: nat, n: nat)
    requires Sound(ls, loc, tick, slotNum, k, m) && i < |ls| && j < |ls[i].slots| && n < |ls[i].slots[j]|
    ensures Sound(WithSlot(ls, i, j, RemoveAt(ls[i].slots[j], n)), Forget(loc, ls[i].slots[j][n].key), tick, slotNum, k, m)
  {
    LocAfterRemove(ls, loc, i, j, n);
    TimelyAfterShrink(ls, tick, slotNum, k, m, i, j, RemoveAt(ls[i].slots[j], n));
  }

  function CurrentSlot(ls: seq<Layer>, i: nat): seq<Task>
    requires i < |ls| && ls[i].curPos < |ls[i].slots|
  {
    ls[i].slots[ls[i].curPos]
  }

  // ---- running a slot -------------------------------------------------------------------------

  /** The tasks of a slot that have expired, and the others, in slot order. */
  ghost function Due(s: seq<Task>, elapsed: int): seq<Task> {
    if s == [] then [] else Due(s[..|s| - 1], elapsed) + if s[|s| - 1].expiration <= elapsed then [s[|s| - 1]] else []
  }

  ghost function NotDue(s: seq<Task>, elapsed: int): seq<Task> {
    if s == [] then [] else NotDue(s[..|s| - 1], elapsed) + if s[|s| - 1].expiration <= elapsed then [] else [s[|s| - 1]]
  }

  ghost function Stamped(s: seq<Task>, elapsed: int): seq<(int, Task)> {
    if s == [] then [] else Stamped(s[..|s| - 1], elapsed) + [(elapsed, s[|s| - 1])]
  }

  lemma {:induction false} StampedCount(s: seq<Task>, elapsed: int, e: int, t: Task)
    ensures multiset(Stamped(s, elapsed))[(e, t)] == if e == elapsed then multiset(s)[t] else 0
  {
    if s != [] {
      var s', x := s[..|s| - 1], s[|s| - 1];
      StampedCount(s', elapsed, e, t);
      assert s == s' + [x];
      LastCounts(s', x, t);
      LastCounts(Stamped(s', elapsed), (elapsed, x), (e, t));
    }
  }

  lemma LastCounts<T>(s: seq<T>, x: T, t: T)
    ensures multiset(s + [x])[t] == multiset(s)[t] + if x == t then 1 else 0
  {
  }

  lemma {:induction false} DueCount(s: seq<Task>, elapsed: int, t: Task)
    ensures multiset(Due(s, elapsed))[t] == if t.expiration <= elapsed then multiset(s)[t] else 0
    ensures multiset(NotDue(s, elapsed))[t] == if t.expiration <= elapsed then 0 else multiset(s)[t]
  {
    hide Due, NotDue;
    DueOfNone(elapsed);
    if s != [] {
      var s', x := s[..|s| - 1], s[|s| - 1];
      assert s == s' + [x];
      DueCount(s', elapsed, t);
      DueOfMore(s', x, elapsed);
      LastCounts(s', x, t);
      LastCounts(Due(s', elapsed), x, t);
      LastCounts(NotDue(s', elapsed), x, t);
    }
  }

  lemma DueOfNone(elapsed: int)
    ensures Due([], elapsed) == [] && NotDue([], elapsed) == []
  {
  }

  lemma DueOfMore(s: seq<Task>, x: Task, elapsed: int)
    ensures Due(s + [x], elapsed) == if x.expiration <= elapsed then Due(s, elapsed) + [x] else Due(s, elapsed)
    ensures NotDue(s + [x], elapsed) == if x.expiration <= elapsed then NotDue(s, elapsed) else NotDue(s, elapsed) + [x]
  {
    assert (s + [x])[..|s|] == s;
  }

  lemma {:induction false} NotDueTasks(s: seq<Task>, elapsed: int)
    ensures forall t :: t in NotDue(s, elapsed) ==> t in s && t.expiration > elapsed
    ensures (forall t :: t in s ==> t.expiration > elapsed) ==> Due(s, elapsed) == []
  {
    if s != [] {
      NotDueTasks(s[..|s| - 1], elapsed);
    }
  }

  lemma DueStep(s: seq<Task>, elapsed: int, n: nat)
    requires n < |s|
    ensures if s[n].expiration <= elapsed then
              && NotDue(s[..n + 1], elapsed) == NotDue(s[..n], elapsed)
              && Stamped(Due(s[..n + 1], elapsed), elapsed) == Stamped(Due(s[..n], elapsed), elapsed) + [(elapsed, s[n])]
            else
              && NotDue(s[..n + 1], elapsed) == NotDue(s[..n], elapsed) + [s[n]]
              && Due(s[..n + 1], elapsed) == Due(s[..n], elapsed)
    ensures s[n..] == [s[n]] + s[n + 1..]
  {
    assert s[..n + 1][..n] == s[..n];
    assert (Due(s[..n], elapsed) + [s[n]])[..|Due(s[..n], elapsed)|] == Due(s[..n], elapsed);
  }

  /** Running the current slot of the layer that moves next. */
  lemma TickRun(ls: seq<Layer>, loc: Loc, loc': Loc, tick: nat, slotNum: nat, k: nat, idx: nat)
    requires Ticking(ls, loc, tick, slotNum, k, idx) && ls[idx].curPos < |ls[idx].slots|
    requires LocExact(WithSlot(ls, idx, ls[idx].curPos, NotDue(CurrentSlot(ls, idx), k * tick)), loc')
    ensures Ticking(WithSlot(ls, idx, ls[idx].curPos, NotDue(CurrentSlot(ls, idx), k * tick)), loc', tick, slotNum, k, idx)
    ensures forall t :: t in NotDue(CurrentSlot(ls, idx), k * tick) ==> t.expiration > k * tick
    ensures idx > 0 ==> Due(CurrentSlot(ls, idx), k * tick) == [] && Stamped([], k * tick) == []
  {
    NotDueTasks(CurrentSlot(ls, idx), k * tick);
    TickingAfterShrink(ls, loc, loc', tick, slotNum, k, idx, NotDue(CurrentSlot(ls, idx), k * tick));
    if idx > 0 {
      LeftSlotNotDue(ls[idx], slotNum, Turns(k - 1, slotNum, idx), k * tick);
    }
  }

  lemma ContentsAfterRun(ls: seq<Layer>, i: nat, j: nat, elapsed: int)
    requires i < |ls| && j < |ls[i].slots|
    ensures InLayers(WithSlot(ls, i, j, NotDue(ls[i].slots[j], elapsed))) == InLayers(ls) - multiset(Due(ls[i].slots[j], elapsed))
  {
    var s := ls[i].slots[j];
    InLayersUpdate(ls, i, j, NotDue(s, elapsed));
    assert multiset(s) == multiset(NotDue(s, elapsed)) + multiset(Due(s, elapsed)) by {
      forall t
        ensures multiset(s)[t] == multiset(NotDue(s, elapsed))[t] + multiset(Due(s, elapsed))[t]
      {
        DueCount(s, elapsed, t);
      }
    }
  }

  // ---- cascading one task ---------------------------------------------------------------------

  lemma {:induction false} SamePerSlot(ls: seq<Layer>, ls': seq<Layer>, tick: nat, slotNum: nat, i: nat)
    requires Geometry(ls, tick, slotNum) && Geometry(ls', tick, slotNum) && i < |ls| && i < |ls'|
    ensures ls[i].perSlot == ls'[i].perSlot
  {
    if i > 0 {
      SamePerSlot(ls, ls', tick, slotNum, i - 1);
    }
  }

  lemma {:induction false} SameChoice(ls: seq<Layer>, ls': seq<Layer>, i: nat, maxIdx: nat, remaining: nat)
    requires i <= maxIdx < |ls| && maxIdx < |ls'| && forall h :: 0 <= h <= maxIdx ==> ls[h] == ls'[h]
    ensures ChosenLayer(ls, i, maxIdx, remaining) == ChosenLayer(ls', i, maxIdx, remaining)
    decreases maxIdx - i
  {
    if ls[i].capacity > remaining || i == maxIdx {
    } else {
      SameChoice(ls, ls', i + 1, maxIdx, remaining);
    }
  }

  /** The first task of the slot being cascaded leaves the wheel. */
  lemma CascadeTake(whole: seq<Layer>, loc: Loc, tick: nat, slotNum: nat, k: nat, idx: nat, pos: nat)
    requires Sound(whole, loc, tick, slotNum, k, idx) && idx < |whole| && pos < |whole[idx].slots|
    requires |whole[idx].slots[pos]| > 0
    ensures var rest := whole[idx].slots[pos];
            && Sound(WithSlot(whole, idx, pos, rest[1..]), Forget(loc, rest[0].key), tick, slotNum, k, idx)
            && (rest[0].key.Some? ==> Indexed(rest[0], loc))
  {
    var rest := whole[idx].slots[pos];
    assert RemoveAt(rest, 0) == rest[1..];
    UnhangKeepsSound(whole, loc, tick, slotNum, k, idx, idx, pos, 0);
    assert SlotIndexed(rest, loc, idx, pos);
  }

  predicate Indexed(t: Task, loc: Loc) {
    t.key.Some? && t.key.value in loc
  }

  lemma SlotsCommute(ls: seq<Layer>, c: nat, p: nat, t: Task, idx: nat, pos: nat)
    requires c < idx < |ls| && p < |ls[c].slots| && pos < |ls[idx].slots|
    ensures var ls' := WithSlot(ls, idx, pos, []);
            var whole' := WithSlot(ls, c, p, ls[c].slots[p] + [t]);
            WithSlot(ls', c, p, ls'[c].slots[p] + [t]) == WithSlot(whole', idx, pos, []) && whole'[idx] == ls[idx]
  {
  }

  /** ... and is hung again, in a layer below. `ls` is the wheel without the slot being cascaded. */
  lemma CascadePut(whole: seq<Layer>, ls: seq<Layer>, loc: Loc, tick: nat, slotNum: nat, k: nat, idx: nat, pos: nat, t: Task)
    requires Sound(whole, loc, tick, slotNum, k, idx) && 0 < idx < |whole| && pos < |whole[idx].slots|
    requires ls == WithSlot(whole, idx, pos, []) && t.expiration >= k * tick && !Indexed(t, loc)
    ensures Geometry(ls, tick, slotNum)
    ensures var c := ChosenLayer(ls, 0, idx - 1, t.expiration - k * tick);
            var p := SlotAhead(ls[c], t.expiration - k * tick);
            var whole' := WithSlot(whole, c, p, whole[c].slots[p] + [t]);
            && Sound(whole', Remember(loc, t.key, c, p), tick, slotNum, k, idx)
            && WithSlot(ls, c, p, ls[c].slots[p] + [t]) == WithSlot(whole', idx, pos, [])
            && whole'[idx] == whole[idx]
  {
    hide LocExact, Timely, Pointers, Spans, Remember, ChosenLayer, SlotAhead, FitsSlot, WithSlot;
    CascadeChoice(whole, loc, tick, slotNum, k, idx, pos, t.expiration);
    var c := ChosenLayer(whole, 0, idx - 1, t.expiration - k * tick);
    var p := SlotAhead(whole[c], t.expiration - k * tick);
    SlotsCommute(whole, c, p, t, idx, pos);
    HangKeepsSound(whole, loc, tick, slotNum, k, idx, c, p, t);
  }

  /** Emptying the slot being cascaded does not change where a task goes. */
  lemma CascadeChoice(whole: seq<Layer>, loc: Loc, tick: nat, slotNum: nat, k: nat, idx: nat, pos: nat, x: int)
    requires Sound(whole, loc, tick, slotNum, k, idx) && 0 < idx < |whole| && pos < |whole[idx].slots| && x >= k * tick
    ensures var ls := WithSlot(whole, idx, pos, []);
            var c := ChosenLayer(whole, 0, idx - 1, x - k * tick);
            && |ls| == |whole| && Geometry(ls, tick, slotNum) && ls[c] == whole[c]
            && ChosenLayer(ls, 0, idx - 1, x - k * tick) == c
            && FitsSlot(whole[c], tick, slotNum, k, c, SlotAhead(whole[c], x - k * tick), x)
  {
    hide LocExact, Pointers, Spans;
    var ls := WithSlot(whole, idx, pos, []);
    TimelyAfterShrink(whole, tick, slotNum, k, idx, idx, pos, []);
    hide Timely;
    assert forall h :: 0 <= h < idx ==> ls[h] == whole[h];
    SameChoice(whole, ls, 0, idx - 1, x - k * tick);
    PlacedOnTime(whole, tick, slotNum, k, idx - 1, x);
  }

  lemma CascadeContents(whole: seq<Layer>, idx: nat, pos: nat, c: nat, p: nat)
    requires c < idx < |whole| && pos < |whole[idx].slots| && |whole[idx].slots[pos]| > 0 && p < |whole[c].slots|
    ensures var rest := whole[idx].slots[pos];
            var taken := WithSlot(whole, idx, pos, rest[1..]);
            InLayers(WithSlot(taken, c, p, taken[c].slots[p] + [rest[0]])) == InLayers(whole)
  {
    var rest := whole[idx].slots[pos];
    assert RemoveAt(rest, 0) == rest[1..];
    ContentsAfterRemove(whole, idx, pos, 0);
    ContentsAfterAdd(WithSlot(whole, idx, pos, rest[1..]), c, p, rest[0]);
  }

  /** Nothing in the slot being cascaded has been missed. */
  lemma PendingReached(ls: seq<Layer>, loc: Loc, tick: nat, slotNum: nat, k: nat, idx: nat)
    requires Sound(ls, loc, tick, slotNum, k, idx) && 0 < idx < |ls| && ls[idx].curPos < |ls[idx].slots|
    requires AtBoundary(ls[idx], tick, k, Turns(k, slotNum, idx))
    ensures forall t :: t in ls[idx].slots[ls[idx].curPos] ==> t.expiration >= k * tick
  {
    forall t | t in ls[idx].slots[ls[idx].curPos]
      ensures t.expiration >= k * tick
    {
      ReachedNow(ls[idx], slotNum, Turns(k, slotNum, idx), ls[idx].curPos, t);
    }
  }

  lemma BoundaryStays(ls: seq<Layer>, ls': seq<Layer>, loc: Loc, loc': Loc, tick: nat, slotNum: nat, k: nat, idx: nat)
    requires Ticking(ls, loc, tick, slotNum, k, idx) && Sound(ls', loc', tick, slotNum, k, idx) && idx < |ls'|
    ensures AtBoundary(ls'[idx], tick, k, Turns(k, slotNum, idx))
  {
    SamePerSlot(ls, ls', tick, slotNum, idx);
  }

  lemma KeyOfSlot(ls: seq<Layer>, loc: Loc, i: nat, j: nat, n: nat)
    requires LocExact(ls, loc) && i < |ls| && j < |ls[i].slots| && n < |ls[i].slots[j]|
    ensures ls[i].slots[j][n].key.Some? ==> Indexed(ls[i].slots[j][n], loc)
  {
    assert SlotIndexed(ls[i].slots[j], loc, i, j);
  }

  /** A new task finds its place among all layers. */
  lemma HangNew(ls: seq<Layer>, loc: Loc, tick: nat, slotNum: nat, k: nat, t: Task)
    requires Sound(ls, loc, tick, slotNum, k, 0) && t.expiration >= k * tick && !Indexed(t, loc)
    ensures |ls| > 0 && Geometry(ls, tick, slotNum)
    ensures var c := ChosenLayer(ls, 0, |ls| - 1, t.expiration - k * tick);
            var p := SlotAhead(ls[c], t.expiration - k * tick);
            Sound(WithSlot(ls, c, p, ls[c].slots[p] + [t]), Remember(loc, t.key, c, p), tick, slotNum, k, 0)
  {
    PlacedOnTime(ls, tick, slotNum, k, |ls| - 1, t.expiration);
    hide LocExact, Timely, Pointers, Spans, Remember;
    var c := ChosenLayer(ls, 0, |ls| - 1, t.expiration - k * tick);
    HangKeepsSound(ls, loc, tick, slotNum, k, 0, c, SlotAhead(ls[c], t.expiration - k * tick), t);
  }

  /** One step of runSlot over `slot`, of which the first `seen` tasks have been looked at. */
  lemma RunStep(ls: seq<Layer>, cur: seq<Layer>, loc: Loc, i: nat, j: nat, slot: seq<Task>, seen: nat, elapsed: int)
    requires i < |ls| && j < |ls[i].slots| && seen < |slot|
    requires cur == WithSlot(ls, i, j, NotDue(slot[..seen], elapsed) + slot[seen..]) && LocExact(cur, loc)
    ensures var n := |NotDue(slot[..seen], elapsed)|;
            var next := WithSlot(ls, i, j, NotDue(slot[..seen + 1], elapsed) + slot[seen + 1..]);
            && n < |cur[i].slots[j]| && cur[i].slots[j][n] == slot[seen]
            && (slot[seen].key.Some? ==> Indexed(slot[seen], loc))
            && if slot[seen].expiration <= elapsed then
                 next == WithSlot(cur, i, j, RemoveAt(cur[i].slots[j], n)) && LocExact(next, Forget(loc, slot[seen].key))
               else
                 next == cur
  {
    var n := |NotDue(slot[..seen], elapsed)|;
    DueStep(slot, elapsed, seen);
    LocAfterRemove(cur, loc, i, j, n);
    KeyOfSlot(cur, loc, i, j, n);
    hide LocExact, Due, NotDue, Stamped;
    if slot[seen].expiration <= elapsed {
      var s := RemoveAt(cur[i].slots[j], n);
      assert s == NotDue(slot[..seen + 1], elapsed) + slot[seen + 1..];
      WithSlotTwice(ls, i, j, cur[i].slots[j], s);
    } else {
      assert NotDue(slot[..seen + 1], elapsed) + slot[seen + 1..] == cur[i].slots[j];
    }
  }
}
