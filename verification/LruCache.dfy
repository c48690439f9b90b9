/** The cache of lib/util/lru/lru_cache.go: a list in order of use, with a map into its elements. */
module LruCache {
  import opened Options

  type Key = int
  type Value = int

  // ---- lists of keys ------------------------------------------------------------------------------------

  function Without(s: seq<Key>, k: Key): (r: seq<Key>)
    ensures k !in r && |r| <= |s|
    ensures forall x :: x in r <==> x in s && x != k
  {
    if s == [] then []
    else if s[0] == k then Without(s[1..], k)
    else [s[0]] + Without(s[1..], k)
  }

  function Take(s: seq<Key>, n: nat): seq<Key> {
    if |s| <= n then s else s[..n]
  }

  ghost predicate Distinct(s: seq<Key>) {
    forall i, j :: 0 <= i < j < |s| ==> s[i] != s[j]
  }

  /** The keys in front of the first `k`. */
  function Before(s: seq<Key>, k: Key): set<Key> {
    if s == [] || s[0] == k then {} else {s[0]} + Before(s[1..], k)
  }

  lemma {:induction false} WithoutAbsent(s: seq<Key>, k: Key)
    requires k !in s
    ensures Without(s, k) == s
  {
    if s != [] {
      WithoutAbsent(s[1..], k);
    }
  }

  lemma {:induction false} WithoutDistinct(s: seq<Key>, k: Key)
    requires Distinct(s)
    ensures Distinct(Without(s, k))
    ensures k in s ==> |Without(s, k)| == |s| - 1
  {
    if s != [] {
      WithoutDistinct(s[1..], k);
      assert forall j :: 1 <= j < |s| ==> s[0] != s[j];
      assert s[0] !in s[1..];
      if s[0] == k {
        WithoutAbsent(s[1..], k);
      }
    }
  }

  lemma {:induction false} WithoutSplit(a: seq<Key>, k: Key, b: seq<Key>)
    requires k !in a && k !in b
    ensures Without(a + [k] + b, k) == a + b
  {
    if a == [] {
      assert ([] + [k] + b)[1..] == b && [] + b == b;
      WithoutAbsent(b, k);
    } else {
      assert (a + [k] + b)[1..] == a[1..] + [k] + b;
      WithoutSplit(a[1..], k, b);
      assert [a[0]] + (a[1..] + b) == a + b;
    }
  }

  lemma {:induction false} BeforeWithout(s: seq<Key>, x: Key, k: Key)
    requires x != k
    ensures Before(Without(s, x), k) == Before(s, k) - {x}
  {
    if s != [] {
      BeforeWithout(s[1..], x, k);
      if s[0] != x {
        assert ([s[0]] + Without(s[1..], x))[1..] == Without(s[1..], x);
      }
    }
  }

  lemma {:induction false} BeforeIsPrefix(s: seq<Key>, k: Key, i: nat)
    requires Distinct(s) && i < |s| && s[i] == k
    ensures |Before(s, k)| == i
    ensures forall x :: x in Before(s, k) ==> x in s
  {
    if i > 0 {
      assert s[0] != s[i];
      BeforeIsPrefix(s[1..], k, i - 1);
      assert forall j :: 1 <= j < |s| ==> s[j] != s[0];
      assert s[0] !in s[1..];
    }
  }

  // ---- the cache as a value -----------------------------------------------------------------------------

  /** The keys, most recently used first, and their values. */
  datatype Cache = Cache(keys: seq<Key>, vals: map<Key, Value>)

  ghost predicate Sound(c: Cache, cap: nat) {
    Distinct(c.keys) && |c.keys| <= cap && forall k :: k in c.keys <==> k in c.vals
  }

  function WithSet(c: Cache, cap: nat, k: Key, v: Value): Cache {
    var keys := Take([k] + Without(c.keys, k), cap);
    Cache(keys, map x | x in c.vals[k := v] && x in keys :: c.vals[k := v][x])
  }

  function WithGet(c: Cache, k: Key): Cache {
    if k in c.vals then c.(keys := [k] + Without(c.keys, k)) else c
  }

  function Removed(c: Cache, k: Key): Cache {
    Cache(Without(c.keys, k), c.vals - {k})
  }

  lemma OpsKeepSound(c: Cache, cap: nat, k: Key, v: Value)
    requires Sound(c, cap) && cap > 0
    ensures Sound(WithSet(c, cap, k, v), cap) && Sound(WithGet(c, k), cap) && Sound(Removed(c, k), cap)
    ensures k in WithSet(c, cap, k, v).vals && WithSet(c, cap, k, v).vals[k] == v
  {
    WithoutDistinct(c.keys, k);
    var full := [k] + Without(c.keys, k);
    assert Distinct(full);
    assert Take(full, cap)[0] == k;
  }

  // ---- runs ------------------------------------------------------------------------------------------------

  datatype Op = DoSet(k: Key, v: Value) | DoGet(k: Key) | DoPeek(k: Key) | DoRemove(k: Key)

  function Apply(c: Cache, cap: nat, op: Op): Cache {
    match op
    case DoSet(k, v) => WithSet(c, cap, k, v)
    case DoGet(k) => WithGet(c, k)
    case DoPeek(_) => c
    case DoRemove(k) => Removed(c, k)
  }

  function After(cap: nat, ops: seq<Op>): Cache {
    if ops == [] then Cache([], map[])
    else Apply(After(cap, ops[..|ops| - 1]), cap, ops[|ops| - 1])
  }

  // ---- which keys hit -----------------------------------------------------------------------------------------

  /** What matters about one key: whether it is kept, that is set, not removed since, and never with `cap`
      distinct other keys touched after it; */
  predicate Kept(cap: nat, ops: seq<Op>, k: Key)
    decreases |ops|, 0
  {
    ops != [] &&
    var init, op := ops[..|ops| - 1], ops[|ops| - 1];
    match op
    case DoSet(x, _) => x == k || (Kept(cap, init, k) && |Since(cap, init, k) + {x}| < cap)
    case DoRemove(x) => x != k && Kept(cap, init, k)
    case _ => Kept(cap, init, k)
  }

  /** and the distinct other keys touched, by a Set or a Get that hits, since its own last touch, less
      those removed again. */
  function Since(cap: nat, ops: seq<Op>, k: Key): set<Key>
    decreases |ops|, 1
  {
    if ops == [] then {}
    else
      var init, op := ops[..|ops| - 1], ops[|ops| - 1];
      match op
      case DoSet(x, _) => if x == k then {} else Since(cap, init, k) + {x}
      case DoGet(x) =>
        if !Kept(cap, init, x) then Since(cap, init, k) else if x == k then {} else Since(cap, init, k) + {x}
      case DoPeek(_) => Since(cap, init, k)
      case DoRemove(x) => Since(cap, init, k) - {x}
  }

  /** The keys touched by a run, in order: every Set, and every Get that hits. */
  function Touched(cap: nat, ops: seq<Op>): seq<Key> {
    if ops == [] then []
    else
      var op := ops[|ops| - 1];
      Touched(cap, ops[..|ops| - 1]) +
      if op.DoSet? || (op.DoGet? && op.k in After(cap, ops[..|ops| - 1]).vals) then [op.k] else []
  }

  /** The distinct keys touched since the last touch of `k`. */
  function TouchedSince(touched: seq<Key>, k: Key): set<Key> {
    if touched == [] then {}
    else
      var last := touched[|touched| - 1];
      if last == k then {} else TouchedSince(touched[..|touched| - 1], k) + {last}
  }

  /** The value of the last Set of `k`. */
  function LastSet(ops: seq<Op>, k: Key): Option<Value> {
    if ops == [] then None
    else
      var op := ops[|ops| - 1];
      if op.DoSet? && op.k == k then Some(op.v) else LastSet(ops[..|ops| - 1], k)
  }

  /** All keys ever touched, most recent first: what a cache without a limit would hold. */
  function Recent(touched: seq<Key>): (r: seq<Key>)
    ensures forall x :: x in r <==> x in touched
  {
    if touched == [] then []
    else
      var last := touched[|touched| - 1];
      assert touched == touched[..|touched| - 1] + [last];
      [last] + Without(Recent(touched[..|touched| - 1]), last)
  }

  lemma {:induction false} RecentDistinct(touched: seq<Key>)
    ensures Distinct(Recent(touched))
  {
    if touched != [] {
      RecentDistinct(touched[..|touched| - 1]);
      WithoutDistinct(Recent(touched[..|touched| - 1]), touched[|touched| - 1]);
    }
  }

  lemma {:induction false} RecentBefore(touched: seq<Key>, k: Key)
    requires k in touched
    ensures Before(Recent(touched), k) == TouchedSince(touched, k)
  {
    var init, last := touched[..|touched| - 1], touched[|touched| - 1];
    assert touched == init + [last];
    var r := Recent(init);
    assert Recent(touched)[1..] == Without(r, last);
    if last != k {
      RecentBefore(init, k);
      BeforeWithout(r, last, k);
      assert Before(Recent(touched), k) == {last} + (Before(r, k) - {last});
      assert {last} + (Before(r, k) - {last}) == Before(r, k) + {last};
    }
  }

  lemma AroundKey(s: seq<Key>, i: nat)
    requires Distinct(s) && i < |s|
    ensures s == s[..i] + [s[i]] + s[i + 1..]
    ensures s[i] !in s[..i] && s[i] !in s[i + 1..]
  {
  }

  lemma TakeTouchNear(a: seq<Key>, k: Key, b: seq<Key>, n: nat)
    requires k !in a && k !in b && |a| < n < |a| + 1 + |b|
    ensures var s := a + [k] + b;
            Take([k] + Without(s[..n], k), n) == Take([k] + Without(s, k), n)
  {
    var s := a + [k] + b;
    var c := b[..n - |a| - 1];
    assert s[..n] == a + [k] + c;
    WithoutSplit(a, k, b);
    WithoutSplit(a, k, c);
    hide Without;
    assert ([k] + (a + b))[..n] == [k] + (a + c);
  }

  lemma TakeTouchFarAt(a: seq<Key>, k: Key, b: seq<Key>, n: nat)
    requires k !in a && k !in b && 0 < n <= |a|
    ensures var s := a + [k] + b;
            Take([k] + Without(s[..n], k), n) == Take([k] + Without(s, k), n)
  {
    var s := a + [k] + b;
    assert s[..n] == a[..n];
    WithoutAbsent(a[..n], k);
    WithoutSplit(a, k, b);
    hide Without;
    assert ([k] + (a + b))[..n] == ([k] + a[..n])[..n];
  }

  lemma TakeTouchFar(s: seq<Key>, n: nat, i: nat)
    requires Distinct(s) && 0 < n <= i < |s|
    ensures Take([s[i]] + Without(s[..n], s[i]), n) == Take([s[i]] + Without(s, s[i]), n)
  {
    AroundKey(s, i);
    hide Without, Distinct, Take;
    TakeTouchFarAt(s[..i], s[i], s[i + 1..], n);
  }

  lemma TakeTouchNew(s: seq<Key>, n: nat, k: Key)
    requires k !in s && 0 < n < |s|
    ensures Take([k] + Without(s[..n], k), n) == Take([k] + Without(s, k), n)
  {
    WithoutAbsent(s[..n], k);
    WithoutAbsent(s, k);
    hide Without;
    assert ([k] + s)[..n] == ([k] + s[..n])[..n];
  }

  /** Touching a key commutes with the limit. */
  lemma TakeTouch(s: seq<Key>, n: nat, k: Key)
    requires Distinct(s) && n > 0
    ensures Take([k] + Without(Take(s, n), k), n) == Take([k] + Without(s, k), n)
    ensures k in Take(s, n) ==> Take([k] + Without(Take(s, n), k), n) == [k] + Without(Take(s, n), k)
  {
    hide Without;
    if |s| > n {
      if k in s {
        var i :| 0 <= i < |s| && s[i] == k;
        if i < n {
          AroundKey(s, i);
          TakeTouchNear(s[..i], k, s[i + 1..], n);
        } else {
          TakeTouchFar(s, n, i);
        }
      } else {
        TakeTouchNew(s, n, k);
      }
    }
    if k in Take(s, n) {
      assert Distinct(Take(s, n));
      WithoutDistinct(Take(s, n), k);
    }
  }

  /** As long as nothing is removed the cache holds the first keys of the recency order, each with the
      value it was last set to. */
  lemma {:induction false} CacheIsRecentPrefix(cap: nat, ops: seq<Op>)
    requires cap > 0 && forall i :: 0 <= i < |ops| ==> !ops[i].DoRemove?
    ensures var c := After(cap, ops);
            && Sound(c, cap) && c.keys == Take(Recent(Touched(cap, ops)), cap)
            && forall k :: k in c.vals ==> LastSet(ops, k) == Some(c.vals[k])
  {
    if ops != [] {
      var init, op := ops[..|ops| - 1], ops[|ops| - 1];
      CacheIsRecentPrefix(cap, init);
      var c, t, t' := After(cap, init), Touched(cap, init), Touched(cap, ops);
      RecentDistinct(t);
      OpsKeepSound(c, cap, op.k, if op.DoSet? then op.v else 0);
      TakeTouch(Recent(t), cap, op.k);
      if op.DoSet? || (op.DoGet? && op.k in c.vals) {
        assert t' == t + [op.k];
        assert t'[..|t'| - 1] == t;
      } else {
        assert t' == t;
      }
    }
  }

  lemma {:induction false} BeforeTake(s: seq<Key>, n: nat, k: Key)
    requires Distinct(s)
    ensures k in Take(s, n) <==> k in s && |Before(s, k)| < n
    ensures k in Take(s, n) ==> Before(Take(s, n), k) == Before(s, k)
  {
    if k in s {
      var i :| 0 <= i < |s| && s[i] == k;
      BeforeIsPrefix(s, k, i);
      if i < n {
        assert Take(s, n)[i] == k;
        BeforeOfPrefix(s, n, k, i);
      }
    }
  }

  lemma {:induction false} BeforeOfPrefix(s: seq<Key>, n: nat, k: Key, i: nat)
    requires i < |s| && i < n && s[i] == k
    ensures Before(Take(s, n), k) == Before(s, k)
  {
    if i > 0 && s[0] != k {
      BeforeOfPrefix(s[1..], n - 1, k, i - 1);
      assert Take(s, n)[1..] == Take(s[1..], n - 1);
    }
  }

  lemma BeforeAfterTouch(s: seq<Key>, x: Key, k: Key)
    requires x != k
    ensures Before([x] + Without(s, x), k) == Before(s, k) + {x}
  {
    BeforeWithout(s, x, k);
    assert ([x] + Without(s, x))[1..] == Without(s, x);
    assert {x} + (Before(s, k) - {x}) == Before(s, k) + {x};
  }

  /** A Set puts its key in front and keeps another one while fewer than `cap` come before it. */
  lemma AfterSet(c: Cache, cap: nat, x: Key, v: Value, k: Key)
    requires Sound(c, cap) && cap > 0
    ensures var c' := WithSet(c, cap, x, v);
            if k == x then k in c'.vals && Before(c'.keys, k) == {}
            else (k in c'.vals <==> k in c.vals && |Before(c.keys, k) + {x}| < cap)
                 && (k in c'.vals ==> Before(c'.keys, k) == Before(c.keys, k) + {x})
  {
    var full := [x] + Without(c.keys, x);
    WithoutDistinct(c.keys, x);
    assert Distinct(full) && Take(full, cap)[0] == x;
    if k != x {
      BeforeTake(full, cap, k);
      BeforeAfterTouch(c.keys, x, k);
      assert k in full <==> k in c.keys;
    }
  }

  lemma AfterGet(c: Cache, cap: nat, x: Key, k: Key)
    requires Sound(c, cap)
    ensures var c' := WithGet(c, x);
            && (k in c'.vals <==> k in c.vals)
            && (k in c'.vals ==> Before(c'.keys, k) == if x !in c.vals then Before(c.keys, k) else if x == k then {}
                                                       else Before(c.keys, k) + {x})
  {
    if k != x {
      BeforeAfterTouch(c.keys, x, k);
    }
  }

  lemma AfterRemove(c: Cache, x: Key, k: Key)
    ensures k in Removed(c, x).vals <==> k in c.vals && k != x
    ensures k != x ==> Before(Removed(c, x).keys, k) == Before(c.keys, k) - {x}
  {
    if k != x {
      BeforeWithout(c.keys, x, k);
    }
  }

  lemma {:induction false} AlwaysSound(cap: nat, ops: seq<Op>)
    requires cap > 0
    ensures Sound(After(cap, ops), cap)
  {
    if ops != [] {
      var init, op := ops[..|ops| - 1], ops[|ops| - 1];
      AlwaysSound(cap, init);
      OpsKeepSound(After(cap, init), cap, op.k, if op.DoSet? then op.v else 0);
    }
  }

  /** After every run, Get and Peek hit exactly the keys kept, and the keys used more recently than a kept
      one are those touched since. */
  lemma {:induction false} HitIff(cap: nat, ops: seq<Op>, k: Key)
    requires cap > 0
    ensures var c := After(cap, ops);
            && (k in c.vals <==> Kept(cap, ops, k))
            && (k in c.vals ==> Before(c.keys, k) == Since(cap, ops, k))
    decreases |ops|
  {
    if ops != [] {
      var init, op := ops[..|ops| - 1], ops[|ops| - 1];
      var c := After(cap, init);
      AlwaysSound(cap, init);
      HitIff(cap, init, k);
      hide Sound, Before, WithSet, WithGet, Removed;
      match op
      case DoSet(x, v) => AfterSet(c, cap, x, v, k);
      case DoGet(x) =>
        HitIff(cap, init, x);
        AfterGet(c, cap, x, k);
      case DoPeek(_) =>
      case DoRemove(x) => AfterRemove(c, x, k);
    }
  }

  /** What a hit returns is the last value set. */
  lemma {:induction false} HitReturnsLastSet(cap: nat, ops: seq<Op>, k: Key)
    requires cap > 0 && k in After(cap, ops).vals
    ensures LastSet(ops, k) == Some(After(cap, ops).vals[k])
  {
    var init, op := ops[..|ops| - 1], ops[|ops| - 1];
    AlwaysSound(cap, init);
    if op.DoSet? && op.k == k {
      OpsKeepSound(After(cap, init), cap, k, op.v);
    } else {
      AfterOther(After(cap, init), cap, op, k);
      HitReturnsLastSet(cap, init, k);
    }
  }

  lemma AfterOther(c: Cache, cap: nat, op: Op, k: Key)
    requires Sound(c, cap) && k in Apply(c, cap, op).vals && !(op.DoSet? && op.k == k)
    ensures k in c.vals && Apply(c, cap, op).vals[k] == c.vals[k]
  {
  }

  /** For runs that remove nothing: a key hits exactly when it was touched and fewer than `cap` distinct
      other keys were touched since. */
  lemma HitIffTouched(cap: nat, ops: seq<Op>, k: Key)
    requires cap > 0 && forall i :: 0 <= i < |ops| ==> !ops[i].DoRemove?
    ensures var touched := Touched(cap, ops);
            k in After(cap, ops).vals <==> k in touched && |TouchedSince(touched, k)| < cap
  {
    CacheIsRecentPrefix(cap, ops);
    var touched := Touched(cap, ops);
    RecentDistinct(touched);
    BeforeTake(Recent(touched), cap, k);
    if k in touched {
      RecentBefore(touched, k);
    }
  }

  // ---- the cache in place -----------------------------------------------------------------------------------

  class Element {
    const key: Key
    var value: Value

    constructor (key: Key, value: Value)
      ensures this.key == key && this.value == value
    {
      this.key, this.value := key, value;
    }
  }

  /** The keys of a list of elements; keys never change. */
  function KeysOf(list: seq<Element>): (keys: seq<Key>)
    ensures |keys| == |list| && forall i :: 0 <= i < |list| ==> keys[i] == list[i].key
  {
    seq(|list|, i requires 0 <= i < |list| => list[i].key)
  }

  class LRUCache {
    const capacity: nat
    /** The front is the most recently used. */
    var dropList: seq<Element>
    var cacheMap: map<Key, Element>

    ghost predicate Valid()
      reads this
    {
      && capacity > 0 && |dropList| <= capacity
      && Indexed(dropList, cacheMap)
    }

    ghost function Abs(): Cache
      reads this, dropList, cacheMap.Values
    {
      Cache(KeysOf(dropList), map k | k in cacheMap :: cacheMap[k].value)
    }

    constructor (cap: int)
      ensures Valid() && capacity == (if cap <= 0 then 1 else cap) && Abs() == Cache([], map[])
    {
      capacity := if cap <= 0 then 1 else cap;
      dropList, cacheMap := [], map[];
    }

    /** Take an element out of the list. */
    method Unlink(elem: Element)
      requires Indexed(dropList, cacheMap) && elem in dropList
      modifies this`dropList
      ensures KeysOf(dropList) == Without(KeysOf(old(dropList)), elem.key)
      ensures |dropList| == |old(dropList)| - 1
      ensures forall e :: e in dropList <==> e in old(dropList) && e != elem
      ensures forall i, j :: 0 <= i < j < |dropList| ==> dropList[i] != dropList[j]
    {
      var i := 0;
      while dropList[i] != elem
        invariant 0 <= i < |dropList| && elem !in dropList[..i]
        decreases |dropList| - i
      {
        i := i + 1;
      }
      UnlinkedKeys(dropList, cacheMap, i);
      dropList := dropList[..i] + dropList[i + 1..];
    }

    method MoveToFront(elem: Element)
      requires Indexed(dropList, cacheMap) && elem in dropList
      modifies this`dropList
      ensures Indexed(dropList, cacheMap) && |dropList| == |old(dropList)|
      ensures KeysOf(dropList) == [elem.key] + Without(KeysOf(old(dropList)), elem.key)
    {
      hide Without, Indexed;
      Unlink(elem);
      IndexedFront(old(dropList), dropList, cacheMap, elem);
      dropList := [elem] + dropList;
    }

    /** Drop least recently used entries while there are too many. */
    method Evict()
      requires Indexed(dropList, cacheMap)
      modifies this`dropList, this`cacheMap
      ensures Indexed(dropList, cacheMap) && |dropList| <= capacity
      ensures KeysOf(dropList) == Take(KeysOf(old(dropList)), capacity)
      ensures forall x :: x in cacheMap ==> x in old(cacheMap) && cacheMap[x] == old(cacheMap)[x]
    {
      while |dropList| > capacity
        invariant |dropList| <= |old(dropList)| && dropList == old(dropList)[..|dropList|]
        invariant |old(dropList)| > capacity ==> |dropList| >= capacity
        invariant |old(dropList)| <= capacity ==> dropList == old(dropList)
        invariant Indexed(dropList, cacheMap)
        invariant forall x :: x in cacheMap ==> x in old(cacheMap) && cacheMap[x] == old(cacheMap)[x]
      {
        var last := dropList[|dropList| - 1];
        cacheMap := cacheMap - {last.key};
        dropList := dropList[..|dropList| - 1];
      }
    }

    method Push(k: Key, v: Value)
      requires Indexed(dropList, cacheMap) && k !in cacheMap
      modifies this`dropList, this`cacheMap
      ensures Indexed(dropList, cacheMap)
      ensures KeysOf(dropList) == [k] + KeysOf(old(dropList))
      ensures k in cacheMap && fresh(cacheMap[k]) && cacheMap[k].value == v
      ensures forall x :: x in cacheMap <==> x == k || x in old(cacheMap)
      ensures forall x :: x in old(cacheMap) ==> cacheMap[x] == old(cacheMap)[x]
    {
      var elem := new Element(k, v);
      dropList := [elem] + dropList;
      cacheMap := cacheMap[k := elem];
      assert KeysOf(dropList)[1..] == KeysOf(old(dropList));
    }

    method Insert(k: Key, v: Value)
      requires Valid() && k !in cacheMap
      modifies this`dropList, this`cacheMap
      ensures Valid() && forall x :: x in cacheMap ==>
                fresh(cacheMap[x]) || (x in old(cacheMap) && cacheMap[x] == old(cacheMap)[x])
      ensures Abs() == WithSet(old(Abs()), capacity, k, v)
    {
      ghost var c := Abs();
      hide Without, Indexed, Distinct;
      KeysAreIndexed(dropList, cacheMap);
      WithoutAbsent(c.keys, k);
      Push(k, v);
      Evict();
      KeysAreIndexed(dropList, cacheMap);
      forall x | x in cacheMap
        ensures x in c.vals[k := v] && cacheMap[x].value == c.vals[k := v][x]
      {
      }
      SameVals(Abs(), WithSet(c, capacity, k, v));
    }

    method Update(k: Key, v: Value)
      requires Valid() && k in cacheMap
      modifies this`dropList, cacheMap[k]
      ensures Valid() && cacheMap == old(cacheMap)
      ensures Abs() == WithSet(old(Abs()), capacity, k, v)
    {
      hide Without, Indexed, Distinct, WithSet;
      ghost var c := Abs();
      KeysAreIndexed(dropList, cacheMap);
      UpdatedValue(c, capacity, k, v);
      var elem := cacheMap[k];
      MoveToFront(elem);
      elem.value := v;
      forall x | x in cacheMap
        ensures cacheMap[x].value == if x == k then v else c.vals[x]
      {
      }
      KeysAreIndexed(dropList, cacheMap);
      SameVals(Abs(), WithSet(c, capacity, k, v));
    }

    method Set(k: Key, v: Value)
      requires Valid()
      modifies this, cacheMap.Values
      ensures Valid() && forall x :: x in cacheMap ==>
                fresh(cacheMap[x]) || (x in old(cacheMap) && cacheMap[x] == old(cacheMap)[x])
      ensures Abs() == WithSet(old(Abs()), capacity, k, v)
    {
      hide Without, Indexed, Distinct, WithSet;
      if k in cacheMap {
        Update(k, v);
      } else {
        Insert(k, v);
      }
    }

    method Get(k: Key) returns (v: Value, found: bool)
      requires Valid()
      modifies this`dropList
      ensures Valid() && Abs() == WithGet(old(Abs()), k)
      ensures found <==> k in old(Abs()).vals
      ensures found ==> v == old(Abs()).vals[k]
    {
      if k in cacheMap {
        var elem := cacheMap[k];
        MoveToFront(elem);
        return elem.value, true;
      }
      return 0, false;
    }

    method Peek(k: Key) returns (v: Value, found: bool)
      requires Valid()
      ensures found <==> k in Abs().vals
      ensures found ==> v == Abs().vals[k]
    {
      if k in cacheMap {
        return cacheMap[k].value, true;
      }
      return 0, false;
    }

    method Remove(k: Key) returns (removed: bool)
      requires Valid()
      modifies this
      ensures Valid() && Abs() == Removed(old(Abs()), k)
      ensures removed <==> k in old(Abs()).vals
    {
      hide Without, Indexed, Distinct;
      ghost var c := Abs();
      KeysAreIndexed(dropList, cacheMap);
      if k in cacheMap {
        var elem := cacheMap[k];
        Unlink(elem);
        IndexedWithout(old(dropList), dropList, cacheMap, elem);
        cacheMap := cacheMap - {k};
        assert Abs().keys == Removed(c, k).keys;
        forall x | x in cacheMap
          ensures cacheMap[x].value == c.vals[x]
        {
        }
        KeysAreIndexed(dropList, cacheMap);
        SameVals(Abs(), Removed(c, k));
        return true;
      }
      WithoutAbsent(c.keys, k);
      SameVals(c, Removed(c, k));
      return false;
    }
  }

  lemma IndexedFront(list: seq<Element>, rest: seq<Element>, index: map<Key, Element>, elem: Element)
    requires Indexed(list, index) && elem in list
    requires forall e :: e in rest <==> e in list && e != elem
    requires forall i, j :: 0 <= i < j < |rest| ==> rest[i] != rest[j]
    ensures Indexed([elem] + rest, index) && KeysOf([elem] + rest) == [elem.key] + KeysOf(rest)
  {
  }

  lemma IndexedWithout(list: seq<Element>, list': seq<Element>, index: map<Key, Element>, elem: Element)
    requires Indexed(list, index) && elem in list
    requires forall e :: e in list' <==> e in list && e != elem
    requires forall i, j :: 0 <= i < j < |list'| ==> list'[i] != list'[j]
    ensures Indexed(list', index - {elem.key})
  {
  }

  /** Setting a key that is there already keeps the others. */
  lemma UpdatedValue(c: Cache, cap: nat, k: Key, v: Value)
    requires Sound(c, cap) && k in c.vals && cap > 0
    ensures var c' := WithSet(c, cap, k, v);
            && c'.keys == [k] + Without(c.keys, k)
            && (forall x :: x in c'.vals <==> x in c'.keys)
            && (forall x :: x in c'.vals ==> x in c.vals && c'.vals[x] == if x == k then v else c.vals[x])
  {
    WithoutDistinct(c.keys, k);
  }

  lemma SameVals(c: Cache, d: Cache)
    requires c.keys == d.keys
    requires forall x :: x in c.vals <==> x in c.keys
    requires forall x :: x in d.vals <==> x in d.keys
    requires forall x :: x in c.vals && x in d.vals ==> c.vals[x] == d.vals[x]
    ensures c == d
  {
    assert forall x :: x in c.vals <==> x in d.vals;
    assert forall x :: x in c.vals ==> c.vals[x] == d.vals[x];
    assert c.vals == d.vals;
  }

  lemma UnlinkedKeys(list: seq<Element>, index: map<Key, Element>, i: nat)
    requires Indexed(list, index) && i < |list|
    ensures KeysOf(list[..i] + list[i + 1..]) == Without(KeysOf(list), list[i].key)
  {
    var a, k, b := KeysOf(list[..i]), list[i].key, KeysOf(list[i + 1..]);
    assert KeysOf(list) == a + [k] + b;
    assert KeysOf(list[..i] + list[i + 1..]) == a + b;
    forall j | 0 <= j < |list| && j != i
      ensures list[j].key != k
    {
      assert list[j] in list && list[i] in list;
    }
    WithoutSplit(a, k, b);
  }

  /** The listed keys are the indexed ones, without repetition. */
  lemma KeysAreIndexed(list: seq<Element>, index: map<Key, Element>)
    requires Indexed(list, index)
    ensures Distinct(KeysOf(list)) && forall k :: k in KeysOf(list) <==> k in index
    ensures forall k :: k in index ==> index[k] in list && index[k].key == k
  {
    forall k | k in index
      ensures k in KeysOf(list)
    {
      var i :| 0 <= i < |list| && list[i] == index[k];
      assert KeysOf(list)[i] == k;
    }
    forall i, j | 0 <= i < j < |list|
      ensures list[i].key != list[j].key
    {
      assert list[i] in list && list[j] in list;
    }
  }

  /** The map finds every element of the list under its key, and nothing else. */
  ghost predicate Indexed(list: seq<Element>, index: map<Key, Element>) {
    && (forall e :: e in list ==> e.key in index && index[e.key] == e)
    && (forall k :: k in index ==> index[k] in list && index[k].key == k)
    && (forall i, j :: 0 <= i < j < |list| ==> list[i] != list[j])
  }
}
