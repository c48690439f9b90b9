/** Weighted random choice (module/drop/mymath.go, src/mainsvr/role/drop_group.go). A random draw is
    an argument: any number below the total. */
module WeightedPick {
  import opened Options

  function Total(ws: seq<int>): int {
    if ws == [] then 0 else Total(ws[..|ws| - 1]) + ws[|ws| - 1]
  }

  ghost predicate NonNegative(ws: seq<int>) {
    forall i :: 0 <= i < |ws| ==> ws[i] >= 0
  }

  lemma {:induction false} TotalAppend(a: seq<int>, b: seq<int>)
    ensures Total(a + b) == Total(a) + Total(b)
  {
    if b == [] {
      assert a + b == a;
    } else {
      assert (a + b)[..|a + b| - 1] == a + b[..|b| - 1];
      TotalAppend(a, b[..|b| - 1]);
    }
  }

  lemma {:induction false} TotalNonNegative(ws: seq<int>)
    requires NonNegative(ws)
    ensures Total(ws) >= 0
    ensures forall i :: 0 <= i < |ws| ==> ws[i] <= Total(ws)
  {
    if ws != [] {
      TotalNonNegative(ws[..|ws| - 1]);
    }
  }

  lemma TotalUpTo(ws: seq<int>, i: nat)
    requires i < |ws|
    ensures Total(ws[..i + 1]) == Total(ws[..i]) + ws[i]
  {
    assert ws[..i + 1][..i] == ws[..i];
  }

  /** What is left of the total after taking off the weights up to `i`. */
  function LeftAfter(ws: seq<int>, i: nat): int
    requires i < |ws|
  {
    Total(ws) - Total(ws[..i + 1])
  }

  /** Counting down from the total, `i` is the first index at which what is left is no more than `r`. */
  ghost predicate Picks(ws: seq<int>, r: int, i: nat)
    requires i < |ws|
  {
    LeftAfter(ws, i) <= r && forall j :: 0 <= j < i ==> r < LeftAfter(ws, j)
  }

  /** A draw picks one index. */
  lemma PicksOnce(ws: seq<int>, r: int, i: nat, j: nat)
    requires i < |ws| && j < |ws| && Picks(ws, r, i) && Picks(ws, r, j)
    ensures i == j
  {
  }

  /** Without negative weights the draws that pick an index are an interval. */
  lemma PicksInterval(ws: seq<int>, r: int, i: nat)
    requires NonNegative(ws) && i < |ws| && r < Total(ws)
    ensures Picks(ws, r, i) <==> LeftAfter(ws, i) <= r < LeftAfter(ws, i) + ws[i]
  {
    TotalUpTo(ws, i);
    forall j | 0 <= j < i
      ensures LeftAfter(ws, j) >= LeftAfter(ws, i) + ws[i]
      ensures j == i - 1 ==> LeftAfter(ws, j) == LeftAfter(ws, i) + ws[i]
    {
      PrefixesGrow(ws, j + 1, i);
    }
    if i == 0 {
      assert ws[..0] == [];
    } else {
      assert LeftAfter(ws, i - 1) == LeftAfter(ws, i) + ws[i];
    }
  }

  lemma {:induction false} PrefixesGrow(ws: seq<int>, i: nat, j: nat)
    requires NonNegative(ws) && i <= j <= |ws|
    ensures Total(ws[..i]) <= Total(ws[..j])
    decreases j - i
  {
    if i < j {
      PrefixesGrow(ws, i, j - 1);
      TotalUpTo(ws, j - 1);
    }
  }

  function Range(lo: int, n: nat): (s: set<int>)
    ensures |s| == n && forall r :: r in s <==> lo <= r < lo + n
  {
    if n == 0 then {} else Range(lo, n - 1) + {lo + n - 1}
  }

  /** The draws below the total that pick index `i`. */
  ghost function DrawsFor(ws: seq<int>, i: nat): set<int>
    requires i < |ws|
  {
    set r | 0 <= r < Total(ws) && Picks(ws, r, i)
  }

  lemma DrawsByWeight(ws: seq<int>, i: nat)
    requires NonNegative(ws) && i < |ws|
    ensures |DrawsFor(ws, i)| == ws[i]
  {
    var lo := LeftAfter(ws, i);
    TotalUpTo(ws, i);
    PrefixesGrow(ws, i + 1, |ws|);
    PrefixesGrow(ws, 0, i);
    assert ws[..|ws|] == ws && ws[..0] == [];
    var range := Range(lo, ws[i]);
    forall r
      ensures r in DrawsFor(ws, i) <==> r in range
    {
      if r < Total(ws) {
        PicksInterval(ws, r, i);
      }
    }
    assert DrawsFor(ws, i) == range;
  }

  /** Every index is picked by exactly as many of the draws below the total as its weight says, exactly
      when no weight is negative. */
  lemma PicksByWeight(ws: seq<int>)
    ensures (forall i: nat :: i < |ws| ==> |DrawsFor(ws, i)| == ws[i]) <==> NonNegative(ws)
  {
    hide DrawsFor;
    if NonNegative(ws) {
      forall i: nat | i < |ws|
        ensures |DrawsFor(ws, i)| == ws[i]
      {
        DrawsByWeight(ws, i);
      }
    } else {
      var i: nat :| i < |ws| && ws[i] < 0;
      assert |DrawsFor(ws, i)| != ws[i];
    }
  }

  /** WeightedRandomSelect; none stands for the panic of the random source, which happens exactly when the
      total is not positive. */
  method Select(ws: seq<int>, draw: nat -> nat) returns (index: Option<nat>)
    requires forall t: nat :: t > 0 ==> draw(t) < t
    ensures index.None? <==> Total(ws) <= 0
    ensures index.Some? ==> index.value < |ws| && Picks(ws, draw(Total(ws)), index.value) && ws[index.value] > 0
  {
    var total, i := 0, 0;
    while i < |ws|
      invariant 0 <= i <= |ws| && total == Total(ws[..i])
    {
      TotalUpTo(ws, i);
      total := total + ws[i];
      i := i + 1;
    }
    assert ws[..|ws|] == ws;
    if total <= 0 {
      return None;
    }
    var r := draw(total);
    var left := total;
    i := 0;
    while i < |ws|
      invariant 0 <= i <= |ws|
      invariant left == total - Total(ws[..i]) && r < left
      invariant forall j :: 0 <= j < i ==> r < LeftAfter(ws, j)
    {
      TotalUpTo(ws, i);
      left := left - ws[i];
      if r >= left {
        return Some(i);
      }
      i := i + 1;
    }
    assert false;
  }

  // ---- several picks without repetition ------------------------------------------------------------------

  function Positive(ws: seq<int>): nat {
    if ws == [] then 0 else Positive(ws[..|ws| - 1]) + if ws[|ws| - 1] > 0 then 1 else 0
  }

  lemma {:induction false} PositiveTotal(ws: seq<int>)
    requires NonNegative(ws)
    ensures Positive(ws) > 0 <==> Total(ws) > 0
  {
    if ws != [] {
      PositiveTotal(ws[..|ws| - 1]);
      TotalNonNegative(ws[..|ws| - 1]);
    }
  }

  lemma {:induction false} PositiveAfterZeroing(ws: seq<int>, i: nat)
    requires i < |ws| && ws[i] > 0
    ensures Positive(ws[i := 0]) == Positive(ws) - 1
  {
    var zeroed := ws[i := 0];
    if i == |ws| - 1 {
      assert zeroed[..|ws| - 1] == ws[..|ws| - 1];
    } else {
      assert zeroed[..|ws| - 1] == ws[..|ws| - 1][i := 0];
      PositiveAfterZeroing(ws[..|ws| - 1], i);
    }
  }

  lemma {:induction false} PositiveBound(ws: seq<int>)
    ensures Positive(ws) <= |ws|
    ensures (forall i :: 0 <= i < |ws| ==> ws[i] > 0) ==> Positive(ws) == |ws|
  {
    if ws != [] {
      PositiveBound(ws[..|ws| - 1]);
    }
  }

  /** What is left of the weights after some picks. */
  function Zeroed(ws: seq<int>, picks: seq<nat>): (left: seq<int>)
    ensures |left| == |ws|
    ensures forall i :: 0 <= i < |ws| ==> left[i] == if i in picks then 0 else ws[i]
  {
    seq(|ws|, i requires 0 <= i < |ws| => if i in picks then 0 else ws[i])
  }

  /** The k-th pick, from what the earlier ones left. */
  ghost predicate PickedFrom(ws: seq<int>, picks: seq<nat>, k: nat, draw: nat -> nat -> nat)
    requires k < |picks|
  {
    var left := Zeroed(ws, picks[..k]);
    Total(left) > 0 && picks[k] < |left| && Picks(left, draw(k)(Total(left)), picks[k])
  }

  /** Distinct indices of positive weight, each picked by its draw. */
  ghost predicate GoodPicks(ws: seq<int>, picks: seq<nat>, draw: nat -> nat -> nat) {
    && (forall k :: 0 <= k < |picks| ==> picks[k] < |ws| && ws[picks[k]] > 0)
    && (forall k, l :: 0 <= k < l < |picks| ==> picks[k] != picks[l])
    && (forall k :: 0 <= k < |picks| ==> PickedFrom(ws, picks, k, draw))
  }

  lemma OneMorePick(ws: seq<int>, picks: seq<nat>, index: nat, draw: nat -> nat -> nat)
    requires GoodPicks(ws, picks, draw) && index < |ws|
    requires var left := Zeroed(ws, picks);
             Total(left) > 0 && Picks(left, draw(|picks|)(Total(left)), index) && left[index] > 0
    ensures GoodPicks(ws, picks + [index], draw)
    ensures Zeroed(ws, picks)[index := 0] == Zeroed(ws, picks + [index])
  {
    var after := picks + [index];
    hide Picks, Total;
    forall k | 0 <= k < |after|
      ensures PickedFrom(ws, after, k, draw)
    {
      if k < |picks| {
        assert PickedFrom(ws, picks, k, draw);
        assert after[..k] == picks[..k];
      } else {
        assert after[..k] == picks;
      }
    }
    assert forall x :: x in after <==> x in picks || x == index;
  }

  /** As many as asked for, but no more than there are. */
  function Wanted(ws: seq<int>, n: int): (k: int)
    ensures k <= n && k <= |ws| && (k == n || k == |ws|)
  {
    if n < |ws| then n else |ws|
  }

  /** WeightedRandomSelectN. `draw(k)(total)` is the k-th draw below `total`. The result is absent when
      there is nothing to pick from or nothing wanted; the call fails when the picks made leave a total
      that is not positive. Without negative weights that is exactly when more is wanted than there are
      positive weights. */
  method SelectN(ws: seq<int>, n: int, draw: nat -> nat -> nat) returns (picks: Option<seq<nat>>, failed: bool)
    requires forall k: nat, t: nat :: t > 0 ==> draw(k)(t) < t
    ensures picks.Some? <==> n > 0 && |ws| > 0 && !failed
    ensures picks.Some? ==> |picks.value| == Wanted(ws, n) && GoodPicks(ws, picks.value, draw)
    ensures failed ==> n > 0 && |ws| > 0 && exists made ::
                         |made| < Wanted(ws, n) && GoodPicks(ws, made, draw) && Total(Zeroed(ws, made)) <= 0
    ensures NonNegative(ws) && n > 0 && |ws| > 0 ==> (failed <==> Positive(ws) < Wanted(ws, n))
  {
    if n <= 0 || |ws| <= 0 {
      return None, false;
    }
    var out: seq<nat> := [];
    var left := ws;
    var i := 0;
    while i < n && i < |ws|
      invariant 0 <= i == |out| <= |ws| && i <= n
      invariant left == Zeroed(ws, out)
      invariant Positive(left) == Positive(ws) - i
      invariant GoodPicks(ws, out, draw)
    {
      hide GoodPicks, Picks, Total, Positive;
      var index := Select(left, draw(i));
      if index.None? {
        NothingPositive(left);
        return None, true;
      }
      PositiveAfterZeroing(left, index.value);
      OneMorePick(ws, out, index.value, draw);
      out := out + [index.value];
      left := left[index.value := 0];
      i := i + 1;
    }
    return Some(out), false;
  }

  lemma NothingPositive(ws: seq<int>)
    requires Total(ws) <= 0
    ensures NonNegative(ws) ==> Positive(ws) == 0
  {
    if NonNegative(ws) {
      PositiveTotal(ws);
    }
  }

  /** With all weights positive there are always enough, and every subset of the wanted size is
      distinct. */
  lemma AllPositiveSuffices(ws: seq<int>, n: int)
    requires forall i :: 0 <= i < |ws| ==> ws[i] > 0
    ensures Positive(ws) >= Wanted(ws, n)
  {
    PositiveBound(ws);
  }

  // ---- a choice among keys ----------------------------------------------------------------------------------

  /** The weights that count: a weight that is not positive never wins. */
  function Clipped(ws: seq<int>): (r: seq<int>)
    ensures |r| == |ws| && forall i :: 0 <= i < |ws| ==> r[i] == if ws[i] > 0 then ws[i] else 0
  {
    seq(|ws|, i requires 0 <= i < |ws| => if ws[i] > 0 then ws[i] else 0)
  }

  function ClippedTotal(ws: seq<int>): nat {
    TotalNonNegative(Clipped(ws));
    Total(Clipped(ws))
  }

  /** Where a draw counted up from the first key lands. */
  ghost predicate LandsOn(ws: seq<int>, r: int, i: nat)
    requires i < |ws|
  {
    Total(ws[..i]) <= r < Total(ws[..i + 1])
  }

  lemma LandsOnce(ws: seq<int>, r: int, i: nat, j: nat)
    requires NonNegative(ws) && i < |ws| && j < |ws| && LandsOn(ws, r, i) && LandsOn(ws, r, j)
    ensures i == j
  {
    if i < j {
      PrefixesGrow(ws, i + 1, j);
    } else if j < i {
      PrefixesGrow(ws, j + 1, i);
    }
  }

  lemma LandsByWeight(ws: seq<int>, i: nat)
    requires NonNegative(ws) && i < |ws|
    ensures |set r | 0 <= r < Total(ws) && LandsOn(ws, r, i)| == ws[i]
  {
    TotalUpTo(ws, i);
    PrefixesGrow(ws, i + 1, |ws|);
    PrefixesGrow(ws, 0, i);
    assert ws[..|ws|] == ws && ws[..0] == [];
    var landed := set r | 0 <= r < Total(ws) && LandsOn(ws, r, i);
    var range := Range(Total(ws[..i]), ws[i]);
    assert forall r :: r in landed <==> r in range;
    assert landed == range;
  }

  /** weightedPickKey, over the keys in ascending order and their weights: nothing is picked exactly
      when no weight is positive; otherwise every key wins for as many draws as its weight says. */
  method PickKey(keys: seq<int>, ws: seq<int>, draw: nat -> nat) returns (key: Option<int>)
    requires |keys| == |ws| && forall t: nat :: t > 0 ==> draw(t) < t
    ensures key.None? <==> ClippedTotal(ws) == 0
    ensures key.Some? ==> exists i :: 0 <= i < |ws| && key.value == keys[i] && ws[i] > 0
                                      && LandsOn(Clipped(ws), draw(ClippedTotal(ws)), i)
  {
    var clipped := Clipped(ws);
    var total, i := 0, 0;
    while i < |ws|
      invariant 0 <= i <= |ws| && total == Total(clipped[..i])
    {
      TotalUpTo(clipped, i);
      if ws[i] > 0 {
        total := total + ws[i];
      }
      i := i + 1;
    }
    assert clipped[..|ws|] == clipped;
    TotalNonNegative(clipped);
    if total <= 0 {
      return None;
    }
    var first := draw(total);
    var rest: int := first;
    i := 0;
    while i < |ws|
      invariant 0 <= i <= |ws|
      invariant rest == first - Total(clipped[..i]) && rest >= 0
    {
      TotalUpTo(clipped, i);
      if ws[i] > 0 {
        rest := rest - ws[i];
        if rest < 0 {
          assert LandsOn(clipped, first, i);
          return Some(keys[i]);
        }
      }
      i := i + 1;
    }
    assert false;
  }
}
