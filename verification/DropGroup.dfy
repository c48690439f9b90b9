/** Expanding a drop group into packs (src/mainsvr/role/drop_group.go): groups nest, may refer to each
    other in circles, and choose at random. Each random choice is an argument, told apart by where in
    the expansion it is made. */
module DropGroup {
  import WeightedPick

  datatype Way = ByChance | All | ByWeight | Unknown

  /** A row of a group; `keys` in ascending order with their rates. */
  datatype Row = Row(banned: bool, combo: bool, count: int, multiplies: bool, way: Way, keys: seq<int>, rates: seq<int>)

  predicate RowOk(row: Row) {
    |row.keys| == |row.rates|
  }

  /** The rows of each group, by ascending subid: the first is the root row. */
  type Config = map<int, seq<Row>>

  ghost predicate ConfigOk(cfg: Config) {
    forall g :: g in cfg ==> forall i :: 0 <= i < |cfg[g]| ==> RowOk(cfg[g][i])
  }

  const MAX_NEST: nat := 6

  /** A pack that is hit, how many times over, and the groups it was reached through. */
  datatype Draw = Draw(pack: int, mult: int, chain: seq<int>)

  type Path = seq<nat>

  /** The value drawn at a place in the expansion. */
  type Luck = Path -> nat

  /** A probability out of ten thousand. */
  predicate Hit(rate: int, drawn: nat) {
    if rate <= 0 then false else if rate >= 10000 then true else drawn % 10000 < rate
  }

  /** The first `n` of the ten thousand draws. */
  function FirstDraws(n: nat): (s: set<nat>)
    ensures |s| == n && forall x: nat :: x in s <==> x < n
  {
    if n == 0 then {} else FirstDraws(n - 1) + {n - 1}
  }

  /** A rate is hit by as many of ten thousand draws as it says, none below zero and all beyond. */
  lemma HitsByRate(rate: int)
    ensures |set x: nat | x < 10000 && Hit(rate, x)| == if rate < 0 then 0 else if rate > 10000 then 10000 else rate
  {
    var hits := set x: nat | x < 10000 && Hit(rate, x);
    var n := if rate < 0 then 0 else if rate > 10000 then 10000 else rate;
    forall x: nat
      ensures x in hits <==> x in FirstDraws(n)
    {
      if x < 10000 {
        HitBelow(rate, x);
      }
    }
    hide Hit;
    assert hits == FirstDraws(n);
  }

  lemma HitBelow(rate: int, x: nat)
    requires x < 10000
    ensures Hit(rate, x) <==> x < rate
  {
    assert x % 10000 == x;
  }

  predicate Known(cfg: Config, g: int) {
    g in cfg && cfg[g] != []
  }

  function Multiplied(draws: seq<Draw>, n: int): seq<Draw> {
    seq(|draws|, i requires 0 <= i < |draws| => draws[i].(mult := draws[i].mult * n))
  }

  /** The key that wins by weight. */
  ghost predicate Wins(row: Row, drawn: nat, i: nat)
    requires RowOk(row) && i < |row.keys|
  {
    var total := WeightedPick.ClippedTotal(row.rates);
    total > 0 && WeightedPick.LandsOn(WeightedPick.Clipped(row.rates), drawn % total, i)
  }

  /** `chain` ends in the group that is expanded; the groups in it count as visited. */
  ghost function ResolveGroup(cfg: Config, chain: seq<int>, luck: Luck, path: Path): seq<Draw>
    requires ConfigOk(cfg) && chain != [] && |chain| <= MAX_NEST + 1
    decreases MAX_NEST + 1 - |chain|, 5, 0
  {
    var g := chain[|chain| - 1];
    if !Known(cfg, g) || cfg[g][0].banned then []
    else ResolveRows(cfg, chain, cfg[g], !cfg[g][0].combo, luck, path)
  }

  ghost function ResolveRows(cfg: Config, chain: seq<int>, rows: seq<Row>, leaf: bool, luck: Luck, path: Path): seq<Draw>
    requires ConfigOk(cfg) && chain != [] && |chain| <= MAX_NEST + 1
    requires forall i :: 0 <= i < |rows| ==> RowOk(rows[i])
    decreases MAX_NEST + 1 - |chain|, 4, |rows|
  {
    if rows == [] then []
    else
      var last := rows[|rows| - 1];
      ResolveRows(cfg, chain, rows[..|rows| - 1], leaf, luck, path)
      + if last.banned then [] else ResolveRow(cfg, chain, last, leaf, luck, path + [|rows|])
  }

  function Times(row: Row): nat {
    if row.count <= 0 then 1 else row.count
  }

  ghost function ResolveRow(cfg: Config, chain: seq<int>, row: Row, leaf: bool, luck: Luck, path: Path): seq<Draw>
    requires ConfigOk(cfg) && chain != [] && |chain| <= MAX_NEST + 1 && RowOk(row)
    decreases MAX_NEST + 1 - |chain|, 3, 0
  {
    if row.multiplies then
      var base := SelectOnce(cfg, chain, row, leaf, luck, path + [0]);
      if Times(row) > 1 then Multiplied(base, Times(row)) else base
    else Repeated(cfg, chain, row, leaf, luck, path, Times(row))
  }

  ghost function Repeated(cfg: Config, chain: seq<int>, row: Row, leaf: bool, luck: Luck, path: Path, n: nat): seq<Draw>
    requires ConfigOk(cfg) && chain != [] && |chain| <= MAX_NEST + 1 && RowOk(row)
    decreases MAX_NEST + 1 - |chain|, 2, n
  {
    if n == 0 then []
    else Repeated(cfg, chain, row, leaf, luck, path, n - 1) + SelectOnce(cfg, chain, row, leaf, luck, path + [n])
  }

  ghost function SelectOnce(cfg: Config, chain: seq<int>, row: Row, leaf: bool, luck: Luck, path: Path): seq<Draw>
    requires ConfigOk(cfg) && chain != [] && |chain| <= MAX_NEST + 1 && RowOk(row)
    decreases MAX_NEST + 1 - |chain|, 1, |row.keys| + 1
  {
    match row.way
    case ByWeight =>
      if exists i: nat :: i < |row.keys| && Wins(row, luck(path), i) then
        var i: nat :| i < |row.keys| && Wins(row, luck(path), i);
        PickKey(cfg, chain, row.keys[i], leaf, luck, path + [i])
      else []
    case Unknown => []
    case _ => SelectKeys(cfg, chain, row, |row.keys|, leaf, luck, path)
  }

  /** The first `n` keys of a row that takes all of them, or each by its own chance. */
  ghost function SelectKeys(cfg: Config, chain: seq<int>, row: Row, n: nat, leaf: bool, luck: Luck, path: Path): seq<Draw>
    requires ConfigOk(cfg) && chain != [] && |chain| <= MAX_NEST + 1 && RowOk(row) && n <= |row.keys|
    decreases MAX_NEST + 1 - |chain|, 1, n
  {
    if n == 0 then []
    else
      SelectKeys(cfg, chain, row, n - 1, leaf, luck, path)
      + if row.way.All? || Hit(row.rates[n - 1], luck(path + [n])) then
          PickKey(cfg, chain, row.keys[n - 1], leaf, luck, path + [n])
        else []
  }

  /** A key of a leaf, or one that names no group, is a pack; a group is expanded unless it is already
      being expanded or the nesting is too deep. */
  ghost function PickKey(cfg: Config, chain: seq<int>, k: int, leaf: bool, luck: Luck, path: Path): seq<Draw>
    requires ConfigOk(cfg) && chain != [] && |chain| <= MAX_NEST + 1
    decreases MAX_NEST + 1 - |chain|, 0, 0
  {
    if leaf || !Known(cfg, k) then [Draw(k, 1, chain)]
    else if |chain| - 1 >= MAX_NEST || k in chain then []
    else ResolveGroup(cfg, chain + [k], luck, path)
  }

  // ---- nesting -------------------------------------------------------------------------------------------

  ghost predicate NoRepeats(chain: seq<int>) {
    forall i, j :: 0 <= i < j < |chain| ==> chain[i] != chain[j]
  }

  /** A draw comes at least once, through distinct groups that continue `chain`, and not too deep. */
  ghost predicate Derived(chain: seq<int>, d: Draw) {
    d.mult >= 1 && chain <= d.chain && NoRepeats(d.chain) && |d.chain| <= MAX_NEST + 1
  }

  ghost predicate AllDerived(chain: seq<int>, draws: seq<Draw>) {
    forall i :: 0 <= i < |draws| ==> Derived(chain, draws[i])
  }

  /** However groups refer to each other, even in circles: no group is expanded inside itself, nesting
      stays within the limit, and every pack that is hit counts at least once. */
  lemma {:induction false} GroupDerived(cfg: Config, chain: seq<int>, luck: Luck, path: Path)
    requires ConfigOk(cfg) && chain != [] && |chain| <= MAX_NEST + 1 && NoRepeats(chain)
    ensures AllDerived(chain, ResolveGroup(cfg, chain, luck, path))
    decreases MAX_NEST + 1 - |chain|, 5, 0
  {
    var g := chain[|chain| - 1];
    if Known(cfg, g) && !cfg[g][0].banned {
      RowsDerived(cfg, chain, cfg[g], !cfg[g][0].combo, luck, path);
    }
  }

  lemma {:induction false} RowsDerived(cfg: Config, chain: seq<int>, rows: seq<Row>, leaf: bool, luck: Luck, path: Path)
    requires ConfigOk(cfg) && chain != [] && |chain| <= MAX_NEST + 1 && NoRepeats(chain)
    requires forall i :: 0 <= i < |rows| ==> RowOk(rows[i])
    ensures AllDerived(chain, ResolveRows(cfg, chain, rows, leaf, luck, path))
    decreases MAX_NEST + 1 - |chain|, 4, |rows|
  {
    if rows != [] {
      RowsDerived(cfg, chain, rows[..|rows| - 1], leaf, luck, path);
      if !rows[|rows| - 1].banned {
        RowDerived(cfg, chain, rows[|rows| - 1], leaf, luck, path + [|rows|]);
      }
    }
  }

  lemma {:induction false} RowDerived(cfg: Config, chain: seq<int>, row: Row, leaf: bool, luck: Luck, path: Path)
    requires ConfigOk(cfg) && chain != [] && |chain| <= MAX_NEST + 1 && NoRepeats(chain) && RowOk(row)
    ensures AllDerived(chain, ResolveRow(cfg, chain, row, leaf, luck, path))
    decreases MAX_NEST + 1 - |chain|, 3, 0
  {
    if row.multiplies {
      OnceDerived(cfg, chain, row, leaf, luck, path + [0]);
      var base := SelectOnce(cfg, chain, row, leaf, luck, path + [0]);
      forall i | 0 <= i < |base|
        ensures base[i].mult * Times(row) >= 1
      {
        assert Derived(chain, base[i]);
        Grows(base[i].mult, Times(row));
      }
    } else {
      RepeatedDerived(cfg, chain, row, leaf, luck, path, Times(row));
    }
  }

  lemma Grows(a: int, b: int)
    requires a >= 1 && b >= 1
    ensures a * b >= 1
  {
  }

  lemma {:induction false} RepeatedDerived(cfg: Config, chain: seq<int>, row: Row, leaf: bool, luck: Luck, path: Path, n: nat)
    requires ConfigOk(cfg) && chain != [] && |chain| <= MAX_NEST + 1 && NoRepeats(chain) && RowOk(row)
    ensures AllDerived(chain, Repeated(cfg, chain, row, leaf, luck, path, n))
    decreases MAX_NEST + 1 - |chain|, 2, n
  {
    if n > 0 {
      RepeatedDerived(cfg, chain, row, leaf, luck, path, n - 1);
      OnceDerived(cfg, chain, row, leaf, luck, path + [n]);
    }
  }

  lemma {:induction false} OnceDerived(cfg: Config, chain: seq<int>, row: Row, leaf: bool, luck: Luck, path: Path)
    requires ConfigOk(cfg) && chain != [] && |chain| <= MAX_NEST + 1 && NoRepeats(chain) && RowOk(row)
    ensures AllDerived(chain, SelectOnce(cfg, chain, row, leaf, luck, path))
    decreases MAX_NEST + 1 - |chain|, 1, |row.keys| + 1
  {
    if row.way.ByWeight? {
      forall i: nat | i < |row.keys|
        ensures AllDerived(chain, PickKey(cfg, chain, row.keys[i], leaf, luck, path + [i]))
      {
        KeyDerived(cfg, chain, row.keys[i], leaf, luck, path + [i]);
      }
    } else if !row.way.Unknown? {
      KeysDerived(cfg, chain, row, |row.keys|, leaf, luck, path);
    }
  }

  lemma {:induction false} KeysDerived(cfg: Config, chain: seq<int>, row: Row, n: nat, leaf: bool, luck: Luck, path: Path)
    requires ConfigOk(cfg) && chain != [] && |chain| <= MAX_NEST + 1 && NoRepeats(chain) && RowOk(row) && n <= |row.keys|
    ensures AllDerived(chain, SelectKeys(cfg, chain, row, n, leaf, luck, path))
    decreases MAX_NEST + 1 - |chain|, 1, n
  {
    if n > 0 {
      KeysDerived(cfg, chain, row, n - 1, leaf, luck, path);
      KeyDerived(cfg, chain, row.keys[n - 1], leaf, luck, path + [n]);
    }
  }

  lemma {:induction false} KeyDerived(cfg: Config, chain: seq<int>, k: int, leaf: bool, luck: Luck, path: Path)
    requires ConfigOk(cfg) && chain != [] && |chain| <= MAX_NEST + 1 && NoRepeats(chain)
    ensures AllDerived(chain, PickKey(cfg, chain, k, leaf, luck, path))
    decreases MAX_NEST + 1 - |chain|, 0, 0
  {
    if !leaf && Known(cfg, k) && |chain| - 1 < MAX_NEST && k !in chain {
      GroupDerived(cfg, chain + [k], luck, path);
      var draws := ResolveGroup(cfg, chain + [k], luck, path);
      forall i | 0 <= i < |draws|
        ensures Derived(chain, draws[i])
      {
        assert Derived(chain + [k], draws[i]);
        assert chain <= chain + [k];
      }
    }
  }

  // ---- groups that leave nothing to chance ------------------------------------------------------------------

  /** No enabled row chooses at random. */
  ghost predicate Certain(cfg: Config) {
    forall g :: g in cfg ==> forall i :: 0 <= i < |cfg[g]| ==> cfg[g][i].banned || CertainRow(cfg[g][i])
  }

  predicate CertainRow(row: Row) {
    row.way.All? || row.way.Unknown?
  }

  lemma {:induction false} GroupCertain(cfg: Config, chain: seq<int>, l: Luck, p: Path, m: Luck, q: Path)
    requires ConfigOk(cfg) && chain != [] && |chain| <= MAX_NEST + 1 && Certain(cfg)
    ensures ResolveGroup(cfg, chain, l, p) == ResolveGroup(cfg, chain, m, q)
    decreases MAX_NEST + 1 - |chain|, 5, 0
  {
    var g := chain[|chain| - 1];
    if Known(cfg, g) && !cfg[g][0].banned {
      RowsCertain(cfg, chain, cfg[g], !cfg[g][0].combo, l, p, m, q);
    }
  }

  lemma {:induction false} RowsCertain(cfg: Config, chain: seq<int>, rows: seq<Row>, leaf: bool, l: Luck, p: Path, m: Luck, q: Path)
    requires ConfigOk(cfg) && chain != [] && |chain| <= MAX_NEST + 1 && Certain(cfg)
    requires forall i :: 0 <= i < |rows| ==> RowOk(rows[i]) && (rows[i].banned || CertainRow(rows[i]))
    ensures ResolveRows(cfg, chain, rows, leaf, l, p) == ResolveRows(cfg, chain, rows, leaf, m, q)
    decreases MAX_NEST + 1 - |chain|, 4, |rows|
  {
    if rows != [] {
      RowsCertain(cfg, chain, rows[..|rows| - 1], leaf, l, p, m, q);
      if !rows[|rows| - 1].banned {
        RowCertain(cfg, chain, rows[|rows| - 1], leaf, l, p + [|rows|], m, q + [|rows|]);
      }
    }
  }

  lemma {:induction false} RowCertain(cfg: Config, chain: seq<int>, row: Row, leaf: bool, l: Luck, p: Path, m: Luck, q: Path)
    requires ConfigOk(cfg) && chain != [] && |chain| <= MAX_NEST + 1 && Certain(cfg) && RowOk(row) && CertainRow(row)
    ensures ResolveRow(cfg, chain, row, leaf, l, p) == ResolveRow(cfg, chain, row, leaf, m, q)
    decreases MAX_NEST + 1 - |chain|, 3, 0
  {
    if row.multiplies {
      OnceCertain(cfg, chain, row, leaf, l, p + [0], m, q + [0]);
    } else {
      RepeatedCertain(cfg, chain, row, leaf, l, p, m, q, Times(row));
    }
  }

  lemma {:induction false} RepeatedCertain(cfg: Config, chain: seq<int>, row: Row, leaf: bool, l: Luck, p: Path, m: Luck,
                                           q: Path, n: nat)
    requires ConfigOk(cfg) && chain != [] && |chain| <= MAX_NEST + 1 && Certain(cfg) && RowOk(row) && CertainRow(row)
    ensures Repeated(cfg, chain, row, leaf, l, p, n) == Repeated(cfg, chain, row, leaf, m, q, n)
    decreases MAX_NEST + 1 - |chain|, 2, n
  {
    if n > 0 {
      RepeatedCertain(cfg, chain, row, leaf, l, p, m, q, n - 1);
      OnceCertain(cfg, chain, row, leaf, l, p + [n], m, q + [n]);
    }
  }

  lemma {:induction false} OnceCertain(cfg: Config, chain: seq<int>, row: Row, leaf: bool, l: Luck, p: Path, m: Luck, q: Path)
    requires ConfigOk(cfg) && chain != [] && |chain| <= MAX_NEST + 1 && Certain(cfg) && RowOk(row) && CertainRow(row)
    ensures SelectOnce(cfg, chain, row, leaf, l, p) == SelectOnce(cfg, chain, row, leaf, m, q)
    decreases MAX_NEST + 1 - |chain|, 1, |row.keys| + 1
  {
    if row.way.All? {
      KeysCertain(cfg, chain, row, |row.keys|, leaf, l, p, m, q);
    }
  }

  lemma {:induction false} KeysCertain(cfg: Config, chain: seq<int>, row: Row, n: nat, leaf: bool, l: Luck, p: Path, m: Luck, q: Path)
    requires ConfigOk(cfg) && chain != [] && |chain| <= MAX_NEST + 1 && Certain(cfg) && RowOk(row) && row.way.All?
    requires n <= |row.keys|
    ensures SelectKeys(cfg, chain, row, n, leaf, l, p) == SelectKeys(cfg, chain, row, n, leaf, m, q)
    decreases MAX_NEST + 1 - |chain|, 1, n
  {
    if n > 0 {
      KeysCertain(cfg, chain, row, n - 1, leaf, l, p, m, q);
      KeyCertain(cfg, chain, row.keys[n - 1], leaf, l, p + [n], m, q + [n]);
    }
  }

  lemma {:induction false} KeyCertain(cfg: Config, chain: seq<int>, k: int, leaf: bool, l: Luck, p: Path, m: Luck, q: Path)
    requires ConfigOk(cfg) && chain != [] && |chain| <= MAX_NEST + 1 && Certain(cfg)
    ensures PickKey(cfg, chain, k, leaf, l, p) == PickKey(cfg, chain, k, leaf, m, q)
    decreases MAX_NEST + 1 - |chain|, 0, 0
  {
    if !leaf && Known(cfg, k) && |chain| - 1 < MAX_NEST && k !in chain {
      GroupCertain(cfg, chain + [k], l, p, m, q);
    }
  }

  /** How often a pack is hit in all. */
  function Amount(draws: seq<Draw>, pack: int): int {
    if draws == [] then 0
    else Amount(draws[..|draws| - 1], pack) + if draws[|draws| - 1].pack == pack then draws[|draws| - 1].mult else 0
  }

  lemma {:induction false} AmountAppend(a: seq<Draw>, b: seq<Draw>, pack: int)
    ensures Amount(a + b, pack) == Amount(a, pack) + Amount(b, pack)
  {
    if b == [] {
      assert a + b == a;
    } else {
      assert (a + b)[..|a + b| - 1] == a + b[..|b| - 1];
      AmountAppend(a, b[..|b| - 1], pack);
    }
  }

  lemma {:induction false} AmountMultiplied(draws: seq<Draw>, n: int, pack: int)
    ensures Amount(Multiplied(draws, n), pack) == Amount(draws, pack) * n
  {
    if draws != [] {
      assert Multiplied(draws, n)[..|draws| - 1] == Multiplied(draws[..|draws| - 1], n);
      AmountMultiplied(draws[..|draws| - 1], n, pack);
      var last := draws[|draws| - 1];
      Distributes(Amount(draws[..|draws| - 1], pack), if last.pack == pack then last.mult else 0, n);
    }
  }

  lemma Distributes(a: int, b: int, n: int)
    ensures (a + b) * n == a * n + b * n
  {
  }

  /** Choosing once and multiplying gives the same packs in all as choosing that many times, provided
      nothing in the configuration is left to chance. */
  lemma MultiplyingIsRepeating(cfg: Config, chain: seq<int>, row: Row, leaf: bool, luck: Luck, path: Path, pack: int)
    requires ConfigOk(cfg) && chain != [] && |chain| <= MAX_NEST + 1 && Certain(cfg) && RowOk(row) && CertainRow(row)
    ensures Amount(ResolveRow(cfg, chain, row.(multiplies := true), leaf, luck, path), pack)
            == Amount(ResolveRow(cfg, chain, row.(multiplies := false), leaf, luck, path), pack)
  {
    hide SelectOnce, Repeated, Amount, Multiplied, Certain, ConfigOk;
    var once, many := row.(multiplies := true), row.(multiplies := false);
    var base := SelectOnce(cfg, chain, once, leaf, luck, path + [0]);
    AmountMultiplied(base, Times(row), pack);
    OnceSame(cfg, chain, row, leaf, luck, path + [0]);
    AmountRepeated(cfg, chain, many, leaf, luck, path, Times(row), pack);
  }

  /** Selecting does not depend on whether the row multiplies. */
  lemma OnceSame(cfg: Config, chain: seq<int>, row: Row, leaf: bool, luck: Luck, path: Path)
    requires ConfigOk(cfg) && chain != [] && |chain| <= MAX_NEST + 1 && RowOk(row) && CertainRow(row)
    ensures SelectOnce(cfg, chain, row.(multiplies := true), leaf, luck, path)
            == SelectOnce(cfg, chain, row.(multiplies := false), leaf, luck, path)
  {
    if row.way.All? {
      KeysSame(cfg, chain, row, |row.keys|, leaf, luck, path);
    }
  }

  lemma {:induction false} KeysSame(cfg: Config, chain: seq<int>, row: Row, n: nat, leaf: bool, luck: Luck, path: Path)
    requires ConfigOk(cfg) && chain != [] && |chain| <= MAX_NEST + 1 && RowOk(row) && n <= |row.keys|
    ensures SelectKeys(cfg, chain, row.(multiplies := true), n, leaf, luck, path)
            == SelectKeys(cfg, chain, row.(multiplies := false), n, leaf, luck, path)
  {
    if n > 0 {
      KeysSame(cfg, chain, row, n - 1, leaf, luck, path);
    }
  }

  lemma {:induction false} AmountRepeated(cfg: Config, chain: seq<int>, row: Row, leaf: bool, luck: Luck, path: Path,
                                          n: nat, pack: int)
    requires ConfigOk(cfg) && chain != [] && |chain| <= MAX_NEST + 1 && Certain(cfg) && RowOk(row) && CertainRow(row)
    ensures Amount(Repeated(cfg, chain, row, leaf, luck, path, n), pack)
            == Amount(SelectOnce(cfg, chain, row, leaf, luck, path + [0]), pack) * n
  {
    hide SelectOnce, Amount, Certain, ConfigOk;
    if n > 0 {
      AmountRepeated(cfg, chain, row, leaf, luck, path, n - 1, pack);
      AmountAppend(Repeated(cfg, chain, row, leaf, luck, path, n - 1), SelectOnce(cfg, chain, row, leaf, luck, path + [n]), pack);
      OnceCertain(cfg, chain, row, leaf, luck, path + [n], luck, path + [0]);
      hide Repeated;
      Distributes(n - 1, 1, Amount(SelectOnce(cfg, chain, row, leaf, luck, path + [0]), pack));
    } else {
      EmptyAmount(pack);
    }
  }

  lemma EmptyAmount(pack: int)
    ensures Amount([], pack) == 0
  {
  }
}
