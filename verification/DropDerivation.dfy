/** Which packs a drop group hits, as derivations: data that names every choice on the way from the
    group to the pack (src/mainsvr/role/drop_group.go). */
module DropDerivation {
  import opened Options
  import opened DropGroup
  import WeightedPick

  // ---- derivations ---------------------------------------------------------------------------------------

  /** One choice: a row of the group, which repetition of its selection, and a key of the row. */
  datatype Choice = Choice(row: nat, time: nat, key: nat)

  /** A row that multiplies selects once, under number 0; any other selects under 1, 2, up to its count. */
  predicate TimeOk(row: Row, time: nat) {
    if row.multiplies then time == 0 else 1 <= time <= Times(row)
  }

  /** What a choice in this row counts for. */
  function Factor(row: Row): nat {
    if row.multiplies then Times(row) else 1
  }

  /** The selection at `path` takes key number `j` of the row. */
  ghost predicate Takes(row: Row, luck: Luck, path: Path, j: nat)
    requires RowOk(row) && j < |row.keys|
  {
    match row.way
    case All => true
    case ByChance => Hit(row.rates[j], luck(path + [j + 1]))
    case ByWeight => Wins(row, luck(path), j)
    case Unknown => false
  }

  /** Where the group named by key number `j` is expanded. */
  function Beyond(row: Row, path: Path, j: nat): Path {
    path + [if row.way.ByWeight? then j else j + 1]
  }

  /** A choice that the group at the end of `chain` allows and the luck makes. */
  ghost predicate Made(cfg: Config, chain: seq<int>, luck: Luck, path: Path, c: Choice)
    requires ConfigOk(cfg) && chain != []
  {
    var g := chain[|chain| - 1];
    && Known(cfg, g) && !cfg[g][0].banned && c.row < |cfg[g]| && !cfg[g][c.row].banned
    && TimeOk(cfg[g][c.row], c.time) && c.key < |cfg[g][c.row].keys|
    && Takes(cfg[g][c.row], luck, path + [c.row + 1] + [c.time], c.key)
  }

  /** The draw a derivation ends in, if it is one: every choice but the last names a group of a
      combination, not yet on the chain and not nested too deep; the last ends in a pack, which is a key
      of a leaf group or one that names no group. The draw counts the product of the factors. */
  ghost function End(cfg: Config, chain: seq<int>, luck: Luck, path: Path, ds: seq<Choice>): Option<Draw>
    requires ConfigOk(cfg) && chain != []
    decreases |ds|
  {
    if ds == [] || !Made(cfg, chain, luck, path, ds[0]) then None
    else
      var rows, c := cfg[chain[|chain| - 1]], ds[0];
      var k := rows[c.row].keys[c.key];
      if !rows[0].combo || !Known(cfg, k) then
        if |ds| == 1 then Some(Draw(k, Factor(rows[c.row]), chain)) else None
      else if |chain| > 6 || k in chain then None
      else
        var end := End(cfg, chain + [k], luck, Beyond(rows[c.row], path + [c.row + 1] + [c.time], c.key), ds[1..]);
        if end.Some? then Some(Scaled(end.value, Factor(rows[c.row]))) else None
  }

  function Scaled(d: Draw, n: int): Draw {
    d.(mult := d.mult * n)
  }

  // ---- lists of derivations ---------------------------------------------------------------------------------

  /** Which first choices are meant. */
  datatype Only =
    | Anything
    | RowsBelow(n: nat)
    | InRow(r: nat)
    | UpTo(r: nat, n: nat)
    | AtTime(r: nat, t: nat)
    | KeysBelow(r: nat, t: nat, n: nat)
    | AtKey(r: nat, t: nat, k: nat)

  predicate Meant(only: Only, c: Choice) {
    match only
    case Anything => true
    case RowsBelow(n) => c.row < n
    case InRow(r) => c.row == r
    case UpTo(r, n) => c.row == r && 1 <= c.time <= n
    case AtTime(r, t) => c.row == r && c.time == t
    case KeysBelow(r, t, n) => c.row == r && c.time == t && c.key < n
    case AtKey(r, t, k) => c == Choice(r, t, k)
  }

  /** A place in the expansion. */
  datatype Place = Place(cfg: Config, chain: seq<int>, luck: Luck, path: Path)

  ghost predicate PlaceOk(at: Place) {
    ConfigOk(at.cfg) && at.chain != [] && |at.chain| <= MAX_NEST + 1
  }

  ghost predicate Leads(at: Place, only: Only, ds: seq<Choice>)
    requires PlaceOk(at)
  {
    ds != [] && Meant(only, ds[0]) && End(at.cfg, at.chain, at.luck, at.path, ds).Some?
  }

  ghost predicate EndsIn(at: Place, ds: seq<Choice>, d: Draw)
    requires PlaceOk(at)
  {
    End(at.cfg, at.chain, at.luck, at.path, ds) == Some(d)
  }

  /** `all` lists the derivations that are meant, each once, in the order of the draws they end in; `f`
      is the factor the draws still lack. */
  ghost predicate Lists(at: Place, only: Only, all: seq<seq<Choice>>, draws: seq<Draw>, f: int)
    requires PlaceOk(at)
  {
    && |all| == |draws|
    && (forall i, j :: 0 <= i < j < |all| ==> all[i] != all[j])
    && (forall ds :: ds in all <==> Leads(at, only, ds))
    && (forall i :: 0 <= i < |all| ==> EndsIn(at, all[i], Scaled(draws[i], f)))
  }

  ghost predicate Splits(at: Place, only: Only, a: Only, b: Only)
    requires PlaceOk(at)
  {
    && (forall ds :: Leads(at, only, ds) <==> Leads(at, a, ds) || Leads(at, b, ds))
    && (forall ds :: !(Leads(at, a, ds) && Leads(at, b, ds)))
  }

  lemma ListsJoined(at: Place, only: Only, a: Only, b: Only, all: seq<seq<Choice>>, more: seq<seq<Choice>>,
                    draws: seq<Draw>, rest: seq<Draw>, f: int)
    requires PlaceOk(at) && Lists(at, a, all, draws, f) && Lists(at, b, more, rest, f) && Splits(at, only, a, b)
    ensures Lists(at, only, all + more, draws + rest, f)
  {
    hide Leads, EndsIn, Scaled;
    var joined := all + more;
    forall i, j | 0 <= i < j < |joined|
      ensures joined[i] != joined[j]
    {
      if i < |all| && j >= |all| {
        assert Leads(at, a, joined[i]) by {
          assert joined[i] in all;
        }
        assert joined[j] == more[j - |all|] && more[j - |all|] in more;
      } else if i >= |all| {
        assert more[i - |all|] != more[j - |all|];
      }
    }
    forall i | 0 <= i < |joined|
      ensures EndsIn(at, joined[i], Scaled((draws + rest)[i], f))
    {
      if i >= |all| {
        assert joined[i] == more[i - |all|];
      }
    }
  }

  lemma ListsSame(at: Place, only: Only, a: Only, all: seq<seq<Choice>>, draws: seq<Draw>, f: int)
    requires PlaceOk(at) && Lists(at, a, all, draws, f) && forall ds :: Leads(at, only, ds) <==> Leads(at, a, ds)
    ensures Lists(at, only, all, draws, f)
  {
    hide Leads, EndsIn, Scaled;
  }

  lemma ListsNone(at: Place, only: Only, f: int)
    requires PlaceOk(at) && forall ds :: !Leads(at, only, ds)
    ensures Lists(at, only, [], [], f)
  {
  }

  lemma ListsMultiplied(at: Place, only: Only, all: seq<seq<Choice>>, draws: seq<Draw>, f: int)
    requires PlaceOk(at) && Lists(at, only, all, draws, f)
    ensures Lists(at, only, all, Multiplied(draws, f), 1)
  {
    hide Leads, EndsIn;
    forall i | 0 <= i < |all|
      ensures Scaled(Multiplied(draws, f)[i], 1) == Scaled(draws[i], f)
    {
    }
  }

  // ---- every level of the expansion -----------------------------------------------------------------------

  ghost function RowAt(at: Place, r: nat): Row
    requires PlaceOk(at) && Open(at) && r < |at.cfg[at.chain[|at.chain| - 1]]|
  {
    at.cfg[at.chain[|at.chain| - 1]][r]
  }

  /** The group is there and enabled. */
  ghost predicate Open(at: Place)
    requires PlaceOk(at)
  {
    var g := at.chain[|at.chain| - 1];
    Known(at.cfg, g) && !at.cfg[g][0].banned
  }

  ghost predicate HasRow(at: Place, r: nat)
    requires PlaceOk(at)
  {
    Open(at) && r < |at.cfg[at.chain[|at.chain| - 1]]| && RowOk(RowAt(at, r)) && !RowAt(at, r).banned
  }

  ghost predicate Leaf(at: Place)
    requires PlaceOk(at) && Open(at)
  {
    !RowAt(at, 0).combo
  }

  function PathOf(path: Path, r: nat, t: nat): Path {
    path + [r + 1] + [t]
  }

  lemma UnmadeLeadsNowhere(at: Place, c: Choice)
    requires PlaceOk(at) && !Made(at.cfg, at.chain, at.luck, at.path, c)
    ensures Lists(at, AtKey(c.row, c.time, c.key), [], [], 1)
    ensures forall f :: Lists(at, AtKey(c.row, c.time, c.key), [], [], f)
    ensures forall ds :: !Leads(at, AtKey(c.row, c.time, c.key), ds)
  {
  }

  lemma {:induction false} KeyLists(at: Place, c: Choice) returns (all: seq<seq<Choice>>)
    requires PlaceOk(at) && HasRow(at, c.row) && Made(at.cfg, at.chain, at.luck, at.path, c)
    ensures var row := RowAt(at, c.row);
            Lists(at, AtKey(c.row, c.time, c.key), all,
                  PickKey(at.cfg, at.chain, row.keys[c.key], Leaf(at), at.luck,
                          Beyond(row, PathOf(at.path, c.row, c.time), c.key)), Factor(row))
    decreases MAX_NEST + 1 - |at.chain|, 0, 0
  {
    var row := RowAt(at, c.row);
    var k, beyond := row.keys[c.key], Beyond(row, PathOf(at.path, c.row, c.time), c.key);
    if Leaf(at) || !Known(at.cfg, k) {
      all := [[c]];
      PackLists(at, c);
    } else if |at.chain| - 1 >= MAX_NEST || k in at.chain {
      all := [];
    } else {
      var next := Place(at.cfg, at.chain + [k], at.luck, beyond);
      var inner := GroupLists(next);
      all := Prefixed(c, inner);
      hide ResolveGroup;
      PrefixedLists(at, next, c, inner, ResolveGroup(at.cfg, at.chain + [k], at.luck, beyond));
    }
  }

  /** A derivation that ends with its first choice. */
  lemma PackLists(at: Place, c: Choice)
    requires PlaceOk(at) && HasRow(at, c.row) && Made(at.cfg, at.chain, at.luck, at.path, c)
    requires Leaf(at) || !Known(at.cfg, RowAt(at, c.row).keys[c.key])
    ensures Lists(at, AtKey(c.row, c.time, c.key), [[c]], [Draw(RowAt(at, c.row).keys[c.key], 1, at.chain)],
                  Factor(RowAt(at, c.row)))
  {
    forall ds
      ensures ds in [[c]] <==> Leads(at, AtKey(c.row, c.time, c.key), ds)
    {
      if Leads(at, AtKey(c.row, c.time, c.key), ds) {
        assert |ds| == 1 && ds == [c];
      }
    }
  }

  function Prefixed(c: Choice, inner: seq<seq<Choice>>): (all: seq<seq<Choice>>)
    ensures |all| == |inner| && forall i :: 0 <= i < |inner| ==> all[i] == [c] + inner[i]
  {
    seq(|inner|, i requires 0 <= i < |inner| => [c] + inner[i])
  }

  lemma EndBeyond(at: Place, next: Place, c: Choice, ds: seq<Choice>)
    requires PlaceOk(at) && HasRow(at, c.row) && Made(at.cfg, at.chain, at.luck, at.path, c) && PlaceOk(next)
    requires var row := RowAt(at, c.row);
             && !Leaf(at) && Known(at.cfg, row.keys[c.key]) && |at.chain| <= MAX_NEST && row.keys[c.key] !in at.chain
             && next == Place(at.cfg, at.chain + [row.keys[c.key]], at.luck,
                              Beyond(row, PathOf(at.path, c.row, c.time), c.key))
    ensures var end := End(next.cfg, next.chain, next.luck, next.path, ds);
            End(at.cfg, at.chain, at.luck, at.path, [c] + ds) ==
              if end.Some? then Some(Scaled(end.value, Factor(RowAt(at, c.row)))) else None
  {
    assert ([c] + ds)[1..] == ds;
    hide Made;
  }

  lemma PrefixedLists(at: Place, next: Place, c: Choice, inner: seq<seq<Choice>>, draws: seq<Draw>)
    requires PlaceOk(at) && HasRow(at, c.row) && Made(at.cfg, at.chain, at.luck, at.path, c) && PlaceOk(next)
    requires var row := RowAt(at, c.row);
             && !Leaf(at) && Known(at.cfg, row.keys[c.key]) && |at.chain| <= MAX_NEST && row.keys[c.key] !in at.chain
             && next == Place(at.cfg, at.chain + [row.keys[c.key]], at.luck,
                              Beyond(row, PathOf(at.path, c.row, c.time), c.key))
    requires Lists(next, Anything, inner, draws, 1)
    ensures Lists(at, AtKey(c.row, c.time, c.key), Prefixed(c, inner), draws, Factor(RowAt(at, c.row)))
  {
    var all, f, only := Prefixed(c, inner), Factor(RowAt(at, c.row)), AtKey(c.row, c.time, c.key);
    hide Made, Factor;
    forall ds
      ensures ds in all <==> Leads(at, only, ds)
    {
      if ds != [] && ds[0] == c {
        assert ds == [c] + ds[1..];
        EndBeyond(at, next, c, ds[1..]);
        assert Leads(next, Anything, ds[1..]) <==> ds[1..] in inner by { EmptyLeadsNowhere(next); }
        InPrefixed(c, inner, ds);
      } else {
        InPrefixed(c, inner, ds);
      }
    }
    forall i | 0 <= i < |all|
      ensures EndsIn(at, all[i], Scaled(draws[i], f))
    {
      EndBeyond(at, next, c, inner[i]);
      assert EndsIn(next, inner[i], Scaled(draws[i], 1));
      assert Scaled(draws[i], 1) == draws[i];
    }
    forall i, j | 0 <= i < j < |all|
      ensures all[i] != all[j]
    {
      assert all[i][1..] == inner[i] && all[j][1..] == inner[j];
    }
  }

  lemma EmptyLeadsNowhere(at: Place)
    requires PlaceOk(at)
    ensures End(at.cfg, at.chain, at.luck, at.path, []).None?
  {
  }

  lemma InPrefixed(c: Choice, inner: seq<seq<Choice>>, ds: seq<Choice>)
    ensures ds in Prefixed(c, inner) <==> ds != [] && ds[0] == c && ds[1..] in inner
  {
    var all := Prefixed(c, inner);
    if ds in all {
      var i :| 0 <= i < |all| && all[i] == ds;
      assert ds[1..] == inner[i];
    }
    if ds != [] && ds[0] == c && ds[1..] in inner {
      var i :| 0 <= i < |inner| && inner[i] == ds[1..];
      assert ds == [c] + ds[1..] == all[i];
    }
  }

  lemma {:induction false} KeysLists(at: Place, r: nat, t: nat, n: nat) returns (all: seq<seq<Choice>>)
    requires PlaceOk(at) && HasRow(at, r) && TimeOk(RowAt(at, r), t) && n <= |RowAt(at, r).keys|
    requires RowAt(at, r).way.All? || RowAt(at, r).way.ByChance?
    ensures var row := RowAt(at, r);
            Lists(at, KeysBelow(r, t, n), all,
                  SelectKeys(at.cfg, at.chain, row, n, Leaf(at), at.luck, PathOf(at.path, r, t)), Factor(row))
    decreases MAX_NEST + 1 - |at.chain|, 1, n
  {
    var row := RowAt(at, r);
    var path := PathOf(at.path, r, t);
    if n == 0 {
      all := [];
    } else {
      var before := KeysLists(at, r, t, n - 1);
      var c := Choice(r, t, n - 1);
      var these := [];
      var taken := row.way.All? || Hit(row.rates[n - 1], at.luck(path + [n]));
      var draws := if taken then PickKey(at.cfg, at.chain, row.keys[n - 1], Leaf(at), at.luck, path + [n]) else [];
      assert Made(at.cfg, at.chain, at.luck, at.path, c) <==> taken;
      if taken {
        these := KeyLists(at, c);
        assert Beyond(row, path, n - 1) == path + [n];
      } else {
        UnmadeLeadsNowhere(at, c);
      }
      all := before + these;
      hide Made, Leads;
      LastKeySplits(at, r, t, n);
      ListsJoined(at, KeysBelow(r, t, n), KeysBelow(r, t, n - 1), AtKey(r, t, n - 1), before, these,
                  SelectKeys(at.cfg, at.chain, row, n - 1, Leaf(at), at.luck, path), draws, Factor(row));
    }
  }

  lemma LastKeySplits(at: Place, r: nat, t: nat, n: nat)
    requires PlaceOk(at) && n > 0
    ensures Splits(at, KeysBelow(r, t, n), KeysBelow(r, t, n - 1), AtKey(r, t, n - 1))
  {
    hide End;
  }

  lemma {:induction false} OnceLists(at: Place, r: nat, t: nat) returns (all: seq<seq<Choice>>)
    requires PlaceOk(at) && HasRow(at, r) && TimeOk(RowAt(at, r), t)
    ensures var row := RowAt(at, r);
            Lists(at, AtTime(r, t), all, SelectOnce(at.cfg, at.chain, row, Leaf(at), at.luck, PathOf(at.path, r, t)),
                  Factor(row))
    decreases MAX_NEST + 1 - |at.chain|, 1, |RowAt(at, r).keys| + 1
  {
    var row := RowAt(at, r);
    var path := PathOf(at.path, r, t);
    if row.way.ByWeight? {
      if i: nat :| i < |row.keys| && Wins(row, at.luck(path), i) {
        all := KeyLists(at, Choice(r, t, i));
        OneWinner(row, at.luck(path), i);
        WinnerOnly(at, r, t, i);
        ListsSame(at, AtTime(r, t), AtKey(r, t, i), all,
                  PickKey(at.cfg, at.chain, row.keys[i], Leaf(at), at.luck, path + [i]), Factor(row));
      } else {
        all := [];
        NothingTaken(at, r, t);
      }
    } else if row.way.Unknown? {
      all := [];
      NothingTaken(at, r, t);
    } else {
      all := KeysLists(at, r, t, |row.keys|);
      AllKeys(at, r, t);
      ListsSame(at, AtTime(r, t), KeysBelow(r, t, |row.keys|), all,
                SelectKeys(at.cfg, at.chain, row, |row.keys|, Leaf(at), at.luck, path), Factor(row));
    }
  }

  lemma OneWinner(row: Row, drawn: nat, i: nat)
    requires RowOk(row) && i < |row.keys| && Wins(row, drawn, i)
    ensures forall j: nat :: j < |row.keys| && Wins(row, drawn, j) ==> j == i
  {
    forall j: nat | j < |row.keys| && Wins(row, drawn, j)
      ensures j == i
    {
      WeightedPick.LandsOnce(WeightedPick.Clipped(row.rates), drawn % WeightedPick.ClippedTotal(row.rates), i, j);
    }
  }

  lemma WinnerOnly(at: Place, r: nat, t: nat, i: nat)
    requires PlaceOk(at) && HasRow(at, r) && RowAt(at, r).way.ByWeight? && i < |RowAt(at, r).keys|
    requires forall j: nat :: j < |RowAt(at, r).keys| && Wins(RowAt(at, r), at.luck(PathOf(at.path, r, t)), j) ==> j == i
    ensures forall ds :: Leads(at, AtTime(r, t), ds) <==> Leads(at, AtKey(r, t, i), ds)
  {
    hide Wins;
    forall ds | Leads(at, AtTime(r, t), ds)
      ensures Leads(at, AtKey(r, t, i), ds)
    {
      LeadsTakes(at, AtTime(r, t), ds);
    }
  }

  lemma LeadsTakes(at: Place, only: Only, ds: seq<Choice>)
    requires PlaceOk(at) && Leads(at, only, ds)
    ensures var c := ds[0];
            && HasRow(at, c.row) && c.key < |RowAt(at, c.row).keys|
            && Takes(RowAt(at, c.row), at.luck, PathOf(at.path, c.row, c.time), c.key)
  {
    hide Takes;
  }

  lemma NothingTaken(at: Place, r: nat, t: nat)
    requires PlaceOk(at) && HasRow(at, r)
    requires forall j: nat :: j < |RowAt(at, r).keys| ==> !Takes(RowAt(at, r), at.luck, PathOf(at.path, r, t), j)
    ensures forall ds :: !Leads(at, AtTime(r, t), ds)
  {
    hide Takes;
    forall ds
      ensures !Leads(at, AtTime(r, t), ds)
    {
      if Leads(at, AtTime(r, t), ds) {
        LeadsTakes(at, AtTime(r, t), ds);
      }
    }
  }

  lemma AllKeys(at: Place, r: nat, t: nat)
    requires PlaceOk(at) && HasRow(at, r)
    ensures forall ds :: Leads(at, AtTime(r, t), ds) <==> Leads(at, KeysBelow(r, t, |RowAt(at, r).keys|), ds)
  {
    hide Takes;
  }

  lemma {:induction false} RepeatedLists(at: Place, r: nat, n: nat) returns (all: seq<seq<Choice>>)
    requires PlaceOk(at) && HasRow(at, r) && !RowAt(at, r).multiplies && n <= Times(RowAt(at, r))
    ensures Lists(at, UpTo(r, n), all,
                  Repeated(at.cfg, at.chain, RowAt(at, r), Leaf(at), at.luck, at.path + [r + 1], n), 1)
    decreases MAX_NEST + 1 - |at.chain|, 2, n
  {
    if n == 0 {
      all := [];
    } else {
      var before := RepeatedLists(at, r, n - 1);
      var these := OnceLists(at, r, n);
      all := before + these;
      hide Leads, SelectOnce;
      LastTimeSplits(at, r, n);
      ListsJoined(at, UpTo(r, n), UpTo(r, n - 1), AtTime(r, n), before, these,
                  Repeated(at.cfg, at.chain, RowAt(at, r), Leaf(at), at.luck, at.path + [r + 1], n - 1),
                  SelectOnce(at.cfg, at.chain, RowAt(at, r), Leaf(at), at.luck, PathOf(at.path, r, n)), 1);
    }
  }

  lemma LastTimeSplits(at: Place, r: nat, n: nat)
    requires PlaceOk(at) && n > 0
    ensures Splits(at, UpTo(r, n), UpTo(r, n - 1), AtTime(r, n))
  {
    hide End;
  }

  lemma {:induction false} RowLists(at: Place, r: nat) returns (all: seq<seq<Choice>>)
    requires PlaceOk(at) && HasRow(at, r)
    ensures Lists(at, InRow(r), all,
                  ResolveRow(at.cfg, at.chain, RowAt(at, r), Leaf(at), at.luck, at.path + [r + 1]), 1)
    decreases MAX_NEST + 1 - |at.chain|, 3, 0
  {
    var row := RowAt(at, r);
    RowTimes(at, r);
    if row.multiplies {
      all := OnceLists(at, r, 0);
      hide SelectOnce;
      var base := SelectOnce(at.cfg, at.chain, row, Leaf(at), at.luck, PathOf(at.path, r, 0));
      ListsSame(at, InRow(r), AtTime(r, 0), all, base, Factor(row));
      if Times(row) > 1 {
        ListsMultiplied(at, InRow(r), all, base, Times(row));
      }
    } else {
      all := RepeatedLists(at, r, Times(row));
      hide Repeated;
      ListsSame(at, InRow(r), UpTo(r, Times(row)), all,
                Repeated(at.cfg, at.chain, row, Leaf(at), at.luck, at.path + [r + 1], Times(row)), 1);
    }
  }

  lemma RowTimes(at: Place, r: nat)
    requires PlaceOk(at) && HasRow(at, r)
    ensures var row := RowAt(at, r);
            forall ds :: Leads(at, InRow(r), ds) <==>
              if row.multiplies then Leads(at, AtTime(r, 0), ds) else Leads(at, UpTo(r, Times(row)), ds)
  {
    hide Takes;
  }

  lemma {:induction false} RowsLists(at: Place, n: nat) returns (all: seq<seq<Choice>>)
    requires PlaceOk(at) && Open(at) && n <= |at.cfg[at.chain[|at.chain| - 1]]|
    ensures Lists(at, RowsBelow(n), all,
                  ResolveRows(at.cfg, at.chain, at.cfg[at.chain[|at.chain| - 1]][..n], Leaf(at), at.luck, at.path), 1)
    decreases MAX_NEST + 1 - |at.chain|, 4, n
  {
    var rows := at.cfg[at.chain[|at.chain| - 1]];
    if n == 0 {
      all := [];
    } else {
      var before := RowsLists(at, n - 1);
      assert rows[..n][..n - 1] == rows[..n - 1];
      var these := [];
      var draws := if rows[n - 1].banned then []
                   else ResolveRow(at.cfg, at.chain, rows[n - 1], Leaf(at), at.luck, at.path + [n]);
      if rows[n - 1].banned {
        BannedLeadsNowhere(at, n - 1);
      } else {
        these := RowLists(at, n - 1);
      }
      all := before + these;
      hide Leads, ResolveRow;
      LastRowSplits(at, n);
      ListsJoined(at, RowsBelow(n), RowsBelow(n - 1), InRow(n - 1), before, these,
                  ResolveRows(at.cfg, at.chain, rows[..n - 1], Leaf(at), at.luck, at.path), draws, 1);
    }
  }

  lemma BannedLeadsNowhere(at: Place, r: nat)
    requires PlaceOk(at) && Open(at) && r < |at.cfg[at.chain[|at.chain| - 1]]| && RowAt(at, r).banned
    ensures Lists(at, InRow(r), [], [], 1)
  {
  }

  lemma LastRowSplits(at: Place, n: nat)
    requires PlaceOk(at) && n > 0
    ensures Splits(at, RowsBelow(n), RowsBelow(n - 1), InRow(n - 1))
  {
    hide End;
  }

  /** The expansion of a group is complete and no more than that: its draws are the ends of the
      derivations, of each one once. */
  lemma {:induction false} GroupLists(at: Place) returns (all: seq<seq<Choice>>)
    requires PlaceOk(at)
    ensures Lists(at, Anything, all, ResolveGroup(at.cfg, at.chain, at.luck, at.path), 1)
    decreases MAX_NEST + 1 - |at.chain|, 5, 0
  {
    if Open(at) {
      var rows := at.cfg[at.chain[|at.chain| - 1]];
      all := RowsLists(at, |rows|);
      assert rows[..|rows|] == rows;
      hide ResolveRows;
      AllRows(at);
      ListsSame(at, Anything, RowsBelow(|rows|), all,
                ResolveRows(at.cfg, at.chain, rows, Leaf(at), at.luck, at.path), 1);
    } else {
      all := [];
    }
  }

  lemma AllRows(at: Place)
    requires PlaceOk(at) && Open(at)
    ensures forall ds :: Leads(at, Anything, ds) <==> Leads(at, RowsBelow(|at.cfg[at.chain[|at.chain| - 1]]|), ds)
  {
    hide Takes;
  }

  // ---- what follows -------------------------------------------------------------------------------------------

  /** A pack is hit exactly when there is a derivation of it. */
  lemma HitExactly(at: Place, pack: int)
    requires PlaceOk(at)
    ensures (exists d :: d in ResolveGroup(at.cfg, at.chain, at.luck, at.path) && d.pack == pack)
            <==> exists ds, d :: EndsIn(at, ds, d) && d.pack == pack
  {
    var all := GroupLists(at);
    var draws := ResolveGroup(at.cfg, at.chain, at.luck, at.path);
    hide ResolveGroup, End;
    if d :| d in draws && d.pack == pack {
      var i :| 0 <= i < |draws| && draws[i] == d;
      assert EndsIn(at, all[i], Scaled(draws[i], 1)) && Scaled(draws[i], 1).pack == pack;
    }
    if ds, d :| EndsIn(at, ds, d) && d.pack == pack {
      EmptyLeadsNowhere(at);
      assert Leads(at, Anything, ds) && ds in all;
      var i :| 0 <= i < |all| && all[i] == ds;
      assert EndsIn(at, all[i], Scaled(draws[i], 1));
      assert draws[i] in draws;
    }
  }

  /** What a list of derivations adds up to for a pack. */
  ghost function SumOver(at: Place, all: seq<seq<Choice>>, pack: int): int
    requires PlaceOk(at)
  {
    if all == [] then 0
    else
      var end := End(at.cfg, at.chain, at.luck, at.path, all[|all| - 1]);
      SumOver(at, all[..|all| - 1], pack) + if end.Some? && end.value.pack == pack then end.value.mult else 0
  }

  /** How often a pack is hit in all: the sum, over all derivations, of the products of their factors. */
  lemma AmountExactly(at: Place, pack: int) returns (all: seq<seq<Choice>>)
    requires PlaceOk(at)
    ensures forall ds :: ds in all <==> Leads(at, Anything, ds)
    ensures forall i, j :: 0 <= i < j < |all| ==> all[i] != all[j]
    ensures Amount(ResolveGroup(at.cfg, at.chain, at.luck, at.path), pack) == SumOver(at, all, pack)
  {
    all := GroupLists(at);
    SumIsAmount(at, all, ResolveGroup(at.cfg, at.chain, at.luck, at.path), pack);
  }

  lemma {:induction false} SumIsAmount(at: Place, all: seq<seq<Choice>>, draws: seq<Draw>, pack: int)
    requires PlaceOk(at) && |all| == |draws| && forall i :: 0 <= i < |all| ==> EndsIn(at, all[i], Scaled(draws[i], 1))
    ensures Amount(draws, pack) == SumOver(at, all, pack)
    decreases |all|
  {
    if all != [] {
      var n := |all| - 1;
      SumIsAmount(at, all[..n], draws[..n], pack);
      assert EndsIn(at, all[n], Scaled(draws[n], 1));
    }
  }
}
