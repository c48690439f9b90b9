/** The hash ring of lib/service/svrinstmgr/consistent_hash.go and the routing tables of
    lib/service/svrinstmgr/svr_inst_mgr.go. The checksum of a point and of a key are parameters. */
module ConsistentHash {
  type Node = nat

  function Elements(s: seq<Node>): set<Node> {
    set n | n in s
  }

  datatype RingPoint = RingPoint(hash: nat, node: Node)

  type PointHash = (Node, nat) -> nat

  // ---- which point serves a hash ---------------------------------------------------------------------------

  /** The points of all virtual nodes. */
  ghost function PointSet(nodes: set<Node>, vnodes: nat, point: PointHash): set<RingPoint> {
    set n, i | n in nodes && 0 <= i < vnodes :: RingPoint(point(n, i), n)
  }

  /** `p` has the least hash not below `h`, or the least of all when there is none. */
  ghost predicate Owns(ps: set<RingPoint>, h: nat, p: RingPoint) {
    && p in ps
    && (if p.hash >= h then forall q :: q in ps && q.hash >= h ==> p.hash <= q.hash
        else forall q :: q in ps ==> q.hash < h && p.hash <= q.hash)
  }

  ghost predicate CollisionFree(ps: set<RingPoint>) {
    forall p, q :: p in ps && q in ps && p.hash == q.hash ==> p == q
  }

  /** The node a hash is routed to; 0 stands for none. */
  ghost predicate Routes(nodes: set<Node>, vnodes: nat, point: PointHash, h: nat, node: Node) {
    if nodes == {} then node == 0
    else exists p :: Owns(PointSet(nodes, vnodes, point), h, p) && p.node == node
  }

  /** A point that is added to a collision-free ring takes hashes over, but moves none between the
      others. */
  lemma OwnerAfterAdding(ps: set<RingPoint>, extra: set<RingPoint>, h: nat, p: RingPoint, q: RingPoint)
    requires CollisionFree(ps + extra) && Owns(ps, h, p) && Owns(ps + extra, h, q)
    ensures q == p || q in extra
  {
    assert p in ps + extra;
  }

  lemma OwnersAgree(ps: set<RingPoint>, h: nat, p: RingPoint, q: RingPoint)
    requires CollisionFree(ps) && Owns(ps, h, p) && Owns(ps, h, q)
    ensures p == q
  {
  }

  lemma PointsOfUnion(nodes: set<Node>, n: Node, vnodes: nat, point: PointHash)
    ensures PointSet(nodes + {n}, vnodes, point) == PointSet(nodes, vnodes, point) + PointSet({n}, vnodes, point)
    ensures forall p :: p in PointSet({n}, vnodes, point) ==> p.node == n
  {
    var a, b := PointSet(nodes + {n}, vnodes, point), PointSet(nodes, vnodes, point) + PointSet({n}, vnodes, point);
    forall p
      ensures p in a <==> p in b
    {
      if p in a {
        var m, i :| m in nodes + {n} && 0 <= i < vnodes && p == RingPoint(point(m, i), m);
        if m in nodes {
          assert p in PointSet(nodes, vnodes, point);
        } else {
          assert p in PointSet({n}, vnodes, point);
        }
      }
    }
    assert a == b;
  }

  lemma {:induction false} PointsOfOne(n: Node, vnodes: nat, point: PointHash)
    requires forall i, j :: 0 <= i < j < vnodes ==> point(n, i) != point(n, j)
    ensures |PointSet({n}, vnodes, point)| == vnodes
  {
    var all := PointSet({n}, vnodes, point);
    if vnodes == 0 {
      assert all == {};
    } else {
      var rest, last := PointSet({n}, vnodes - 1, point), RingPoint(point(n, vnodes - 1), n);
      PointsOfOne(n, vnodes - 1, point);
      forall p
        ensures p in all <==> p in rest + {last}
      {
        if p in all {
          var i :| 0 <= i < vnodes && p == RingPoint(point(n, i), n);
          assert i < vnodes - 1 ==> p in rest;
        }
      }
      assert all == rest + {last} && last !in rest;
    }
  }

  lemma OneMoreNode(nodes: set<Node>, n: Node, vnodes: nat, point: PointHash)
    requires n !in nodes
    ensures |PointSet(nodes + {n}, vnodes, point)| == |PointSet(nodes, vnodes, point)| + |PointSet({n}, vnodes, point)|
  {
    PointsOfUnion(nodes, n, vnodes, point);
    var a, b := PointSet(nodes, vnodes, point), PointSet({n}, vnodes, point);
    assert forall p :: p in a ==> p.node != n;
    hide PointSet;
    assert a !! b;
  }

  lemma OneMoreTimes(k: nat, v: nat)
    ensures (k + 1) * v == k * v + v
  {
  }

  /** Every node has as many points as it has virtual nodes, unless two of its own collide. */
  lemma {:induction false} PointsPerNode(nodes: set<Node>, vnodes: nat, point: PointHash)
    requires forall n, i, j :: n in nodes && 0 <= i < j < vnodes ==> point(n, i) != point(n, j)
    ensures |PointSet(nodes, vnodes, point)| == |nodes| * vnodes
    decreases |nodes|
  {
    if nodes == {} {
      assert PointSet(nodes, vnodes, point) == {};
    } else {
      hide PointSet;
      var n :| n in nodes;
      var rest := nodes - {n};
      PointsPerNode(rest, vnodes, point);
      PointsOfOne(n, vnodes, point);
      OneMoreNode(rest, n, vnodes, point);
      assert rest + {n} == nodes;
      OneMoreTimes(|rest|, vnodes);
    }
  }

  /** Adding a node moves keys only to that node. */
  lemma AddingMovesToNew(nodes: set<Node>, n: Node, vnodes: nat, point: PointHash, h: nat, before: Node, after: Node)
    requires CollisionFree(PointSet(nodes + {n}, vnodes, point))
    requires Routes(nodes, vnodes, point, h, before) && Routes(nodes + {n}, vnodes, point, h, after)
    ensures after == before || after == n
  {
    PointsOfUnion(nodes, n, vnodes, point);
    hide PointSet;
    assert n in nodes + {n};
    var ps, extra := PointSet(nodes, vnodes, point), PointSet({n}, vnodes, point);
    var q :| Owns(PointSet(nodes + {n}, vnodes, point), h, q) && q.node == after;
    if nodes == {} {
      assert nodes + {n} == {n};
    } else {
      var p :| Owns(ps, h, p) && p.node == before;
      OwnerAfterAdding(ps, extra, h, p, q);
    }
  }

  /** Removing a node moves only the keys it served. */
  lemma RemovingMovesOwn(nodes: set<Node>, n: Node, vnodes: nat, point: PointHash, h: nat, before: Node, after: Node)
    requires CollisionFree(PointSet(nodes, vnodes, point))
    requires Routes(nodes, vnodes, point, h, before) && Routes(nodes - {n}, vnodes, point, h, after)
    ensures before != n ==> after == before
  {
    if n in nodes {
      assert forall x :: x in nodes - {n} + {n} <==> x in nodes;
      assert nodes - {n} + {n} == nodes;
      AddingMovesToNew(nodes - {n}, n, vnodes, point, h, after, before);
    } else {
      assert forall x :: x in nodes - {n} <==> x in nodes;
      assert nodes - {n} == nodes;
      RoutesAgree(nodes, vnodes, point, h, before, after);
    }
  }

  /** A collision-free ring routes a hash to one node only. */
  lemma RoutesAgree(nodes: set<Node>, vnodes: nat, point: PointHash, h: nat, a: Node, b: Node)
    requires CollisionFree(PointSet(nodes, vnodes, point))
    requires Routes(nodes, vnodes, point, h, a) && Routes(nodes, vnodes, point, h, b)
    ensures a == b
  {
    hide PointSet;
    if nodes != {} {
      var p :| Owns(PointSet(nodes, vnodes, point), h, p) && p.node == a;
      var q :| Owns(PointSet(nodes, vnodes, point), h, q) && q.node == b;
      OwnersAgree(PointSet(nodes, vnodes, point), h, p, q);
    }
  }

  // ---- sorted lists -------------------------------------------------------------------------------------------

  ghost predicate Ascending(s: seq<nat>) {
    forall i, j :: 0 <= i < j < |s| ==> s[i] < s[j]
  }

  ghost predicate NonDescending(s: seq<nat>) {
    forall i, j :: 0 <= i < j < |s| ==> s[i] <= s[j]
  }

  lemma AscendingParts(s: seq<nat>)
    requires Ascending(s) && s != []
    ensures Ascending(s[1..]) && s == [s[0]] + s[1..] && s[0] in s
    ensures forall x :: x in s ==> s[0] <= x
    ensures forall x :: x in s[1..] <==> x in s && x != s[0]
  {
  }

  /** An ascending list is determined by its elements. */
  lemma {:induction false} AscendingUnique(s: seq<nat>, t: seq<nat>)
    requires Ascending(s) && Ascending(t) && forall x :: x in s <==> x in t
    ensures s == t
  {
    hide Ascending;
    if s != [] {
      AscendingParts(s);
    }
    if t != [] {
      AscendingParts(t);
    }
    if s != [] && t != [] {
      assert s[0] == t[0];
      AscendingUnique(s[1..], t[1..]);
    }
  }

  lemma PrependLeast(x: nat, s: seq<nat>)
    requires NonDescending(s) && forall y :: y in s ==> x <= y
    ensures NonDescending([x] + s)
  {
    forall i | 0 <= i < |s|
      ensures x <= s[i]
    {
      assert s[i] in s;
    }
  }

  function Insert(s: seq<nat>, x: nat): (r: seq<nat>)
    requires NonDescending(s)
    ensures NonDescending(r) && |r| == |s| + 1 && forall y :: y in r <==> y in s || y == x
  {
    if s == [] || x <= s[0] then
      assert forall i :: 0 <= i < |s| ==> s[0] <= s[i];
      [x] + s
    else
      var r := Insert(s[1..], x);
      assert forall y :: y in r ==> s[0] <= y;
      PrependLeast(s[0], r);
      [s[0]] + r
  }

  function Sort(s: seq<nat>): (r: seq<nat>)
    ensures NonDescending(r) && |r| == |s| && forall y :: y in r <==> y in s
  {
    if s == [] then [] else Insert(Sort(s[1..]), s[0])
  }

  /** Uint32SliceDeduplicateSorted. */
  method Deduplicate(s: seq<nat>) returns (out: seq<nat>)
    requires NonDescending(s)
    ensures Ascending(out) && forall x :: x in out <==> x in s
  {
    if |s| <= 1 {
      return s;
    }
    out := [s[0]];
    var i := 1;
    while i < |s|
      invariant 1 <= i <= |s| && Ascending(out)
      invariant out != [] && out[|out| - 1] == s[i - 1]
      invariant forall x :: x in out <==> x in s[..i]
    {
      assert s[..i + 1] == s[..i] + [s[i]];
      if s[i] != out[|out| - 1] {
        out := out + [s[i]];
      }
      i := i + 1;
    }
    assert s[..i] == s;
  }

  // ---- the ring -------------------------------------------------------------------------------------------------

  ghost predicate Sorted(ring: seq<RingPoint>) {
    forall i, j :: 0 <= i < j < |ring| ==> ring[i].hash <= ring[j].hash
  }

  function InsertPoint(s: seq<RingPoint>, p: RingPoint): (r: seq<RingPoint>)
    requires Sorted(s)
    ensures Sorted(r) && |r| == |s| + 1 && forall q :: q in r <==> q in s || q == p
  {
    if s == [] || p.hash <= s[0].hash then [p] + s
    else
      var r := InsertPoint(s[1..], p);
      assert forall q :: q in r ==> s[0].hash <= q.hash;
      [s[0]] + r
  }

  function SortPoints(s: seq<RingPoint>): (r: seq<RingPoint>)
    ensures Sorted(r) && |r| == |s| && forall q :: q in r <==> q in s
  {
    if s == [] then [] else InsertPoint(SortPoints(s[1..]), s[0])
  }

  /** The points of one node, and of a list of nodes, in the order in which they are appended. */
  function NodePoints(n: Node, vnodes: nat, point: PointHash): seq<RingPoint> {
    if vnodes == 0 then [] else NodePoints(n, vnodes - 1, point) + [RingPoint(point(n, vnodes - 1), n)]
  }

  function Points(ns: seq<Node>, vnodes: nat, point: PointHash): seq<RingPoint> {
    if ns == [] then [] else Points(ns[..|ns| - 1], vnodes, point) + NodePoints(ns[|ns| - 1], vnodes, point)
  }

  /** The ring depends on the list of nodes alone, even where hashes collide. */
  function RingOver(ns: seq<Node>, vnodes: nat, point: PointHash): seq<RingPoint> {
    SortPoints(Points(ns, vnodes, point))
  }

  lemma {:induction false} NodePointsExact(n: Node, vnodes: nat, point: PointHash, p: RingPoint)
    ensures p in NodePoints(n, vnodes, point) <==> exists i: nat :: i < vnodes && p == RingPoint(point(n, i), n)
  {
    if vnodes > 0 {
      NodePointsExact(n, vnodes - 1, point, p);
      if p == RingPoint(point(n, vnodes - 1), n) {
        assert vnodes - 1 < vnodes;
      }
    }
  }

  lemma {:induction false} PointsExact(ns: seq<Node>, vnodes: nat, point: PointHash, p: RingPoint)
    ensures p in Points(ns, vnodes, point) <==> p in PointSet(Elements(ns), vnodes, point)
  {
    if ns != [] {
      var last := ns[|ns| - 1];
      PointsExact(ns[..|ns| - 1], vnodes, point, p);
      NodePointsExact(last, vnodes, point, p);
      assert ns == ns[..|ns| - 1] + [last];
    }
  }

  lemma RingExact(ns: seq<Node>, vnodes: nat, point: PointHash)
    ensures var ring := RingOver(ns, vnodes, point);
            Sorted(ring) && forall p :: p in ring <==> p in PointSet(Elements(ns), vnodes, point)
  {
    hide PointSet, Elements;
    forall p
      ensures p in Points(ns, vnodes, point) <==> p in PointSet(Elements(ns), vnodes, point)
    {
      PointsExact(ns, vnodes, point, p);
    }
  }

  /** Two ascending lists of the same nodes give the same ring. */
  lemma SameNodesSameRing(a: seq<Node>, b: seq<Node>, vnodes: nat, point: PointHash)
    requires Ascending(a) && Ascending(b) && Elements(a) == Elements(b)
    ensures a == b && RingOver(a, vnodes, point) == RingOver(b, vnodes, point)
  {
    assert forall x :: x in a <==> x in Elements(a);
    assert forall x :: x in b <==> x in Elements(b);
    AscendingUnique(a, b);
  }

  /** The node a ring gives a hash: that of the first point not below it, else of the first point. */
  function Lookup(ring: seq<RingPoint>, h: nat): Node {
    var idx := Below(ring, h);
    if ring == [] then 0 else ring[if idx == |ring| then 0 else idx].node
  }

  function Below(ring: seq<RingPoint>, h: nat): (n: nat)
    ensures n <= |ring|
  {
    if ring == [] || ring[0].hash >= h then 0 else 1 + Below(ring[1..], h)
  }

  lemma {:induction false} BelowIs(ring: seq<RingPoint>, h: nat, n: nat)
    requires n <= |ring| && (forall i :: 0 <= i < n ==> ring[i].hash < h) && (n < |ring| ==> ring[n].hash >= h)
    ensures Below(ring, h) == n
  {
    if n > 0 {
      BelowIs(ring[1..], h, n - 1);
    }
  }

  /** What the lookup means for the set of points. */
  lemma LookupRoutes(ns: seq<Node>, vnodes: nat, point: PointHash, h: nat)
    requires vnodes > 0
    ensures Routes(Elements(ns), vnodes, point, h, Lookup(RingOver(ns, vnodes, point), h))
  {
    hide PointSet, Elements, RingOver;
    var ring, ps := RingOver(ns, vnodes, point), PointSet(Elements(ns), vnodes, point);
    RingExact(ns, vnodes, point);
    NoPoints(Elements(ns), vnodes, point);
    BelowParts(ring, h);
    if ring != [] {
      var idx := Below(ring, h);
      var p := ring[if idx == |ring| then 0 else idx];
      assert p in ring && ring[0] in ring;
      assert Owns(ps, h, p);
    }
  }

  lemma {:induction false} BelowParts(ring: seq<RingPoint>, h: nat)
    requires Sorted(ring)
    ensures forall i :: 0 <= i < Below(ring, h) ==> ring[i].hash < h
    ensures forall i :: Below(ring, h) <= i < |ring| ==> ring[i].hash >= h
  {
    if ring != [] && ring[0].hash < h {
      BelowParts(ring[1..], h);
      assert forall i :: 1 <= i < |ring| ==> ring[i] == ring[1..][i - 1];
    }
  }

  const DEFAULT_VNODES: nat := 50

  class Ring {
    const vnodes: nat
    const point: PointHash
    const keyHash: nat -> nat
    var ring: seq<RingPoint>
    /** The nodes on the ring, in the order in which their points were added. */
    ghost var order: seq<Node>

    ghost predicate Valid()
      reads this
    {
      vnodes > 0 && ring == RingOver(order, vnodes, point)
    }

    constructor (vnodes: int, point: PointHash, keyHash: nat -> nat)
      ensures Valid() && order == [] && this.point == point && this.keyHash == keyHash
      ensures this.vnodes == if vnodes <= 0 then 50 else vnodes
    {
      this.vnodes := if vnodes <= 0 then DEFAULT_VNODES else vnodes;
      this.point, this.keyHash := point, keyHash;
      ring, order := [], [];
    }

    method ResetSorted(ns: seq<Node>)
      requires vnodes > 0
      modifies this
      ensures Valid() && order == ns
      ensures Sorted(ring) && forall p :: p in ring <==> p in PointSet(Elements(ns), vnodes, point)
    {
      var points: seq<RingPoint> := [];
      var k := 0;
      while k < |ns|
        invariant 0 <= k <= |ns| && points == Points(ns[..k], vnodes, point)
      {
        ghost var before := points;
        var i := 0;
        while i < vnodes
          invariant 0 <= i <= vnodes && points == before + NodePoints(ns[k], i, point)
        {
          points := points + [RingPoint(point(ns[k], i), ns[k])];
          i := i + 1;
        }
        assert ns[..k + 1][..k] == ns[..k];
        k := k + 1;
      }
      assert ns[..k] == ns;
      ring, order := SortPoints(points), ns;
      RingExact(ns, vnodes, point);
    }

    /** Any list of nodes, in any order and with repetitions: the ring is that of the ascending list. */
    method Reset(ns: seq<Node>)
      requires vnodes > 0
      modifies this
      ensures Valid() && Ascending(order) && Elements(order) == Elements(ns)
      ensures forall p :: p in ring <==> p in PointSet(Elements(ns), vnodes, point)
    {
      hide PointSet, RingOver;
      var sorted := Deduplicate(Sort(ns));
      assert forall n :: n in Elements(sorted) <==> n in Elements(ns);
      assert Elements(sorted) == Elements(ns);
      ResetSorted(sorted);
    }

    method Search(hash: nat) returns (lo: nat)
      requires Sorted(ring)
      ensures lo <= |ring|
      ensures forall i :: 0 <= i < lo ==> ring[i].hash < hash
      ensures forall i :: lo <= i < |ring| ==> ring[i].hash >= hash
    {
      var hi := |ring|;
      lo := 0;
      while lo < hi
        invariant 0 <= lo <= hi <= |ring|
        invariant forall i :: 0 <= i < lo ==> ring[i].hash < hash
        invariant forall i :: hi <= i < |ring| ==> ring[i].hash >= hash
      {
        var mid := lo + (hi - lo) / 2;
        if ring[mid].hash < hash {
          lo := mid + 1;
        } else {
          hi := mid;
        }
      }
    }

    method Get(key: nat) returns (node: Node)
      requires Valid()
      ensures node == Lookup(RingOver(order, vnodes, point), keyHash(key))
      ensures Routes(Elements(order), vnodes, point, keyHash(key), node)
    {
      hide RingOver, PointSet, Elements, Routes;
      LookupRoutes(order, vnodes, point, keyHash(key));
      RingExact(order, vnodes, point);
      if |ring| == 0 {
        return 0;
      }
      var idx := Search(keyHash(key));
      BelowIs(ring, keyHash(key), idx);
      if idx == |ring| {
        idx := 0;
      }
      node := ring[idx].node;
    }
  }

  lemma NoPoints(nodes: set<Node>, vnodes: nat, point: PointHash)
    requires vnodes > 0
    ensures nodes == {} <==> forall p :: p !in PointSet(nodes, vnodes, point)
  {
    if nodes != {} {
      SomeNode(nodes);
      var n: nat :| n in nodes;
      assert RingPoint(point(n, 0), n) in PointSet(nodes, vnodes, point);
    }
  }

  lemma SomeNode(nodes: set<Node>)
    ensures nodes == {} || exists n: nat :: n in nodes
  {
    assert (forall n: nat :: n !in nodes) ==> nodes == {};
  }

  // ---- the routing tables ---------------------------------------------------------------------------------------

  datatype Rule = RandomRule | HashRule | ConsistentRule | MasterRule

  /** A discovered service, or a nil entry. `bus` and its type are what its id parses to. */
  datatype Service = Missing | Service(bus: Node, kind: nat)

  ghost predicate Offers(services: seq<Service>, kind: nat, bus: Node) {
    Service(bus, kind) in services
  }

  /** For each type that occurs, its instances in ascending order and once each. */
  ghost predicate TableOf(services: seq<Service>, table: map<nat, seq<Node>>) {
    && (forall kind :: kind in table <==> exists bus :: Offers(services, kind, bus))
    && (forall kind :: kind in table ==> Ascending(table[kind]))
    && (forall kind, bus :: kind in table ==> (bus in table[kind] <==> Offers(services, kind, bus)))
  }

  /** The tables depend on the set of instances only, not on the order of discovery or on repetitions. */
  lemma TablesDependOnSet(a: seq<Service>, b: seq<Service>, ta: map<nat, seq<Node>>, tb: map<nat, seq<Node>>)
    requires TableOf(a, ta) && TableOf(b, tb)
    requires forall bus, kind :: Offers(a, kind, bus) <==> Offers(b, kind, bus)
    ensures ta == tb
  {
    hide Offers;
    forall kind
      ensures kind in ta <==> kind in tb
      ensures kind in ta ==> ta[kind] == tb[kind]
    {
      if kind in ta && kind in tb {
        AscendingUnique(ta[kind], tb[kind]);
      }
    }
    assert forall kind :: kind in ta <==> kind in tb;
    assert forall kind :: kind in ta ==> ta[kind] == tb[kind];
  }

  /** The ring over the instances of one type. */
  ghost predicate RingOf(ring: Ring, buses: seq<Node>, point: PointHash, keyHash: nat -> nat)
    reads ring
  {
    && ring.Valid() && ring.vnodes == DEFAULT_VNODES && ring.point == point && ring.keyHash == keyHash
    && ring.order == buses
  }

  class ServerTable {
    const rules: map<nat, Rule>
    const point: PointHash
    const keyHash: nat -> nat
    var table: map<nat, seq<Node>>
    var rings: map<nat, Ring>
    /** What the tables were last built from. */
    ghost var services: seq<Service>

    ghost predicate Valid()
      reads this, rings.Values
    {
      && TableOf(services, table)
      && (forall kind :: kind in rings <==> kind in table && kind in rules && rules[kind].ConsistentRule?)
      && (forall kind :: kind in rings ==> RingOf(rings[kind], table[kind], point, keyHash))
    }

    constructor (rules: map<nat, Rule>, point: PointHash, keyHash: nat -> nat)
      ensures Valid() && services == []
    {
      this.rules, this.point, this.keyHash := rules, point, keyHash;
      table, rings, services := map[], map[], [];
    }

    /** The first pass of refreshServices: instances by type, in order of discovery. */
    method GroupByType(found: seq<Service>) returns (grouped: map<nat, seq<Node>>)
      ensures forall kind :: kind in grouped <==> exists bus :: Offers(found, kind, bus)
      ensures forall kind, bus :: kind in grouped ==> (bus in grouped[kind] <==> Offers(found, kind, bus))
    {
      grouped := map[];
      var i := 0;
      while i < |found|
        invariant 0 <= i <= |found|
        invariant forall kind, bus :: Offers(found[..i], kind, bus) ==> kind in grouped
        invariant forall kind :: kind in grouped ==> grouped[kind] != []
        invariant forall kind, bus :: kind in grouped ==> (bus in grouped[kind] <==> Offers(found[..i], kind, bus))
      {
        assert found[..i + 1] == found[..i] + [found[i]];
        assert forall kind, bus :: Offers(found[..i + 1], kind, bus) <==>
                 Offers(found[..i], kind, bus) || found[i] == Service(bus, kind);
        hide Offers;
        if found[i].Service? {
          var s := found[i];
          if s.kind in grouped {
            grouped := grouped[s.kind := grouped[s.kind] + [s.bus]];
          } else {
            grouped := grouped[s.kind := [s.bus]];
          }
        }
        i := i + 1;
      }
      assert found[..i] == found;
      forall kind | kind in grouped
        ensures exists bus :: Offers(found, kind, bus)
      {
        assert Offers(found, kind, grouped[kind][0]);
      }
    }

    /** Sort and deduplicate one type. */
    method SortedInstances(buses: seq<Node>) returns (sorted: seq<Node>)
      ensures Ascending(sorted) && forall bus :: bus in sorted <==> bus in buses
    {
      sorted := Deduplicate(Sort(buses));
    }

    method BuildRing(sorted: seq<Node>) returns (ring: Ring)
      ensures fresh(ring) && RingOf(ring, sorted, point, keyHash)
    {
      ring := new Ring(DEFAULT_VNODES, point, keyHash);
      ring.ResetSorted(sorted);
    }

    /** The second pass of refreshServices, for one type. */
    method AddType(kind: nat, buses: seq<Node>)
      modifies this`table, this`rings
      ensures kind in table && table == old(table)[kind := table[kind]]
      ensures Ascending(table[kind]) && forall bus :: bus in table[kind] <==> bus in buses
      ensures forall k :: k in rings <==> k in old(rings) || (k == kind && k in rules && rules[k].ConsistentRule?)
      ensures forall k :: k in rings && k != kind ==> rings[k] == old(rings)[k]
      ensures kind in rules && rules[kind].ConsistentRule? ==>
                fresh(rings[kind]) && RingOf(rings[kind], table[kind], point, keyHash)
    {
      var sorted := SortedInstances(buses);
      table := table[kind := sorted];
      if kind in rules && rules[kind].ConsistentRule? {
        var ring := BuildRing(sorted);
        rings := rings[kind := ring];
      }
    }

    method FillTables(grouped: map<nat, seq<Node>>)
      requires table == map[] && rings == map[]
      modifies this`table, this`rings
      ensures forall kind :: kind in table <==> kind in grouped
      ensures forall kind :: kind in table ==> Ascending(table[kind])
      ensures forall kind, bus :: kind in table ==> (bus in table[kind] <==> bus in grouped[kind])
      ensures forall kind :: kind in rings <==> kind in table && kind in rules && rules[kind].ConsistentRule?
      ensures forall kind :: kind in rings ==> fresh(rings[kind]) && RingOf(rings[kind], table[kind], point, keyHash)
    {
      hide Ascending, RingOf;
      var todo := grouped.Keys;
      while todo != {}
        invariant todo <= grouped.Keys
        invariant forall kind :: kind in table <==> kind in grouped && kind !in todo
        invariant forall kind :: kind in table ==> Ascending(table[kind])
        invariant forall kind, bus :: kind in table ==> (bus in table[kind] <==> bus in grouped[kind])
        invariant forall kind :: kind in rings <==> kind in table && kind in rules && rules[kind].ConsistentRule?
        invariant forall kind :: kind in rings ==> fresh(rings[kind]) && RingOf(rings[kind], table[kind], point, keyHash)
        decreases |todo|
      {
        SomeNode(todo);
        var kind: nat :| kind in todo;
        todo := todo - {kind};
        AddType(kind, grouped[kind]);
      }
    }

    /** Rebuild both tables from what discovery reports. */
    method RefreshServices(found: seq<Service>)
      modifies this
      ensures Valid() && services == found
      ensures forall kind :: kind in rings ==> fresh(rings[kind])
    {
      hide Ascending, RingOf, Offers;
      var grouped := GroupByType(found);
      table, rings, services := map[], map[], found;
      FillTables(grouped);
    }

    /** Routing by remainder; 0 when there is no instance. */
    method GetByHash(kind: nat, id: nat) returns (node: Node)
      requires Valid()
      ensures if kind in table then Offers(services, kind, node) && node == table[kind][id % |table[kind]|] else node == 0
    {
      if kind !in table {
        return 0;
      }
      var svrs := table[kind];
      ghost var bus :| Offers(services, kind, bus);
      assert bus in svrs;
      node := svrs[id % |svrs|];
      assert node in svrs;
    }

    /** The instance with the least id. */
    method GetMaster(kind: nat) returns (node: Node)
      requires Valid()
      ensures if kind in table then Offers(services, kind, node) && forall bus :: Offers(services, kind, bus) ==> node <= bus
              else node == 0
    {
      if kind !in table {
        return 0;
      }
      var svrs := table[kind];
      ghost var some :| Offers(services, kind, some);
      assert some in svrs;
      node := svrs[0];
      assert node in svrs;
      forall bus | Offers(services, kind, bus)
        ensures node <= bus
      {
        assert bus in svrs;
      }
    }

    /** The cached ring, or one built for the occasion: the route is the same, collisions or not. */
    method GetByConsistentHash(kind: nat, key: nat) returns (node: Node)
      requires Valid()
      ensures kind !in table ==> node == 0
      ensures kind in table ==> node == Lookup(RingOver(table[kind], 50, point), keyHash(key))
      ensures kind in table ==> Routes(Elements(table[kind]), 50, point, keyHash(key), node)
    {
      hide RingOver, Routes, PointSet, Elements, Offers;
      if kind !in table {
        return 0;
      }
      if kind in rings {
        node := rings[kind].Get(key);
      } else {
        var ring := new Ring(DEFAULT_VNODES, point, keyHash);
        ring.Reset(table[kind]);
        SameNodesSameRing(ring.order, table[kind], DEFAULT_VNODES, point);
        node := ring.Get(key);
      }
    }
  }
}
