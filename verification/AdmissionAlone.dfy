/** What admission grants and refuses when nothing interferes (lib/net/net_mgr/admission.go,
    lib/net/net_mgr/tcp_impl.go). */
module AdmissionAlone {
  import opened Admission

  // ---- connections ----------------------------------------------------------------------------------------

  function GateSteps(g: Gate, steps: seq<GateStep>): Gate
    decreases |steps|
  {
    if steps == [] || !GateEnabled(g, steps[0]) then g else GateSteps(GateNext(g, steps[0]), steps[1..])
  }

  /** Undisturbed, OnConn opens a connection exactly when a slot is left: it then holds a slot and a
      lease and is counted; a refused connection leaves every count as it was. */
  lemma OpensExactly(g: Gate, c: nat)
    requires GateInv(g) && c < |g.conns| && g.conns[c].Asking?
    ensures GateSteps(g, [Load(c), Swap(c), MarkAdmitted(c), Count(c)]) ==
              if |Holders(g.conns, HasSlot)| < g.max then
                g.(reserved := g.reserved + 1, active := g.active + 1, lease := g.lease + {c}, conns := g.conns[c := Open])
              else g.(conns := g.conns[c := Refused])
  {
    hide Holders, GateInv;
    assert g.reserved == |Holders(g.conns, HasSlot)| by { CountsSlots(g); }
    var g1 := GateNext(g, Load(c));
    if g.reserved < g.max {
      var g2 := GateNext(g1, Swap(c));
      var g3 := GateNext(g2, MarkAdmitted(c));
      assert GateNext(g3, Count(c)).conns == g.conns[c := Open];
      FourSteps(g, Load(c), Swap(c), MarkAdmitted(c), Count(c));
    } else {
      assert !GateEnabled(g1, Swap(c));
    }
  }

  lemma CountsSlots(g: Gate)
    requires GateInv(g)
    ensures g.reserved == |Holders(g.conns, HasSlot)|
  {
  }

  lemma FourSteps(g: Gate, a: GateStep, b: GateStep, c: GateStep, d: GateStep)
    requires GateEnabled(g, a) && GateEnabled(GateNext(g, a), b) && GateEnabled(GateNext(GateNext(g, a), b), c)
    requires GateEnabled(GateNext(GateNext(GateNext(g, a), b), c), d)
    ensures GateSteps(g, [a, b, c, d]) == GateNext(GateNext(GateNext(GateNext(g, a), b), c), d)
  {
    hide GateEnabled, GateNext;
    assert [a, b, c, d][1..] == [b, c, d] && [b, c, d][1..] == [c, d] && [c, d][1..] == [d] && [d][1..] == [];
    var g1 := GateNext(g, a);
    var g2 := GateNext(g1, b);
    var g3 := GateNext(g2, c);
    assert GateSteps(g3, [d]) == GateNext(g3, d);
    assert GateSteps(g2, [c, d]) == GateNext(g3, d);
    assert GateSteps(g1, [b, c, d]) == GateNext(g3, d);
  }

  /** Undisturbed, OnClose of an open connection gives back its slot, its lease and its count. */
  lemma ClosesExactly(g: Gate, c: nat)
    requires GateInv(g) && c < |g.conns| && g.conns[c].Open?
    ensures GateSteps(g, [OnClose(c), Uncount(c), LoadBack(c), SwapBack(c)]) ==
              g.(reserved := g.reserved - 1, active := g.active - 1, lease := g.lease - {c},
                 conns := g.conns[c := Released])
  {
    HolderCounts(g.conns, HasSlot, c);
    CountsSlots(g);
    assert c in g.lease;
    hide Holders, GateInv;
    var g1 := GateNext(g, OnClose(c));
    var g2 := GateNext(g1, Uncount(c));
    var g3 := GateNext(g2, LoadBack(c));
    assert GateNext(g3, SwapBack(c)).conns == g.conns[c := Released];
    FourSteps(g, OnClose(c), Uncount(c), LoadBack(c), SwapBack(c));
  }

  // ---- requests -------------------------------------------------------------------------------------------

  predicate Settled(at: Point) {
    at.Running? || at.Finished? || at.Overloaded?
  }

  /** The request moves alone, up to `k` steps, until its handler runs or it is turned away. */
  function Settle(f: Flight, r: nat, k: nat): Flight
    requires r < |f.reqs|
    decreases k
  {
    var at := f.reqs[r].at;
    if k == 0 || Settled(at) then f
    else
      var f' := FlightNext(f, Advance(r));
      if r < |f'.reqs| then Settle(f', r, k - 1) else f'
  }

  function InUse(f: Flight, m: int): int {
    if m in f.counters then f.counters[m] else 0
  }

  /** There is room for one more request of the method. */
  predicate Room(f: Flight, m: int) {
    && (f.globalLimit > 0 ==> f.inflight < f.globalLimit)
    && (Limited(f, m) ==> InUse(f, m) < f.methodLimit[m])
  }

  function WithCount(f: Flight, m: int, n: int): Flight {
    f.(counters := f.counters[m := n])
  }

  function LessInflight(f: Flight): Flight {
    f.(inflight := f.inflight - 1)
  }

  /** Past the global counter: what becomes of the request. */
  function MethodSettled(f: Flight, r: nat): Flight
    requires r < |f.reqs|
  {
    var m := f.reqs[r].name;
    var n := InUse(f, m);
    if !Limited(f, m) then f
    else if n < f.methodLimit[m] then GoTo(WithCount(f, m, n + 1), r, Running)
    else GoTo(LessInflight(WithCount(f, m, n)), r, Overloaded)
  }

  lemma GoToTwice(f: Flight, r: nat, p: Point, q: Point)
    requires r < |f.reqs|
    ensures GoTo(GoTo(f, r, p), r, q) == GoTo(f, r, q)
  {
    assert f.reqs[r := f.reqs[r].(at := p)][r := f.reqs[r].(at := q)] == f.reqs[r := f.reqs[r].(at := q)];
  }

  lemma LoadStep(g: Flight, r: nat, n: int)
    requires r < |g.reqs| && Limited(g, g.reqs[r].name) && n == InUse(g, g.reqs[r].name)
    ensures FlightNext(GoTo(g, r, MethodLoad), Advance(r))
            == GoTo(g, r, if n >= g.methodLimit[g.reqs[r].name] then RollBack else MethodCas(n))
  {
    GoToTwice(g, r, MethodLoad, if n >= g.methodLimit[g.reqs[r].name] then RollBack else MethodCas(n));
    hide GoTo;
    assert GoTo(g, r, MethodLoad).counters == g.counters && GoTo(g, r, MethodLoad).methodLimit == g.methodLimit by {
      GoToParts(g, r, MethodLoad);
    }
    GoToParts(g, r, MethodLoad);
  }

  lemma GoToParts(g: Flight, r: nat, p: Point)
    requires r < |g.reqs|
    ensures var t := GoTo(g, r, p);
            && t == g.(reqs := t.reqs) && |t.reqs| == |g.reqs| && t.reqs[r] == Request(g.reqs[r].name, p)
            && forall x :: 0 <= x < |g.reqs| && x != r ==> t.reqs[x] == g.reqs[x]
  {
  }

  lemma EndStep(g: Flight, r: nat, n: int)
    requires r < |g.reqs| && Limited(g, g.reqs[r].name) && n == InUse(g, g.reqs[r].name)
    ensures var m := g.reqs[r].name;
            && FlightNext(GoTo(g, r, MethodCas(n)), Advance(r)) == GoTo(WithCount(g, m, n + 1), r, Running)
            && FlightNext(GoTo(g, r, RollBack), Advance(r)) == GoTo(LessInflight(g), r, Overloaded)
  {
    var m := g.reqs[r].name;
    GoToTwice(WithCount(g, m, n + 1), r, MethodCas(n), Running);
    GoToTwice(LessInflight(g), r, RollBack, Overloaded);
  }

  lemma FindStep(f: Flight, r: nat)
    requires r < |f.reqs| && f.reqs[r].at.MethodFind?
    ensures var (m, n) := (f.reqs[r].name, InUse(f, f.reqs[r].name));
            FlightNext(f, Advance(r)) == GoTo(WithCount(f, m, n), r, MethodLoad)
  {
    hide GoTo;
  }

  /** The counter is created: the request still reads what was in use. */
  lemma CounterCreated(f: Flight, r: nat, m: int, n: int)
    requires r < |f.reqs| && n == InUse(f, m)
    ensures var g := WithCount(f, m, n);
            && g.reqs == f.reqs && g.methodLimit == f.methodLimit
            && InUse(g, m) == n && Limited(g, m) == Limited(f, m) && WithCount(g, m, n + 1) == WithCount(f, m, n + 1)
            && WithCount(f, m, n + 1).reqs == f.reqs && LessInflight(g).reqs == f.reqs
  {
    assert f.counters[m := n][m := n + 1] == f.counters[m := n + 1];
  }

  lemma MethodAdmits(f: Flight, g: Flight, h: Flight, r: nat, n: int)
    requires r < |f.reqs| && r < |g.reqs| && r < |h.reqs| && f.reqs[r].at.MethodFind?
    requires FlightNext(f, Advance(r)) == GoTo(g, r, MethodLoad)
    requires FlightNext(GoTo(g, r, MethodLoad), Advance(r)) == GoTo(g, r, MethodCas(n))
    requires FlightNext(GoTo(g, r, MethodCas(n)), Advance(r)) == GoTo(h, r, Running)
    ensures Settle(f, r, 3) == GoTo(h, r, Running)
  {
    hide FlightNext, Settle;
    ThreeAlone(f, r, GoTo(g, r, MethodLoad), GoTo(g, r, MethodCas(n)), GoTo(h, r, Running));
  }

  lemma MethodRefuses(f: Flight, g: Flight, h: Flight, r: nat)
    requires r < |f.reqs| && r < |g.reqs| && r < |h.reqs| && f.reqs[r].at.MethodFind?
    requires FlightNext(f, Advance(r)) == GoTo(g, r, MethodLoad)
    requires FlightNext(GoTo(g, r, MethodLoad), Advance(r)) == GoTo(g, r, RollBack)
    requires FlightNext(GoTo(g, r, RollBack), Advance(r)) == GoTo(h, r, Overloaded)
    ensures Settle(f, r, 3) == GoTo(h, r, Overloaded)
  {
    hide FlightNext, Settle;
    ThreeAlone(f, r, GoTo(g, r, MethodLoad), GoTo(g, r, RollBack), GoTo(h, r, Overloaded));
  }

  lemma MethodSettles(f: Flight, r: nat)
    requires r < |f.reqs| && f.reqs[r].at == AfterGlobal(f, f.reqs[r].name)
    ensures Settle(f, r, 3) == MethodSettled(f, r)
  {
    hide FlightNext, GoTo;
    if Limited(f, f.reqs[r].name) {
      LimitedSettles(f, r);
    }
  }

  lemma LimitedOutcome(f: Flight, r: nat, m: int, n: int)
    requires r < |f.reqs| && m == f.reqs[r].name && n == InUse(f, m) && Limited(f, m)
    ensures MethodSettled(f, r) == if n < f.methodLimit[m] then GoTo(WithCount(f, m, n + 1), r, Running)
                                   else GoTo(LessInflight(WithCount(f, m, n)), r, Overloaded)
  {
    hide WithCount, LessInflight, GoTo;
  }

  lemma LimitedSettles(f: Flight, r: nat)
    requires r < |f.reqs| && f.reqs[r].at.MethodFind? && Limited(f, f.reqs[r].name)
    ensures Settle(f, r, 3) == MethodSettled(f, r)
  {
    var (m, n) := (f.reqs[r].name, InUse(f, f.reqs[r].name));
    var g, room := WithCount(f, m, n), n < f.methodLimit[m];
    hide *;
    LimitedOutcome(f, r, m, n);
    FindStep(f, r);
    CounterCreated(f, r, m, n);
    LoadStep(g, r, n);
    EndStep(g, r, n);
    if room {
      MethodAdmits(f, g, WithCount(g, m, n + 1), r, n);
    } else {
      MethodRefuses(f, g, LessInflight(g), r);
    }
  }

  lemma ThreeAlone(f: Flight, r: nat, f1: Flight, f2: Flight, f3: Flight)
    requires r < |f.reqs| && r < |f1.reqs| && r < |f2.reqs| && r < |f3.reqs|
    requires !Settled(f.reqs[r].at) && !Settled(f1.reqs[r].at) && !Settled(f2.reqs[r].at)
    requires f1 == FlightNext(f, Advance(r)) && f2 == FlightNext(f1, Advance(r)) && f3 == FlightNext(f2, Advance(r))
    ensures Settle(f, r, 3) == f3
  {
    hide FlightNext;
    assert Settle(f2, r, 1) == f3;
    assert Settle(f1, r, 2) == f3;
  }

  /** Undisturbed, a request is served exactly when there is room under both limits; it then counts once
      under each, and a refused one leaves both counts as they were. */
  lemma ServesExactly(f: Flight, r: nat)
    requires FlightInv(f) && r < |f.reqs| && (f.reqs[r].at.GlobalLoad? || f.reqs[r].at.GlobalAdd?)
    ensures var (m, t) := (f.reqs[r].name, Settle(f, r, 5));
            && r < |t.reqs| && (forall x :: x != m ==> InUse(t, x) == InUse(f, x))
            && if Room(f, m) then
                 t.reqs[r].at.Running? && t.inflight == f.inflight + 1
                 && InUse(t, m) == InUse(f, m) + if Limited(f, m) then 1 else 0
               else t.reqs[r].at.Overloaded? && t.inflight == f.inflight && InUse(t, m) == InUse(f, m)
  {
    var m := f.reqs[r].name;
    assert RequestOk(f, f.reqs[r]);
    hide FlightInv, Settle;
    var g := f.(inflight := f.inflight + 1);
    var past := GoTo(g, r, AfterGlobal(f, m));
    GlobalSettles(f, r);
    if f.reqs[r].at.GlobalAdd? || f.inflight < f.globalLimit {
      MethodSettles(past, r);
      GoToParts(g, r, AfterGlobal(f, m));
      hide FlightNext;
      assert Limited(past, m) == Limited(f, m) && InUse(past, m) == InUse(f, m);
      SettledParts(past, r);
      SettledStays(past, r, 3, 4);
    }
  }

  lemma SettledParts(f: Flight, r: nat)
    requires r < |f.reqs|
    ensures var (m, t) := (f.reqs[r].name, MethodSettled(f, r));
            && |t.reqs| == |f.reqs| && (forall x :: x != m ==> InUse(t, x) == InUse(f, x))
            && (!Limited(f, m) ==> t == f)
            && (Limited(f, m) && InUse(f, m) < f.methodLimit[m] ==>
                  t.reqs[r].at.Running? && t.inflight == f.inflight && InUse(t, m) == InUse(f, m) + 1)
            && (Limited(f, m) && InUse(f, m) >= f.methodLimit[m] ==>
                  t.reqs[r].at.Overloaded? && t.inflight == f.inflight - 1 && InUse(t, m) == InUse(f, m))
  {
  }

  /** Up to the method counter, or turned away before it. */
  lemma GlobalSettles(f: Flight, r: nat)
    requires r < |f.reqs| && (f.reqs[r].at.GlobalLoad? || f.reqs[r].at.GlobalAdd?)
    ensures var past := GoTo(f.(inflight := f.inflight + 1), r, AfterGlobal(f, f.reqs[r].name));
            && |past.reqs| == |f.reqs|
            && (f.reqs[r].at.GlobalAdd? ==> Settle(f, r, 5) == Settle(past, r, 4))
            && (f.reqs[r].at.GlobalLoad? && f.inflight < f.globalLimit ==> Settle(f, r, 5) == Settle(past, r, 3))
            && (f.reqs[r].at.GlobalLoad? && f.inflight >= f.globalLimit ==> Settle(f, r, 5) == GoTo(f, r, Overloaded))
  {
    var past := GoTo(f.(inflight := f.inflight + 1), r, AfterGlobal(f, f.reqs[r].name));
    var f1 := FlightNext(f, Advance(r));
    if f.reqs[r].at.GlobalLoad? && f.inflight < f.globalLimit {
      GoToTwice(f.(inflight := f.inflight + 1), r, GlobalCas(f.inflight), AfterGlobal(f, f.reqs[r].name));
      assert FlightNext(f1, Advance(r)) == past;
      hide FlightNext;
      assert Settle(f1, r, 4) == Settle(past, r, 3);
    } else if f.reqs[r].at.GlobalLoad? {
      assert Settle(f1, r, 4) == f1;
    }
  }

  lemma {:induction false} SettledStays(f: Flight, r: nat, k: nat, n: nat)
    requires r < |f.reqs| && k <= n
    requires var t := Settle(f, r, k); r < |t.reqs| && (t.reqs[r].at.Running? || t.reqs[r].at.Overloaded?)
    ensures Settle(f, r, n) == Settle(f, r, k)
    decreases k
  {
    hide FlightNext;
    var at := f.reqs[r].at;
    if k > 0 && !Settled(at) {
      var f' := FlightNext(f, Advance(r));
      if r < |f'.reqs| {
        SettledStays(f', r, k - 1, n - 1);
      }
    }
  }
}
