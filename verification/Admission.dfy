/** Admission leases under interleaving: connection slots (lib/net/net_mgr/admission.go,
    lib/net/net_mgr/conn_lease.go, lib/net/net_mgr/tcp_impl.go) and in-flight slots, one step per
    atomic load, compare-and-swap or locked map access. Enforce mode, with limits set. */
module Admission {

  // ---- counting ---------------------------------------------------------------------------------------

  function Holders<P>(ps: seq<P>, holds: P -> bool): set<int> {
    set i | 0 <= i < |ps| && holds(ps[i])
  }

  function One(b: bool): int {
    if b then 1 else 0
  }

  lemma HoldersUpdate<P>(ps: seq<P>, holds: P -> bool, i: nat, p: P)
    requires i < |ps|
    ensures |Holders(ps[i := p], holds)| == |Holders(ps, holds)| - One(holds(ps[i])) + One(holds(p))
  {
    var before, after := Holders(ps, holds), Holders(ps[i := p], holds);
    forall k
      ensures k in after <==> if k == i then holds(p) else k in before
    {
    }
    assert i in before <==> holds(ps[i]);
    hide Holders;
    OneElement(before, after, i);
  }

  lemma OneElement(before: set<int>, after: set<int>, i: int)
    requires forall k :: k in after && k != i ==> k in before
    requires forall k :: k in before && k != i ==> k in after
    ensures |after| == |before| - One(i in before) + One(i in after)
  {
    assert forall k :: k in before - {i} <==> k in after - {i};
    assert before - {i} == after - {i};
    assert |before - {i}| == |before| - One(i in before);
    assert |after - {i}| == |after| - One(i in after);
  }

  lemma HoldersAppend<P>(ps: seq<P>, holds: P -> bool, p: P)
    ensures |Holders(ps + [p], holds)| == |Holders(ps, holds)| + One(holds(p))
  {
    var before, after := Holders(ps, holds), Holders(ps + [p], holds);
    if holds(p) {
      assert after == before + {|ps|};
    } else {
      assert after == before;
    }
  }

  lemma HolderCounts<P>(ps: seq<P>, holds: P -> bool, i: nat)
    requires i < |ps| && holds(ps[i])
    ensures |Holders(ps, holds)| > 0
  {
    assert i in Holders(ps, holds);
  }

  lemma NoHolders<P>(ps: seq<P>, holds: P -> bool)
    requires forall i :: 0 <= i < |ps| ==> !holds(ps[i])
    ensures |Holders(ps, holds)| == 0
  {
    assert Holders(ps, holds) == {};
  }

  // ---- connections --------------------------------------------------------------------------------------

  /** Where OnConn, and later the OnClose that takes the lease, is for one connection. */
  datatype Conn =
    | Asking
    | AskingCas(seen: int)
    | Marking
    | Counting
    | Open
    | Uncounting
    | Giving
    | GivingCas(seen: int)
    | Released
    | Refused

  datatype Gate = Gate(max: int, reserved: int, active: int, lease: set<int>, conns: seq<Conn>)

  datatype GateStep =
    | Arrive
    | RefuseEarly(c: nat)
    | Load(c: nat)
    | Swap(c: nat)
    | MarkAdmitted(c: nat)
    | Count(c: nat)
    | OnClose(c: nat)
    | Uncount(c: nat)
    | LoadBack(c: nat)
    | SwapBack(c: nat)

  /** OnClose may come any number of times once OnConn has returned. */
  predicate GateEnabled(g: Gate, step: GateStep) {
    match step
    case Arrive => true
    case RefuseEarly(c) => c < |g.conns| && g.conns[c].Asking?
    case Load(c) => c < |g.conns| && g.conns[c].Asking?
    case Swap(c) => c < |g.conns| && g.conns[c].AskingCas?
    case MarkAdmitted(c) => c < |g.conns| && g.conns[c].Marking?
    case Count(c) => c < |g.conns| && g.conns[c].Counting?
    case OnClose(c) =>
      c < |g.conns| && !g.conns[c].Asking? && !g.conns[c].AskingCas? && !g.conns[c].Marking? && !g.conns[c].Counting?
    case Uncount(c) => c < |g.conns| && g.conns[c].Uncounting?
    case LoadBack(c) => c < |g.conns| && g.conns[c].Giving?
    case SwapBack(c) => c < |g.conns| && g.conns[c].GivingCas?
  }

  function At(g: Gate, c: nat, p: Conn): Gate
    requires c < |g.conns|
  {
    g.(conns := g.conns[c := p])
  }

  function GateNext(g: Gate, step: GateStep): Gate
    requires GateEnabled(g, step)
  {
    match step
    case Arrive => g.(conns := g.conns + [Asking])
    case RefuseEarly(c) => At(g, c, Refused)
    case Load(c) => At(g, c, if g.reserved >= g.max then Refused else AskingCas(g.reserved))
    case Swap(c) =>
      if g.reserved == g.conns[c].seen then At(g.(reserved := g.reserved + 1), c, Marking) else At(g, c, Asking)
    case MarkAdmitted(c) => At(g.(lease := g.lease + {c}), c, Counting)
    case Count(c) => At(g.(active := g.active + 1), c, Open)
    case OnClose(c) => if c in g.lease then At(g.(lease := g.lease - {c}), c, Uncounting) else g
    case Uncount(c) => At(g.(active := g.active - 1), c, Giving)
    case LoadBack(c) => At(g, c, if g.reserved <= 0 then Released else GivingCas(g.reserved))
    case SwapBack(c) =>
      if g.reserved == g.conns[c].seen then At(g.(reserved := g.reserved - 1), c, Released) else At(g, c, Giving)
  }

  /** Admitted and not yet released. */
  predicate HasSlot(p: Conn) {
    p.Marking? || p.Counting? || p.Open? || p.Uncounting? || p.Giving? || p.GivingCas?
  }

  predicate Counted(p: Conn) {
    p.Open? || p.Uncounting?
  }

  ghost predicate GateInv(g: Gate) {
    && g.reserved == |Holders(g.conns, HasSlot)|
    && g.active == |Holders(g.conns, Counted)|
    && g.reserved <= g.max
    && (forall c :: c in g.lease <==> 0 <= c < |g.conns| && (g.conns[c].Counting? || g.conns[c].Open?))
    && (forall c :: 0 <= c < |g.conns| && g.conns[c].AskingCas? ==> g.conns[c].seen < g.max)
  }

  ghost predicate GateStart(g: Gate) {
    g.max > 0 && g.reserved == 0 && g.active == 0 && g.lease == {} && g.conns == []
  }

  lemma GateStartInv(g: Gate)
    requires GateStart(g)
    ensures GateInv(g)
  {
    NoHolders(g.conns, HasSlot);
    NoHolders(g.conns, Counted);
  }

  lemma GateStepKeeps(g: Gate, step: GateStep)
    requires GateInv(g) && GateEnabled(g, step)
    ensures GateInv(GateNext(g, step))
  {
    hide Holders;
    var g' := GateNext(g, step);
    if step.Arrive? {
      HoldersAppend(g.conns, HasSlot, Asking);
      HoldersAppend(g.conns, Counted, Asking);
    } else if g'.conns != g.conns {
      HoldersUpdate(g.conns, HasSlot, step.c, g'.conns[step.c]);
      HoldersUpdate(g.conns, Counted, step.c, g'.conns[step.c]);
      assert g'.conns == g.conns[step.c := g'.conns[step.c]];
      if g.conns[step.c].Giving? {
        HolderCounts(g.conns, HasSlot, step.c);
      }
    }
  }

  // ---- in-flight requests ---------------------------------------------------------------------------------

  /** Where a request is in TryAcquireInflight, its handler, or ReleaseInflight. */
  datatype Point =
    | GlobalLoad
    | GlobalCas(seen: int)
    | GlobalAdd
    | MethodFind
    | MethodLoad
    | MethodCas(seen: int)
    | RollBack
    | Running
    | MethodBack
    | MethodBackCas(seen: int)
    | GlobalBack
    | GlobalBackCas(seen: int)
    | Finished
    | Overloaded

  datatype Request = Request(name: int, at: Point)

  /** `methodLimit`: the limit of each method that has one; `counters`: created on first use. */
  datatype Flight = Flight(
    globalLimit: int,
    methodLimit: map<int, int>,
    inflight: int,
    counters: map<int, int>,
    reqs: seq<Request>)

  predicate Limited(f: Flight, m: int) {
    m in f.methodLimit && f.methodLimit[m] > 0
  }

  datatype FlightStep = NewRequest(m: int) | Advance(r: nat)

  /** The middleware asks for a slot only when there is a limit to respect. */
  predicate FlightEnabled(f: Flight, step: FlightStep) {
    match step
    case NewRequest(m) => f.globalLimit > 0 || Limited(f, m)
    case Advance(r) => r < |f.reqs| && !f.reqs[r].at.Finished? && !f.reqs[r].at.Overloaded?
  }

  function GoTo(f: Flight, r: nat, p: Point): Flight
    requires r < |f.reqs|
  {
    f.(reqs := f.reqs[r := f.reqs[r].(at := p)])
  }

  function AfterGlobal(f: Flight, m: int): Point {
    if Limited(f, m) then MethodFind else Running
  }

  /** The next atomic step of one request; a request without a method counter goes straight to the
      global one when it is released. */
  function FlightNext(f: Flight, step: FlightStep): Flight
    requires FlightEnabled(f, step)
  {
    match step
    case NewRequest(m) => f.(reqs := f.reqs + [Request(m, if f.globalLimit > 0 then GlobalLoad else GlobalAdd)])
    case Advance(r) =>
      var m := f.reqs[r].name;
      var n := if m in f.counters then f.counters[m] else 0;
      match f.reqs[r].at
      case GlobalLoad => GoTo(f, r, if f.inflight >= f.globalLimit then Overloaded else GlobalCas(f.inflight))
      case GlobalCas(seen) =>
        if f.inflight == seen then GoTo(f.(inflight := seen + 1), r, AfterGlobal(f, m)) else GoTo(f, r, GlobalLoad)
      case GlobalAdd => GoTo(f.(inflight := f.inflight + 1), r, AfterGlobal(f, m))
      case MethodFind => GoTo(f.(counters := f.counters[m := n]), r, MethodLoad)
      case MethodLoad =>
        GoTo(f, r, if Limited(f, m) && n >= f.methodLimit[m] then RollBack else MethodCas(n))
      case MethodCas(seen) =>
        if n == seen then GoTo(f.(counters := f.counters[m := seen + 1]), r, Running) else GoTo(f, r, MethodLoad)
      case RollBack => GoTo(f.(inflight := f.inflight - 1), r, Overloaded)
      case Running => GoTo(f, r, if m in f.counters then MethodBack else GlobalBack)
      case MethodBack => GoTo(f, r, if n <= 0 then GlobalBack else MethodBackCas(n))
      case MethodBackCas(seen) =>
        if n == seen then GoTo(f.(counters := f.counters[m := seen - 1]), r, GlobalBack) else GoTo(f, r, MethodBack)
      case GlobalBack => GoTo(f, r, if f.inflight <= 0 then Finished else GlobalBackCas(f.inflight))
      case GlobalBackCas(seen) =>
        if f.inflight == seen then GoTo(f.(inflight := seen - 1), r, Finished) else GoTo(f, r, GlobalBack)
      case Finished => f
      case Overloaded => f
  }

  predicate HasGlobal(q: Request) {
    match q.at
    case GlobalLoad => false
    case GlobalCas(_) => false
    case GlobalAdd => false
    case Finished => false
    case Overloaded => false
    case _ => true
  }

  predicate InMethod(p: Point) {
    p.Running? || p.MethodBack? || p.MethodBackCas?
  }

  function HasMethod(m: int): Request -> bool {
    (q: Request) => q.name == m && InMethod(q.at)
  }

  /** A request in its handler or giving its method slot back is counted by its method, if limited. */
  ghost predicate CounterOk(f: Flight, m: int) {
    && (m in f.counters ==> Limited(f, m))
    && (m in f.counters ==> f.counters[m] == |Holders(f.reqs, HasMethod(m))| <= f.methodLimit[m])
    && (m !in f.counters && Limited(f, m) ==> |Holders(f.reqs, HasMethod(m))| == 0)
  }

  /** What a request knows at its point. */
  ghost predicate RequestOk(f: Flight, q: Request) {
    match q.at
    case GlobalLoad => f.globalLimit > 0
    case GlobalCas(seen) => seen < f.globalLimit && f.globalLimit > 0
    case GlobalAdd => f.globalLimit <= 0
    case MethodFind => Limited(f, q.name)
    case MethodLoad => q.name in f.counters
    case MethodCas(seen) => q.name in f.counters && q.name in f.methodLimit && seen < f.methodLimit[q.name]
    case RollBack => true
    case Running => Limited(f, q.name) ==> q.name in f.counters
    case MethodBack => q.name in f.counters
    case MethodBackCas(_) => q.name in f.counters
    case _ => true
  }

  ghost predicate FlightInv(f: Flight) {
    && f.inflight == |Holders(f.reqs, HasGlobal)|
    && (f.globalLimit > 0 ==> f.inflight <= f.globalLimit)
    && (forall m {:trigger CounterOk(f, m)} :: CounterOk(f, m))
    && (forall r :: 0 <= r < |f.reqs| ==> RequestOk(f, f.reqs[r]))
  }

  lemma MovedRequest(f: Flight, r: nat, p: Point, m: int)
    requires r < |f.reqs|
    ensures var q := f.reqs[r];
            var reqs := f.reqs[r := q.(at := p)];
            && |Holders(reqs, HasGlobal)| == |Holders(f.reqs, HasGlobal)| - One(HasGlobal(q)) + One(HasGlobal(q.(at := p)))
            && |Holders(reqs, HasMethod(m))| == |Holders(f.reqs, HasMethod(m))| - One(q.name == m && InMethod(q.at))
                                                                          + One(q.name == m && InMethod(p))
  {
    hide Holders;
    HoldersUpdate(f.reqs, HasGlobal, r, f.reqs[r].(at := p));
    HoldersUpdate(f.reqs, HasMethod(m), r, f.reqs[r].(at := p));
  }

  /** A step of one request moves it to `p` and touches at most its own method's counter. */
  lemma AdvanceEffect(f: Flight, r: nat)
    requires FlightEnabled(f, Advance(r))
    ensures var f' := FlightNext(f, Advance(r));
            && f'.globalLimit == f.globalLimit && f'.methodLimit == f.methodLimit
            && r < |f'.reqs| && f'.reqs == f.reqs[r := f.reqs[r].(at := f'.reqs[r].at)]
            && f.counters.Keys <= f'.counters.Keys
            && (forall m :: m != f.reqs[r].name ==> (m in f'.counters <==> m in f.counters))
            && (forall m :: m != f.reqs[r].name && m in f.counters ==> f'.counters[m] == f.counters[m])
  {
    hide Limited;
  }

  lemma AdvanceGlobal(f: Flight, r: nat)
    requires FlightInv(f) && FlightEnabled(f, Advance(r))
    ensures var f' := FlightNext(f, Advance(r));
            && f'.inflight == |Holders(f'.reqs, HasGlobal)|
            && (f'.globalLimit > 0 ==> f'.inflight <= f'.globalLimit)
  {
    var f' := FlightNext(f, Advance(r));
    assert RequestOk(f, f.reqs[r]);
    AdvanceEffect(f, r);
    MovedRequest(f, r, f'.reqs[r].at, 0);
    if HasGlobal(f.reqs[r]) {
      HolderCounts(f.reqs, HasGlobal, r);
    }
    hide Holders, Limited, CounterOk;
  }

  lemma AdvanceCounter(f: Flight, r: nat, m: int)
    requires FlightInv(f) && FlightEnabled(f, Advance(r))
    ensures CounterOk(FlightNext(f, Advance(r)), m)
  {
    var f' := FlightNext(f, Advance(r));
    var q := f.reqs[r];
    assert RequestOk(f, q) && CounterOk(f, m);
    AdvanceEffect(f, r);
    MovedRequest(f, r, f'.reqs[r].at, m);
    if q.name == m && InMethod(q.at) {
      HolderCounts(f.reqs, HasMethod(m), r);
    }
    hide Holders, HasGlobal;
  }

  lemma AdvanceRequests(f: Flight, r: nat, k: nat)
    requires FlightInv(f) && FlightEnabled(f, Advance(r)) && k < |f.reqs|
    ensures var f' := FlightNext(f, Advance(r)); k < |f'.reqs| && RequestOk(f', f'.reqs[k])
  {
    assert RequestOk(f, f.reqs[k]) && RequestOk(f, f.reqs[r]) && CounterOk(f, f.reqs[r].name);
    AdvanceEffect(f, r);
    hide Holders, HasGlobal;
  }

  lemma FlightStepKeeps(f: Flight, step: FlightStep)
    requires FlightInv(f) && FlightEnabled(f, step)
    ensures FlightInv(FlightNext(f, step))
  {
    var f' := FlightNext(f, step);
    match step
    case NewRequest(m) =>
      var q := f'.reqs[|f.reqs|];
      assert f'.reqs == f.reqs + [q];
      HoldersAppend(f.reqs, HasGlobal, q);
      hide Holders;
      forall x
        ensures CounterOk(f', x)
      {
        assert CounterOk(f, x);
        HoldersAppend(f.reqs, HasMethod(x), q);
      }
      forall k | 0 <= k < |f'.reqs|
        ensures RequestOk(f', f'.reqs[k])
      {
        if k < |f.reqs| {
          assert RequestOk(f, f.reqs[k]);
        }
      }
    case Advance(r) =>
      AdvanceGlobal(f, r);
      AdvanceEffect(f, r);
      forall x
        ensures CounterOk(f', x)
      {
        AdvanceCounter(f, r, x);
      }
      forall k | 0 <= k < |f'.reqs|
        ensures RequestOk(f', f'.reqs[k])
      {
        AdvanceRequests(f, r, k);
      }
      hide Holders, CounterOk, RequestOk, FlightNext;
  }

  // ---- runs -----------------------------------------------------------------------------------------------

  ghost predicate GateRun(gs: seq<Gate>, steps: seq<GateStep>) {
    && |gs| == |steps| + 1 && GateStart(gs[0])
    && forall i {:trigger GateStepAt(gs, steps, i)} :: 0 <= i < |steps| ==> GateStepAt(gs, steps, i)
  }

  ghost predicate GateStepAt(gs: seq<Gate>, steps: seq<GateStep>, i: int)
    requires |gs| == |steps| + 1 && 0 <= i < |steps|
  {
    GateEnabled(gs[i], steps[i]) && gs[i + 1] == GateNext(gs[i], steps[i])
  }

  lemma {:induction false} GateReaches(gs: seq<Gate>, steps: seq<GateStep>, i: nat)
    requires GateRun(gs, steps) && i < |gs|
    ensures GateInv(gs[i])
    decreases i
  {
    if i == 0 {
      GateStartInv(gs[0]);
    } else {
      GateReaches(gs, steps, i - 1);
      assert GateStepAt(gs, steps, i - 1);
      GateStepKeeps(gs[i - 1], steps[i - 1]);
    }
  }

  /** At every point of every run the reserved count is the number of connections admitted and not yet
      released, and within the limit; a release never finds the count at zero; and when every
      connection is through, all slots are back. */
  lemma SlotsExact(gs: seq<Gate>, steps: seq<GateStep>, i: nat)
    requires GateRun(gs, steps) && i < |gs|
    ensures gs[i].reserved == |Holders(gs[i].conns, HasSlot)| <= gs[i].max
    ensures gs[i].active == |Holders(gs[i].conns, Counted)|
    ensures forall c :: 0 <= c < |gs[i].conns| && gs[i].conns[c].Giving? ==> gs[i].reserved > 0
    ensures (forall c :: 0 <= c < |gs[i].conns| ==> gs[i].conns[c].Released? || gs[i].conns[c].Refused?) ==>
              gs[i].reserved == 0 && gs[i].active == 0 && gs[i].lease == {}
  {
    GateReaches(gs, steps, i);
    var g := gs[i];
    forall c | 0 <= c < |g.conns| && g.conns[c].Giving?
      ensures g.reserved > 0
    {
      HolderCounts(g.conns, HasSlot, c);
    }
    if forall c :: 0 <= c < |g.conns| ==> g.conns[c].Released? || g.conns[c].Refused? {
      NoHolders(g.conns, HasSlot);
      NoHolders(g.conns, Counted);
      assert forall c :: c !in g.lease;
    }
  }

  /** A connection is refused for the limit only while every slot is taken, and a second OnClose, or the
      OnClose of a refused connection, changes nothing. */
  lemma RefusedWhenFull(g: Gate, c: nat)
    requires GateInv(g) && c < |g.conns|
    ensures g.conns[c].Asking? ==>
              (GateNext(g, Load(c)).conns[c].Refused? <==> |Holders(g.conns, HasSlot)| == g.max)
    ensures g.conns[c].Refused? || g.conns[c].Released? || g.conns[c].Giving? || g.conns[c].Uncounting? ==>
              GateNext(g, OnClose(c)) == g
  {
    hide Holders;
  }

  ghost predicate FlightStart(f: Flight) {
    f.inflight == 0 && f.counters == map[] && f.reqs == []
  }

  ghost predicate FlightRun(fs: seq<Flight>, steps: seq<FlightStep>) {
    && |fs| == |steps| + 1 && FlightStart(fs[0])
    && forall i {:trigger FlightStepAt(fs, steps, i)} :: 0 <= i < |steps| ==> FlightStepAt(fs, steps, i)
  }

  ghost predicate FlightStepAt(fs: seq<Flight>, steps: seq<FlightStep>, i: int)
    requires |fs| == |steps| + 1 && 0 <= i < |steps|
  {
    FlightEnabled(fs[i], steps[i]) && fs[i + 1] == FlightNext(fs[i], steps[i])
  }

  lemma FlightStartInv(f: Flight)
    requires FlightStart(f)
    ensures FlightInv(f)
  {
    NoHolders(f.reqs, HasGlobal);
    forall m
      ensures CounterOk(f, m)
    {
      NoHolders(f.reqs, HasMethod(m));
    }
  }

  lemma {:induction false} FlightReaches(fs: seq<Flight>, steps: seq<FlightStep>, i: nat)
    requires FlightRun(fs, steps) && i < |fs|
    ensures FlightInv(fs[i])
    decreases i
  {
    if i == 0 {
      FlightStartInv(fs[0]);
    } else {
      FlightReaches(fs, steps, i - 1);
      assert FlightStepAt(fs, steps, i - 1);
      FlightStepKeeps(fs[i - 1], steps[i - 1]);
    }
  }

  /** At every point of every run both kinds of counter are exact and within their limits, whatever
      was rolled back on the way, no release finds its counter at zero, and when every request is
      through, all counters are at zero. */
  lemma InflightExact(fs: seq<Flight>, steps: seq<FlightStep>, i: nat, m: int)
    requires FlightRun(fs, steps) && i < |fs|
    ensures fs[i].inflight == |Holders(fs[i].reqs, HasGlobal)|
    ensures fs[i].globalLimit > 0 ==> fs[i].inflight <= fs[i].globalLimit
    ensures m in fs[i].counters ==>
              && fs[i].counters[m] == |Holders(fs[i].reqs, HasMethod(m))|
              && m in fs[i].methodLimit && fs[i].counters[m] <= fs[i].methodLimit[m]
    ensures forall r :: 0 <= r < |fs[i].reqs| && fs[i].reqs[r].at.GlobalBack? ==> fs[i].inflight > 0
    ensures forall r :: 0 <= r < |fs[i].reqs| && fs[i].reqs[r].at.MethodBack? && fs[i].reqs[r].name == m ==>
              m in fs[i].counters && fs[i].counters[m] > 0
    ensures (forall r :: 0 <= r < |fs[i].reqs| ==> fs[i].reqs[r].at.Finished? || fs[i].reqs[r].at.Overloaded?) ==>
              fs[i].inflight == 0 && (m in fs[i].counters ==> fs[i].counters[m] == 0)
  {
    FlightReaches(fs, steps, i);
    var f := fs[i];
    assert CounterOk(f, m);
    forall r | 0 <= r < |f.reqs|
      ensures f.reqs[r].at.GlobalBack? ==> f.inflight > 0
      ensures f.reqs[r].at.MethodBack? && f.reqs[r].name == m ==> m in f.counters && f.counters[m] > 0
    {
      assert RequestOk(f, f.reqs[r]);
      if f.reqs[r].at.GlobalBack? {
        HolderCounts(f.reqs, HasGlobal, r);
      }
      if f.reqs[r].at.MethodBack? && f.reqs[r].name == m {
        HolderCounts(f.reqs, HasMethod(m), r);
      }
    }
    if forall r :: 0 <= r < |f.reqs| ==> f.reqs[r].at.Finished? || f.reqs[r].at.Overloaded? {
      NoHolders(f.reqs, HasGlobal);
      NoHolders(f.reqs, HasMethod(m));
    }
  }
}
