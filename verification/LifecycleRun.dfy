/** App.Run: starting components in order, rolling back, and quiescing, draining and stopping them in
    reverse (lib/service/runtime/run.go). */
module LifecycleRun {
  import opened LifecycleState

  /** A component, and whether it implements Quiesce and Drain. */
  datatype Component = Component(name: string, quiesces: bool, drains: bool)

  datatype Event = Start(i: nat) | Quiesce(i: nat) | Drain(i: nat) | Stop(i: nat) | Enter(s: State)

  /** What a shutdown hook returns; cancellation is not counted as a failure. */
  datatype Answer = Fine | Cancelled | Broken

  datatype Failure =
    | AlreadyRunning
    | ConfigFailed
    | StartFailed(i: nat)
    | Interrupted
    | ReadyRefused
    | RuntimeFailed
    | QuiesceFailed(i: nat)
    | DrainFailed(i: nat)
    | DrainCutShort
    | StopFailed(i: nat)

  /** How the world answers one run: hooks by component index, the optional configuration hook, a
      termination signal before the application is ready, the observers' votes on each transition, a
      component that dies while serving, and a drain cut short by its timeout or a second signal. */
  datatype World = World(
    configOk: bool,
    startOk: nat -> bool,
    interrupted: bool,
    votes: State -> seq<bool>,
    runtimeOk: bool,
    quiesce: nat -> Answer,
    drain: nat -> Answer,
    drainCutShort: bool,
    stop: nat -> Answer)

  // ---- what should happen ------------------------------------------------------------------------------

  /** Component `i` is asked to start. */
  ghost predicate Begun(w: World, n: nat, i: nat) {
    w.configOk && i < n && forall j :: 0 <= j < i ==> w.startOk(j)
  }

  /** Component `i` has started. */
  ghost predicate Up(w: World, n: nat, i: nat) {
    Begun(w, n, i) && w.startOk(i)
  }

  ghost predicate AllUp(w: World, n: nat) {
    w.configOk && forall j :: 0 <= j < n ==> w.startOk(j)
  }

  ghost predicate Serves(w: World, n: nat) {
    AllUp(w, n) && !w.interrupted && false !in w.votes(Ready)
  }

  /** The only way for Run to return no error. */
  ghost predicate Clean(w: World, cs: seq<Component>) {
    && Serves(w, |cs|) && w.runtimeOk && !w.drainCutShort
    && (forall i :: 0 <= i < |cs| && cs[i].quiesces ==> w.quiesce(i) != Broken)
    && (forall i :: 0 <= i < |cs| && cs[i].drains ==> w.drain(i) != Broken)
    && (forall i :: 0 <= i < |cs| ==> w.stop(i) != Broken)
  }

  /** The place of an event in the life of an application of `n` components. */
  function Rank(n: nat, e: Event): int {
    match e
    case Start(i) => i
    case Quiesce(i) => 2 * n + 1 - i
    case Drain(i) => 3 * n + 1 - i
    case Stop(i) => 4 * n + 2 - i
    case Enter(s) =>
      match s
      case Ready => n
      case Draining => n + 1
      case Stopping => 3 * n + 2
      case _ => 4 * n + 3
  }

  predicate Fits(n: nat, e: Event) {
    match e
    case Start(i) => i < n
    case Quiesce(i) => i < n
    case Drain(i) => i < n
    case Stop(i) => i < n
    case Enter(s) => s in {Ready, Draining, Stopping, Stopped, Failed}
  }

  /** The log climbs through the ranks: nothing happens twice or out of place. */
  ghost predicate Ordered(n: nat, log: seq<Event>) {
    && (forall k :: 0 <= k < |log| ==> Fits(n, log[k]))
    && (forall k, l :: 0 <= k < l < |log| ==> Rank(n, log[k]) < Rank(n, log[l]))
  }

  /** Read off the ranks: components start in registration order; every Quiesce comes before every
      Drain and every Drain before every Stop; each of the three runs in reverse; a component stops
      after it has started; nothing happens twice. */
  lemma OrderMeans(n: nat, log: seq<Event>, k: nat, l: nat)
    requires Ordered(n, log) && k < |log| && l < |log|
    ensures log[k] == log[l] ==> k == l
    ensures log[k].Start? && log[l].Start? && log[k].i < log[l].i ==> k < l
    ensures log[k].Quiesce? && log[l].Quiesce? && log[k].i > log[l].i ==> k < l
    ensures log[k].Drain? && log[l].Drain? && log[k].i > log[l].i ==> k < l
    ensures log[k].Stop? && log[l].Stop? && log[k].i > log[l].i ==> k < l
    ensures log[k].Quiesce? && (log[l].Drain? || log[l].Stop?) ==> k < l
    ensures log[k].Drain? && log[l].Stop? ==> k < l
    ensures log[k].Start? && !log[l].Start? ==> k < l
    ensures log[k] == Enter(Ready) && !log[l].Start? && l != k ==> k < l
  {
    assert Fits(n, log[k]) && Fits(n, log[l]);
    hide Fits;
  }

  /** What is in the log after a run, event by event. */
  ghost predicate Happened(w: World, cs: seq<Component>, log: seq<Event>) {
    && (forall i: nat :: Start(i) in log <==> Begun(w, |cs|, i))
    && (forall i: nat :: Stop(i) in log <==> Up(w, |cs|, i))
    && (forall i: nat :: Quiesce(i) in log <==> Serves(w, |cs|) && i < |cs| && cs[i].quiesces)
    && (forall i: nat :: Drain(i) in log <==> Serves(w, |cs|) && i < |cs| && cs[i].drains)
    && (Enter(Ready) in log <==> Serves(w, |cs|))
    && (Enter(Draining) in log <==> Serves(w, |cs|))
    && (Enter(Stopping) in log <==> Serves(w, |cs|))
    && (Enter(Stopped) in log <==> Clean(w, cs))
    && (Enter(Failed) in log <==> !Clean(w, cs))
  }

  /** Which errors Run returns. */
  ghost predicate Reported(w: World, cs: seq<Component>, errs: seq<Failure>) {
    && AlreadyRunning !in errs
    && (ConfigFailed in errs <==> !w.configOk)
    && (forall i: nat :: StartFailed(i) in errs <==> Begun(w, |cs|, i) && !w.startOk(i))
    && (Interrupted in errs <==> AllUp(w, |cs|) && w.interrupted)
    && (ReadyRefused in errs <==> AllUp(w, |cs|) && !w.interrupted && false in w.votes(Ready))
    && (RuntimeFailed in errs <==> Serves(w, |cs|) && !w.runtimeOk)
    && (DrainCutShort in errs <==> Serves(w, |cs|) && w.drainCutShort)
    && (forall i: nat :: QuiesceFailed(i) in errs <==> Serves(w, |cs|) && i < |cs| && cs[i].quiesces && w.quiesce(i) == Broken)
    && (forall i: nat :: DrainFailed(i) in errs <==> Serves(w, |cs|) && i < |cs| && cs[i].drains && w.drain(i) == Broken)
    && (forall i: nat :: StopFailed(i) in errs <==> Up(w, |cs|, i) && w.stop(i) == Broken)
  }

  // ---- the shapes of a log -----------------------------------------------------------------------------

  function Starts(k: nat): seq<Event> {
    seq(k, i requires 0 <= i < k => Start(i))
  }

  function Stops(k: nat): seq<Event> {
    seq(k, i requires 0 <= i < k => Stop(k - 1 - i))
  }

  function Quiesces(cs: seq<Component>): seq<Event> {
    if cs == [] then []
    else (if cs[|cs| - 1].quiesces then [Quiesce(|cs| - 1)] else []) + Quiesces(cs[..|cs| - 1])
  }

  function Drains(cs: seq<Component>): seq<Event> {
    if cs == [] then []
    else (if cs[|cs| - 1].drains then [Drain(|cs| - 1)] else []) + Drains(cs[..|cs| - 1])
  }

  ghost predicate Within(n: nat, log: seq<Event>, lo: int, hi: int) {
    Ordered(n, log) && forall k :: 0 <= k < |log| ==> lo <= Rank(n, log[k]) < hi
  }

  lemma WithinConcat(n: nat, a: seq<Event>, b: seq<Event>, lo: int, mid: int, hi: int)
    requires Within(n, a, lo, mid) && Within(n, b, mid, hi) && lo <= mid <= hi
    ensures Within(n, a + b, lo, hi)
  {
    hide Rank, Fits;
  }

  lemma StartsWithin(n: nat, k: nat)
    requires k <= n
    ensures Within(n, Starts(k), 0, n)
    ensures forall e :: e in Starts(k) <==> e.Start? && e.i < k
  {
    forall i: nat | i < k
      ensures Start(i) in Starts(k)
    {
      assert Starts(k)[i] == Start(i);
    }
  }

  lemma StopsWithin(n: nat, k: nat)
    requires k <= n
    ensures Within(n, Stops(k), 3 * n + 3, 4 * n + 3)
    ensures forall e :: e in Stops(k) <==> e.Stop? && e.i < k
  {
    forall i: nat | i < k
      ensures Stop(i) in Stops(k)
    {
      assert Stops(k)[k - 1 - i] == Stop(i);
    }
  }

  /** An event that may or may not happen. */
  function Maybe(happens: bool, e: Event): seq<Event> {
    if happens then [e] else []
  }

  lemma MaybeWithin(n: nat, happens: bool, e: Event)
    requires Fits(n, e)
    ensures Within(n, Maybe(happens, e), Rank(n, e), Rank(n, e) + 1)
  {
    hide Rank, Fits;
  }

  lemma {:induction false} InQuiesces(cs: seq<Component>)
    ensures forall e :: e in Quiesces(cs) <==> e.Quiesce? && e.i < |cs| && cs[e.i].quiesces
  {
    if cs != [] {
      InQuiesces(cs[..|cs| - 1]);
    }
  }

  lemma {:induction false} QuiescesWithin(n: nat, cs: seq<Component>)
    requires |cs| <= n
    ensures Within(n, Quiesces(cs), 2 * n + 2 - |cs|, 2 * n + 2)
  {
    hide Within;
    if cs == [] {
      NothingWithin(n, 2 * n + 2);
    } else {
      var cs', k := cs[..|cs| - 1], |cs| - 1;
      var head := Maybe(cs[k].quiesces, Quiesce(k));
      QuiescesWithin(n, cs');
      MaybeWithin(n, cs[k].quiesces, Quiesce(k));
      WithinConcat(n, head, Quiesces(cs'), 2 * n + 2 - |cs|, 2 * n + 2 - k, 2 * n + 2);
      assert Quiesces(cs) == head + Quiesces(cs');
    }
  }

  lemma {:induction false} InDrains(cs: seq<Component>)
    ensures forall e :: e in Drains(cs) <==> e.Drain? && e.i < |cs| && cs[e.i].drains
  {
    if cs != [] {
      InDrains(cs[..|cs| - 1]);
    }
  }

  lemma {:induction false} DrainsWithin(n: nat, cs: seq<Component>)
    requires |cs| <= n
    ensures Within(n, Drains(cs), 3 * n + 2 - |cs|, 3 * n + 2)
  {
    hide Within;
    if cs == [] {
      NothingWithin(n, 3 * n + 2);
    } else {
      var cs', k := cs[..|cs| - 1], |cs| - 1;
      var head := Maybe(cs[k].drains, Drain(k));
      DrainsWithin(n, cs');
      MaybeWithin(n, cs[k].drains, Drain(k));
      WithinConcat(n, head, Drains(cs'), 3 * n + 2 - |cs|, 3 * n + 2 - k, 3 * n + 2);
      assert Drains(cs) == head + Drains(cs');
    }
  }

  lemma NothingWithin(n: nat, at: int)
    ensures Within(n, [], at, at)
  {
  }

  /** A run that does not get to serve: `asked` components were asked to start, `up` of them did. */
  function ShortLog(asked: nat, up: nat): seq<Event> {
    Starts(asked) + Stops(up) + [Enter(Failed)]
  }

  function FullLog(cs: seq<Component>, end: State): seq<Event> {
    Starts(|cs|) + [Enter(Ready)] + [Enter(Draining)] + Quiesces(cs) + Drains(cs) + [Enter(Stopping)]
    + Stops(|cs|) + [Enter(end)]
  }

  lemma ShortLogOrdered(n: nat, asked: nat, up: nat)
    requires up <= asked <= n
    ensures Ordered(n, ShortLog(asked, up))
  {
    StartsWithin(n, asked);
    StopsWithin(n, up);
    hide Starts, Stops;
    assert Within(n, Stops(up) + [Enter(Failed)], 3 * n + 3, 4 * n + 4) by {
      WithinConcat(n, Stops(up), [Enter(Failed)], 3 * n + 3, 4 * n + 3, 4 * n + 4);
    }
    assert Within(n, Starts(asked), 0, 3 * n + 3);
    hide Rank, Fits;
    WithinConcat(n, Starts(asked), Stops(up) + [Enter(Failed)], 0, 3 * n + 3, 4 * n + 4);
    assert ShortLog(asked, up) == Starts(asked) + (Stops(up) + [Enter(Failed)]);
  }

  lemma FullLogOrdered(cs: seq<Component>, end: State)
    requires end == Stopped || end == Failed
    ensures Ordered(|cs|, FullLog(cs, end))
  {
    hide Starts, Stops, Quiesces, Drains, Within, Ordered;
    var n := |cs|;
    UpToDrains(cs);
    StopsWithin(n, n);
    assert Within(n, [Enter(Stopping)], 3 * n + 2, 3 * n + 3) && Within(n, [Enter(end)], 4 * n + 3, 4 * n + 4) by {
      MaybeWithin(n, true, Enter(Stopping));
      MaybeWithin(n, true, Enter(end));
    }
    var a := Starts(n) + [Enter(Ready)] + [Enter(Draining)] + Quiesces(cs) + Drains(cs);
    WithinConcat(n, a, [Enter(Stopping)], 0, 3 * n + 2, 3 * n + 3);
    a := a + [Enter(Stopping)];
    WithinConcat(n, a, Stops(n), 0, 3 * n + 3, 4 * n + 3);
    a := a + Stops(n);
    WithinConcat(n, a, [Enter(end)], 0, 4 * n + 3, 4 * n + 4);
    WithinIsOrdered(n, a + [Enter(end)], 0, 4 * n + 4);
  }

  lemma UpToDrains(cs: seq<Component>)
    ensures Within(|cs|, Starts(|cs|) + [Enter(Ready)] + [Enter(Draining)] + Quiesces(cs) + Drains(cs), 0, 3 * |cs| + 2)
  {
    hide Starts, Quiesces, Drains, Within;
    var n := |cs|;
    StartsWithin(n, n);
    QuiescesWithin(n, cs);
    DrainsWithin(n, cs);
    assert Within(n, [Enter(Ready)], n, n + 1) && Within(n, [Enter(Draining)], n + 1, n + 2) by {
      MaybeWithin(n, true, Enter(Ready));
      MaybeWithin(n, true, Enter(Draining));
    }
    WithinConcat(n, Starts(n), [Enter(Ready)], 0, n, n + 1);
    var a := Starts(n) + [Enter(Ready)];
    WithinConcat(n, a, [Enter(Draining)], 0, n + 1, n + 2);
    a := a + [Enter(Draining)];
    WithinConcat(n, a, Quiesces(cs), 0, n + 2, 2 * n + 2);
    a := a + Quiesces(cs);
    WithinConcat(n, a, Drains(cs), 0, 2 * n + 2, 3 * n + 2);
  }

  lemma WithinIsOrdered(n: nat, log: seq<Event>, lo: int, hi: int)
    requires Within(n, log, lo, hi)
    ensures Ordered(n, log)
  {
  }

  /** Why a run does not get to serve, after asking `asked` components to start and having `up` of
      them started. */
  ghost predicate CutShort(w: World, n: nat, why: Failure, asked: nat, up: nat) {
    || (why == ConfigFailed && !w.configOk && asked == 0 && up == 0)
    || (why == StartFailed(up) && w.configOk && up < n && asked == up + 1 && !w.startOk(up)
        && forall j :: 0 <= j < up ==> w.startOk(j))
    || (why == Interrupted && AllUp(w, n) && w.interrupted && asked == n && up == n)
    || (why == ReadyRefused && AllUp(w, n) && !w.interrupted && false in w.votes(Ready) && asked == n && up == n)
  }

  lemma CutShortMeans(w: World, n: nat, why: Failure, asked: nat, up: nat)
    requires CutShort(w, n, why, asked, up)
    ensures up <= asked <= n && !Serves(w, n)
    ensures forall i: nat :: Begun(w, n, i) <==> i < asked
    ensures forall i: nat :: Up(w, n, i) <==> i < up
  {
  }

  lemma ShortLogHappened(w: World, cs: seq<Component>, why: Failure, asked: nat, up: nat)
    requires CutShort(w, |cs|, why, asked, up)
    ensures Ordered(|cs|, ShortLog(asked, up)) && Happened(w, cs, ShortLog(asked, up)) && !Clean(w, cs)
  {
    CutShortMeans(w, |cs|, why, asked, up);
    ShortLogOrdered(|cs|, asked, up);
    StartsWithin(|cs|, asked);
    StopsWithin(|cs|, up);
    hide Starts, Stops, Begun, Up, Serves, Within, CutShort, Ordered;
    var log := ShortLog(asked, up);
    forall e
      ensures e in log <==> e in Starts(asked) || e in Stops(up) || e == Enter(Failed)
    {
    }
    hide ShortLog;
  }

  /** The errors of rolling back `up` components. */
  ghost predicate StopErrors(w: World, up: nat, errs: seq<Failure>) {
    forall f :: f in errs <==> f.StopFailed? && f.i < up && w.stop(f.i) == Broken
  }

  lemma ShortReported(w: World, cs: seq<Component>, why: Failure, asked: nat, up: nat, stops: seq<Failure>)
    requires CutShort(w, |cs|, why, asked, up) && StopErrors(w, up, stops)
    ensures Reported(w, cs, [why] + stops)
  {
    CutShortMeans(w, |cs|, why, asked, up);
    hide Serves, Up;
    forall f
      ensures f in [why] + stops <==> f == why || f in stops
    {
    }
  }

  /** The errors of quiescing and draining. */
  ghost predicate DrainErrors(w: World, cs: seq<Component>, errs: seq<Failure>) {
    forall f :: f in errs <==>
      || (f.QuiesceFailed? && f.i < |cs| && cs[f.i].quiesces && w.quiesce(f.i) == Broken)
      || (f.DrainFailed? && f.i < |cs| && cs[f.i].drains && w.drain(f.i) == Broken)
      || (f.DrainCutShort? && w.drainCutShort)
  }

  lemma FullReported(w: World, cs: seq<Component>, drains: seq<Failure>, stops: seq<Failure>)
    requires Serves(w, |cs|) && DrainErrors(w, cs, drains) && StopErrors(w, |cs|, stops)
    ensures var errs := drains + (if w.runtimeOk then [] else [RuntimeFailed]) + stops;
            Reported(w, cs, errs) && (errs == [] <==> Clean(w, cs))
  {
    var errs := drains + (if w.runtimeOk then [] else [RuntimeFailed]) + stops;
    forall i: nat
      ensures Up(w, |cs|, i) <==> i < |cs|
      ensures Begun(w, |cs|, i) ==> w.startOk(i)
    {
    }
    forall f
      ensures f in errs <==> f in drains || f in stops || (f == RuntimeFailed && !w.runtimeOk)
    {
    }
    hide Up, Begun;
    if errs != [] {
      assert errs[0] in errs;
    }
  }

  lemma FullLogHappened(w: World, cs: seq<Component>)
    requires Serves(w, |cs|)
    ensures Happened(w, cs, FullLog(cs, if Clean(w, cs) then Stopped else Failed))
  {
    hide Starts, Stops, Quiesces, Drains, Within, Begun, Up, Serves, Clean;
    var n, end := |cs|, if Clean(w, cs) then Stopped else Failed;
    StartsWithin(n, n);
    InQuiesces(cs);
    InDrains(cs);
    StopsWithin(n, n);
    ServingIsUp(w, cs);
    InFullLog(cs, end);
    hide FullLog;
  }

  lemma ServingIsUp(w: World, cs: seq<Component>)
    requires Serves(w, |cs|)
    ensures forall i: nat :: (Begun(w, |cs|, i) <==> i < |cs|) && (Up(w, |cs|, i) <==> i < |cs|)
  {
  }

  lemma InFullLog(cs: seq<Component>, end: State)
    ensures forall e :: e in FullLog(cs, end) <==>
              || e in Starts(|cs|) || e == Enter(Ready) || e == Enter(Draining) || e in Quiesces(cs)
              || e in Drains(cs) || e == Enter(Stopping) || e in Stops(|cs|) || e == Enter(end)
  {
    hide Starts, Stops, Quiesces, Drains;
  }

  // ---- the application -----------------------------------------------------------------------------------

  datatype RegisterResult = Registered | EmptyName | TooLate | Duplicate

  class App {
    var components: seq<Component>
    var names: set<string>
    var runStarted: bool
    var log: seq<Event>
    const store: StateStore

    ghost predicate Valid()
      reads this, store
    {
      && store.Valid()
      && names == (set c | c in components :: c.name)
      && "" !in names
      && (forall i, j :: 0 <= i < j < |components| ==> components[i].name != components[j].name)
      && (!runStarted ==> log == [] && store.current == Starting)
    }

    constructor ()
      ensures Valid() && components == [] && !runStarted && fresh(store)
    {
      components, names, runStarted, log := [], {}, false, [];
      store := new StateStore();
    }

    /** Names stay distinct; nothing is added once Run has begun. */
    method Register(c: Component) returns (result: RegisterResult)
      requires Valid()
      modifies this`components, this`names
      ensures Valid()
      ensures result == if c.name == "" then EmptyName
                        else if runStarted then TooLate
                        else if exists d :: d in old(components) && d.name == c.name then Duplicate
                        else Registered
      ensures components == if result.Registered? then old(components) + [c] else old(components)
    {
      if c.name == "" {
        return EmptyName;
      }
      if runStarted {
        return TooLate;
      }
      if c.name in names {
        return Duplicate;
      }
      names := names + {c.name};
      components := components + [c];
      return Registered;
    }

    /** Components are started in order up to the first that fails; `up` of them did. */
    method StartComponents(w: World) returns (up: nat)
      modifies this`log
      ensures up <= |components| && forall j :: 0 <= j < up ==> w.startOk(j)
      ensures up < |components| ==> !w.startOk(up)
      ensures log == old(log) + Starts(if up < |components| then up + 1 else up)
    {
      up := 0;
      while up < |components|
        invariant 0 <= up <= |components| && log == old(log) + Starts(up)
        invariant forall j :: 0 <= j < up ==> w.startOk(j)
      {
        assert Starts(up + 1) == Starts(up) + [Start(up)];
        log := log + [Start(up)];
        if !w.startOk(up) {
          return;
        }
        up := up + 1;
      }
    }

    method StopComponents(up: nat, w: World) returns (errs: seq<Failure>)
      modifies this`log
      ensures log == old(log) + Stops(up)
      ensures StopErrors(w, up, errs)
    {
      errs := [];
      var i := up;
      while i > 0
        invariant 0 <= i <= up
        invariant log + Stops(i) == old(log) + Stops(up)
        invariant forall f :: f in errs <==> f.StopFailed? && i <= f.i < up && w.stop(f.i) == Broken
      {
        i := i - 1;
        assert Stops(i + 1) == [Stop(i)] + Stops(i);
        assert log + Stops(i + 1) == (log + [Stop(i)]) + Stops(i);
        log := log + [Stop(i)];
        if w.stop(i) == Broken {
          errs := errs + [StopFailed(i)];
        }
      }
      assert log + Stops(0) == log;
    }

    /** The first pass of a drain: every component is told to take no more work. */
    method QuiesceComponents(w: World) returns (errs: seq<Failure>)
      modifies this`log
      ensures log == old(log) + Quiesces(components)
      ensures forall f :: f in errs <==>
                f.QuiesceFailed? && f.i < |components| && components[f.i].quiesces && w.quiesce(f.i) == Broken
    {
      errs := [];
      var n, i := |components|, |components|;
      assert components[..n] == components;
      while i > 0
        invariant 0 <= i <= n
        invariant log + Quiesces(components[..i]) == old(log) + Quiesces(components)
        invariant forall f :: f in errs <==>
                    f.QuiesceFailed? && i <= f.i < n && components[f.i].quiesces && w.quiesce(f.i) == Broken
      {
        ghost var here := components[..i];
        assert here[..i - 1] == components[..i - 1];
        i := i - 1;
        if components[i].quiesces {
          assert log + Quiesces(here) == (log + [Quiesce(i)]) + Quiesces(components[..i]);
          log := log + [Quiesce(i)];
          if w.quiesce(i) == Broken {
            errs := errs + [QuiesceFailed(i)];
          }
        } else {
          assert Quiesces(here) == Quiesces(components[..i]);
        }
      }
      assert log == log + Quiesces(components[..0]);
    }

    method DrainComponents(w: World) returns (errs: seq<Failure>)
      modifies this`log
      ensures log == old(log) + Quiesces(components) + Drains(components)
      ensures DrainErrors(w, components, errs)
    {
      errs := QuiesceComponents(w);
      ghost var mid := log;
      var n, i := |components|, |components|;
      assert components[..n] == components;
      while i > 0
        invariant 0 <= i <= n
        invariant log + Drains(components[..i]) == mid + Drains(components)
        invariant forall f :: f in errs <==>
                    (f.QuiesceFailed? && f.i < n && components[f.i].quiesces && w.quiesce(f.i) == Broken)
                    || (f.DrainFailed? && i <= f.i < n && components[f.i].drains && w.drain(f.i) == Broken)
      {
        ghost var here := components[..i];
        assert here[..i - 1] == components[..i - 1];
        i := i - 1;
        if components[i].drains {
          assert log + Drains(here) == (log + [Drain(i)]) + Drains(components[..i]);
          log := log + [Drain(i)];
          if w.drain(i) == Broken {
            errs := errs + [DrainFailed(i)];
          }
        } else {
          assert Drains(here) == Drains(components[..i]);
        }
      }
      assert log == log + Drains(components[..0]);
      if w.drainCutShort {
        errs := errs + [DrainCutShort];
      }
    }

    /** A transition that is logged when it is committed. */
    method Enter(s: State, votes: seq<bool>) returns (ok: bool)
      requires store.Valid() && Legal(store.current, s)
      modifies this`log, store
      ensures store.Valid() && ok == (ShuttingDown(s) || false !in votes)
      ensures store.current == if ok then s else old(store.current)
      ensures log == if ok then old(log) + [Event.Enter(s)] else old(log)
    {
      var outcome, asked := store.Transition(s, votes);
      ok := outcome.Committed?;
      if ok {
        log := log + [Event.Enter(s)];
      }
    }

    /** Roll back and give up: the tail of every run that does not get to serve. */
    method GiveUp(w: World, why: Failure, ghost asked: nat, up: nat) returns (errs: seq<Failure>)
      requires store.Valid() && store.current == Starting
      requires CutShort(w, |components|, why, asked, up) && log == Starts(asked)
      modifies this`log, store
      ensures store.Valid() && store.current == Failed
      ensures Ordered(|components|, log) && Happened(w, components, log)
      ensures Reported(w, components, errs) && errs != [] && !Clean(w, components)
    {
      var stops := StopComponents(up, w);
      var ok := Enter(Failed, w.votes(Failed));
      ShortLogHappened(w, components, why, asked, up);
      ShortReported(w, components, why, asked, up, stops);
      errs := [why] + stops;
    }

    /** From Ready on. */
    method WindDown(w: World) returns (errs: seq<Failure>)
      requires store.Valid() && store.current == Ready
      requires Serves(w, |components|) && log == Starts(|components|) + [Event.Enter(Ready)]
      modifies this`log, store
      ensures store.Valid() && store.current == if errs == [] then Stopped else Failed
      ensures Ordered(|components|, log) && Happened(w, components, log)
      ensures Reported(w, components, errs) && (errs == [] <==> Clean(w, components))
    {
      hide Serves, Starts, Stops, Quiesces, Drains, Ordered, Happened, Reported, Clean, DrainErrors, StopErrors;
      var ok := Enter(Draining, w.votes(Draining));
      var drains := DrainComponents(w);
      var runtime := if w.runtimeOk then [] else [RuntimeFailed];
      ok := Enter(Stopping, w.votes(Stopping));
      var stops := StopComponents(|components|, w);
      FullReported(w, components, drains, stops);
      errs := drains + runtime + stops;
      var end := if errs == [] then Stopped else Failed;
      ok := Enter(end, w.votes(end));
      FullLogOrdered(components, end);
      FullLogHappened(w, components);
      assert log == FullLog(components, end);
    }

    /** Whatever the hooks, signals and observers do, refusals of any transition included: events
        happen in order and at most once, exactly the components that were reached are started, exactly
        those that started are stopped, and nothing is returned exactly when the application ends in
        Stopped. A second call is refused. */
    method Run(w: World) returns (errs: seq<Failure>)
      requires Valid()
      modifies this`runStarted, this`log, store
      ensures Valid() && runStarted
      ensures old(runStarted) ==> errs == [AlreadyRunning] && log == old(log) && store.current == old(store.current)
      ensures !old(runStarted) ==> Ordered(|components|, log) && Happened(w, components, log)
      ensures !old(runStarted) ==> Reported(w, components, errs)
      ensures !old(runStarted) ==> (errs == [] <==> Clean(w, components))
      ensures !old(runStarted) ==> store.current == if errs == [] then Stopped else Failed
    {
      hide Ordered, Happened, Reported, Clean;
      if runStarted {
        return [AlreadyRunning];
      }
      runStarted := true;
      if !w.configOk {
        errs := GiveUp(w, ConfigFailed, 0, 0);
        return;
      }
      var up := StartComponents(w);
      if up < |components| {
        errs := GiveUp(w, StartFailed(up), up + 1, up);
        return;
      }
      if w.interrupted {
        errs := GiveUp(w, Interrupted, up, up);
        return;
      }
      var ready := Enter(Ready, w.votes(Ready));
      if !ready {
        errs := GiveUp(w, ReadyRefused, up, up);
        return;
      }
      errs := WindDown(w);
    }
  }
}
