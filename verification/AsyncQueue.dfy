/** The multi-producer, single-consumer queue and its worker, one step per atomic operation
    (lib/service/async/queue.go, lib/service/async/async.go). */
module AsyncQueue {
  import opened Options

  type Addr = nat
  type Val = int

  datatype Node = Node(next: Option<Addr>, value: Val)

  datatype Status = Run | Quiescing | Stopped

  /** Where a caller of PushE stands. `pos` counts the tail swaps before this producer's own. */
  datatype Producer =
    | Idle
    | Running(v: Val)                            // status seen as RUN
    | Admitted(v: Val)                           // count seen below the capacity
    | Allocated(node: Addr, v: Val)              // node built, not yet in the list
    | Swapped(prev: Addr, node: Addr, pos: nat)  // tail swapped, previous node not yet linked
    | Linked                                     // reachable from head, not yet counted
    | Counted                                    // counted, worker not yet notified

  /** Where the worker goroutine stands. */
  datatype Worker =
    | Waiting            // in the select
    | Popping            // about to load head.next
    | Loaded(node: Addr) // head.next seen
    | Taken(node: Addr)  // count lowered
    | Cleared(node: Addr) // old head unlinked
    | Exited

  /** The shared memory, the threads, and histories: the nodes in tail-swap order (with the first
      dummy node), the values in that order, the values Pop has returned, the positions whose node
      has been linked to its successor, and the producer that built each node. */
  datatype State = State(
    nodes: map<Addr, Node>,
    head: Addr,
    tail: Addr,
    count: int,
    token: bool,
    status: Status,
    exitSent: bool,
    exiting: bool,
    capacity: nat,
    producers: seq<Producer>,
    worker: Worker,
    order: seq<Addr>,
    values: seq<Val>,
    popped: seq<Val>,
    linked: set<nat>,
    builder: map<Addr, nat>)

  datatype Action =
    | CheckStatus(p: nat, v: Val)
    | CheckCount(p: nat)
    | Allocate(p: nat, node: Addr)
    | SwapTail(p: nat)
    | Link(p: nat)
    | AddCount(p: nat)
    | Notify(p: nat)
    | TakeToken
    | TakeExit
    | LoadNext
    | LowerCount
    | ClearNext
    | MoveHead
    | Quiesce
    | Stop

  function Init(capacity: nat, producerCount: nat, dummy: Addr): State {
    State(map[dummy := Node(None, 0)], dummy, dummy, 0, false, Run, false, false, capacity,
          seq(producerCount, _ => Idle), Waiting, [dummy], [], [], {}, map[])
  }

  function SetProducer(s: State, p: nat, pc: Producer): State
    requires p < |s.producers|
  {
    s.(producers := s.producers[p := pc])
  }

  function SetNext(s: State, a: Addr, next: Option<Addr>): (s': State)
    ensures s' == s.(nodes := s'.nodes)
  {
    if a in s.nodes then s.(nodes := s.nodes[a := s.nodes[a].(next := next)]) else s
  }

  /** One atomic step of a producer; a step that is not this producer's next one changes nothing. */
  function ProducerStep(s: State, a: Action): (s': State)
    ensures s'.capacity == s.capacity && |s'.producers| == |s.producers|
  {
    match a
    case CheckStatus(p, v) =>
      if p < |s.producers| && s.producers[p].Idle? && s.status == Run then SetProducer(s, p, Running(v)) else s
    case CheckCount(p) =>
      if p < |s.producers| && s.producers[p].Running? then
        SetProducer(s, p, if s.count >= s.capacity then Idle else Admitted(s.producers[p].v))
      else s
    case Allocate(p, node) =>
      if p < |s.producers| && s.producers[p].Admitted? && node !in s.nodes then
        var v := s.producers[p].v;
        SetProducer(s.(nodes := s.nodes[node := Node(None, v)], builder := s.builder[node := p]), p, Allocated(node, v))
      else s
    case SwapTail(p) =>
      if p < |s.producers| && s.producers[p].Allocated? then
        var Allocated(node, v) := s.producers[p];
        SetProducer(s.(tail := node, order := s.order + [node], values := s.values + [v]),
                    p, Swapped(s.tail, node, |s.values|))
      else s
    case Link(p) =>
      if p < |s.producers| && s.producers[p].Swapped? then
        var Swapped(prev, node, pos) := s.producers[p];
        SetProducer(SetNext(s, prev, Some(node)).(linked := s.linked + {pos}), p, Linked)
      else s
    case AddCount(p) =>
      if p < |s.producers| && s.producers[p].Linked? then SetProducer(s.(count := s.count + 1), p, Counted) else s
    case Notify(p) =>
      if p < |s.producers| && s.producers[p].Counted? then SetProducer(s.(token := true), p, Idle) else s
    case _ => s
  }

  /** One atomic step of the worker, or of a caller of Quiesce or Stop. */
  function WorkerStep(s: State, a: Action): (s': State)
    ensures s'.capacity == s.capacity && |s'.producers| == |s.producers|
  {
    match a
    case TakeToken => if s.worker.Waiting? && s.token then s.(token := false, worker := Popping) else s
    case TakeExit =>
      if s.worker.Waiting? && s.exitSent then s.(exitSent := false, exiting := true, worker := Popping) else s
    case LoadNext =>
      if s.worker.Popping? && s.head in s.nodes then
        match s.nodes[s.head].next
        case Some(node) => s.(worker := Loaded(node))
        case None => s.(worker := if s.exiting then Exited else Waiting)
      else s
    case LowerCount => if s.worker.Loaded? then s.(count := s.count - 1, worker := Taken(s.worker.node)) else s
    case ClearNext => if s.worker.Taken? then SetNext(s, s.head, None).(worker := Cleared(s.worker.node)) else s
    case MoveHead =>
      if s.worker.Cleared? && s.worker.node in s.nodes then
        s.(head := s.worker.node, popped := s.popped + [s.nodes[s.worker.node].value], worker := Popping)
      else s
    case Quiesce => if s.status == Run then s.(status := Quiescing) else s
    case Stop => if s.status != Stopped then s.(status := Stopped, exitSent := true) else s
    case _ => s
  }

  function Step(s: State, a: Action): (s': State)
    ensures s'.capacity == s.capacity && |s'.producers| == |s.producers|
  {
    match a
    case CheckStatus(_, _) => ProducerStep(s, a)
    case CheckCount(_) => ProducerStep(s, a)
    case Allocate(_, _) => ProducerStep(s, a)
    case SwapTail(_) => ProducerStep(s, a)
    case Link(_) => ProducerStep(s, a)
    case AddCount(_) => ProducerStep(s, a)
    case Notify(_) => ProducerStep(s, a)
    case _ => WorkerStep(s, a)
  }

  /** The state after any interleaving of steps. */
  function Exec(s: State, actions: seq<Action>): State {
    if actions == [] then s else Step(Exec(s, actions[..|actions| - 1]), actions[|actions| - 1])
  }

  // ---- the invariant --------------------------------------------------------------------------

  /** The worker has loaded the node after head and not yet moved to it. */
  predicate MidPop(w: Worker) {
    w.Loaded? || w.Taken? || w.Cleared?
  }

  /** What the next field at position `i` holds: the following node in swap order, once linked. */
  function NextOf(s: State, i: nat): Option<Addr>
    requires i < |s.order|
  {
    if i in s.linked && i + 1 < |s.order| && !(i == |s.popped| && s.worker.Cleared?) then Some(s.order[i + 1]) else None
  }

  ghost predicate Edge(s: State, i: nat)
    requires i < |s.order|
  {
    s.order[i] in s.nodes && s.nodes[s.order[i]].next == NextOf(s, i)
  }

  ghost predicate Holds(s: State, i: nat)
    requires i < |s.values| && |s.order| == |s.values| + 1
  {
    s.order[i + 1] in s.nodes && s.nodes[s.order[i + 1]].value == s.values[i]
  }

  ghost predicate Listed(s: State) {
    && |s.order| == |s.values| + 1 && |s.popped| <= |s.values|
    && s.tail == s.order[|s.values|] && s.head == s.order[|s.popped|]
    && (forall i, j :: 0 <= i < j < |s.order| ==> s.order[i] != s.order[j])
    && (forall i :: 0 <= i < |s.order| ==> s.order[i] in s.nodes)
    && (forall i :: 0 <= i < |s.values| ==> Holds(s, i))
    && s.popped == s.values[..|s.popped|]
  }

  ghost predicate Chained(s: State)
    requires Listed(s)
  {
    && (forall i :: i in s.linked ==> i < |s.values|)
    && (forall i :: 0 <= i < |s.popped| ==> i in s.linked)
    && (forall i :: |s.popped| <= i < |s.order| ==> Edge(s, i))
    && (MidPop(s.worker) ==> |s.popped| in s.linked && s.worker.node == s.order[|s.popped| + 1])
  }

  /** A producer that has built its node but not swapped the tail still has it to itself. */
  ghost predicate Fresh(s: State, p: nat)
    requires p < |s.producers|
  {
    s.producers[p].Allocated? ==>
      var Allocated(node, v) := s.producers[p];
      && node in s.nodes && s.nodes[node] == Node(None, v) && node !in s.order
      && node in s.builder && s.builder[node] == p
  }

  /** A producer between swap and link owns one missing edge of the list. */
  ghost predicate Owns(s: State, p: nat)
    requires Listed(s) && p < |s.producers|
  {
    s.producers[p].Swapped? ==>
      var Swapped(prev, node, pos) := s.producers[p];
      && pos < |s.values| && pos !in s.linked && prev == s.order[pos] && node == s.order[pos + 1]
      && node in s.builder && s.builder[node] == p
  }

  /** A missing edge is owned by the producer that built the node behind it. */
  ghost predicate Owned(s: State, i: nat)
    requires i + 1 < |s.order|
  {
    i !in s.linked ==>
      var node := s.order[i + 1];
      && node in s.builder && s.builder[node] < |s.producers|
      && s.producers[s.builder[node]].Swapped? && s.producers[s.builder[node]].pos == i
  }

  ghost predicate Threads(s: State)
    requires Listed(s)
  {
    && (forall p :: 0 <= p < |s.producers| ==> Fresh(s, p) && Owns(s, p))
    && (forall i :: 0 <= i < |s.values| ==> Owned(s, i))
    && (forall a :: a in s.builder ==> a in s.nodes)
  }

  /** How many producers satisfy `f`. */
  ghost function Number(ps: seq<Producer>, f: Producer -> bool): (n: nat)
    ensures n <= |ps|
  {
    if ps == [] then 0 else Number(ps[1..], f) + if f(ps[0]) then 1 else 0
  }

  predicate NotYetCounted(pc: Producer) {
    pc.Swapped? || pc.Linked?
  }

  predicate Committed(pc: Producer) {
    pc.Admitted? || pc.Allocated? || pc.Swapped? || pc.Linked?
  }

  /** Producers whose node is in the swap order but not in the count. */
  ghost function Uncounted(s: State): nat {
    Number(s.producers, NotYetCounted)
  }

  /** Producers past the capacity check that have not raised the count yet. */
  ghost function InFlight(s: State): nat {
    Number(s.producers, Committed)
  }

  ghost predicate CountExact(s: State) {
    s.count == |s.values| - |s.popped| - Uncounted(s) - Debt(s.worker)
  }

  ghost predicate Bounded(s: State) {
    s.count + InFlight(s) <= s.capacity + |s.producers| - 1
  }

  ghost predicate Notifying(s: State) {
    exists p :: 0 <= p < |s.producers| && (s.producers[p].Linked? || s.producers[p].Counted?)
  }

  /** A worker that waits while head.next is set has been, or is about to be, notified. */
  ghost predicate Awake(s: State)
    requires Listed(s)
  {
    s.worker.Waiting? && s.nodes[s.head].next.Some? ==> s.token || Notifying(s)
  }

  ghost predicate Struct(s: State) {
    Listed(s) && Chained(s) && Threads(s)
  }

  ghost predicate Inv(s: State) {
    Struct(s) && CountExact(s) && Bounded(s) && Awake(s)
  }

  lemma {:induction false} NumberUpdate(ps: seq<Producer>, f: Producer -> bool, p: nat, pc: Producer)
    requires p < |ps|
    ensures Number(ps[p := pc], f) == Number(ps, f) - (if f(ps[p]) then 1 else 0) + (if f(pc) then 1 else 0)
  {
    if p > 0 {
      assert ps[p := pc][1..] == ps[1..][p - 1 := pc];
      NumberUpdate(ps[1..], f, p - 1, pc);
    } else {
      assert ps[p := pc][1..] == ps[1..];
    }
  }

  // ---- every step keeps the list ----------------------------------------------------------------

  /** Writing a next field, or adding a node, touches no position and no value. */
  lemma ListedAfterWrite(s: State, s': State)
    requires Listed(s)
    requires s'.order == s.order && s'.values == s.values && s'.popped == s.popped && s'.head == s.head && s'.tail == s.tail
    requires forall a :: a in s.nodes ==> a in s'.nodes && s'.nodes[a].value == s.nodes[a].value
    ensures Listed(s')
  {
    assert forall i :: 0 <= i < |s.values| ==> Holds(s, i) ==> Holds(s', i);
  }

  lemma ChainedAfterNew(s: State, s': State)
    requires Listed(s) && Chained(s) && Listed(s')
    requires s'.order == s.order && s'.values == s.values && s'.popped == s.popped && s'.linked == s.linked
    requires s'.worker == s.worker && forall a :: a in s.nodes ==> a in s'.nodes && s'.nodes[a] == s.nodes[a]
    ensures Chained(s')
  {
    assert forall i :: |s.popped| <= i < |s.order| ==> Edge(s, i) ==> Edge(s', i);
  }

  lemma StructAfterPc(s: State, s': State, p: nat)
    requires Struct(s) && p < |s.producers| == |s'.producers|
    requires s' == SetProducer(s, p, s'.producers[p]).(token := s'.token, count := s'.count)
    requires !s.producers[p].Allocated? && !s.producers[p].Swapped? && !s'.producers[p].Allocated? && !s'.producers[p].Swapped?
    ensures Struct(s')
  {
    ListedAfterWrite(s, s');
    ChainedAfterNew(s, s');
    hide Listed, Chained;
    assert forall q :: 0 <= q < |s.producers| ==> Fresh(s, q) && Owns(s, q) ==> Fresh(s', q) && Owns(s', q);
    assert forall i :: 0 <= i < |s.values| ==> Owned(s, i) ==> Owned(s', i);
  }

  lemma ThreadsAfterAllocate(s: State, p: nat, node: Addr)
    requires Listed(s) && Threads(s) && Listed(ProducerStep(s, Allocate(p, node)))
    ensures Threads(ProducerStep(s, Allocate(p, node)))
  {
    hide Holds;
    var s' := ProducerStep(s, Allocate(p, node));
    forall q | 0 <= q < |s'.producers|
      ensures Fresh(s', q) && Owns(s', q)
    {
      assert Fresh(s, q) && Owns(s, q);
    }
    forall i | 0 <= i < |s'.values|
      ensures Owned(s', i)
    {
      assert Owned(s, i);
    }
  }

  lemma StructAfterAllocate(s: State, p: nat, node: Addr)
    requires Struct(s)
    ensures Struct(ProducerStep(s, Allocate(p, node)))
  {
    var s' := ProducerStep(s, Allocate(p, node));
    hide Chained, Holds, Threads;
    ListedAfterWrite(s, s');
    ChainedAfterNew(s, s');
    ThreadsAfterAllocate(s, p, node);
  }

  lemma ListedAfterSwap(s: State, p: nat)
    requires Struct(s)
    ensures Listed(ProducerStep(s, SwapTail(p)))
  {
    var s' := ProducerStep(s, SwapTail(p));
    if s' != s {
      assert Fresh(s, p);
      assert forall i :: 0 <= i < |s.values| ==> Holds(s, i) ==> Holds(s', i);
      assert Holds(s', |s.values|);
    }
  }

  lemma StructAfterSwap(s: State, p: nat)
    requires Struct(s)
    ensures Struct(ProducerStep(s, SwapTail(p)))
  {
    ListedAfterSwap(s, p);
    hide Holds;
    var s' := ProducerStep(s, SwapTail(p));
    if s' != s {
      assert Fresh(s, p);
      assert forall i :: |s.popped| <= i < |s.order| ==> Edge(s, i) ==> Edge(s', i);
      assert Edge(s', |s.order|);
      assert forall q :: 0 <= q < |s.producers| ==> Fresh(s, q) && Owns(s, q) ==> Fresh(s', q) && Owns(s', q);
      assert forall i :: 0 <= i < |s.values| ==> Owned(s, i) ==> Owned(s', i);
    }
  }

  lemma StructAfterLink(s: State, p: nat)
    requires Struct(s)
    ensures Struct(ProducerStep(s, Link(p)))
  {
    var s' := ProducerStep(s, Link(p));
    if s' != s {
      assert Owns(s, p);
      ListedAfterWrite(s, s');
      hide Holds;
      assert forall i :: |s.popped| <= i < |s.order| ==> Edge(s, i) ==> Edge(s', i);
      assert forall q :: 0 <= q < |s.producers| ==> Fresh(s, q) && Owns(s, q) ==> Fresh(s', q) && Owns(s', q);
      assert forall i :: 0 <= i < |s.values| ==> Owned(s, i) ==> Owned(s', i);
    }
  }

  /** Nothing but the worker, the counters and the status changes. */
  lemma StructAfterWait(s: State, s': State)
    requires Struct(s)
    requires s' == s.(worker := s'.worker, count := s'.count, token := s'.token, status := s'.status,
                      exitSent := s'.exitSent, exiting := s'.exiting)
    requires s.worker.Cleared? == s'.worker.Cleared?
    requires MidPop(s'.worker) ==> |s.popped| in s.linked && s'.worker.node == s.order[|s.popped| + 1]
    ensures Struct(s')
  {
    assert forall i :: 0 <= i < |s.values| ==> Holds(s, i) ==> Holds(s', i);
    assert forall i :: |s'.popped| <= i < |s.order| ==> Edge(s, i) ==> Edge(s', i);
    assert forall q :: 0 <= q < |s.producers| ==> Fresh(s, q) && Owns(s, q) ==> Fresh(s', q) && Owns(s', q);
    assert forall i :: 0 <= i < |s.values| ==> Owned(s, i) ==> Owned(s', i);
  }

  lemma StructAfterLoad(s: State)
    requires Struct(s)
    ensures Struct(WorkerStep(s, LoadNext))
  {
    assert Edge(s, |s.popped|);
    StructAfterWait(s, WorkerStep(s, LoadNext));
  }

  lemma StructAfterLower(s: State)
    requires Struct(s)
    ensures Struct(WorkerStep(s, LowerCount))
  {
    StructAfterWait(s, WorkerStep(s, LowerCount));
  }

  lemma StructAfterSignal(s: State, a: Action)
    requires Struct(s) && (a.TakeToken? || a.TakeExit? || a.Quiesce? || a.Stop?)
    ensures Struct(WorkerStep(s, a))
  {
    StructAfterWait(s, WorkerStep(s, a));
  }

  lemma StructAfterClear(s: State)
    requires Struct(s)
    ensures Struct(WorkerStep(s, ClearNext))
  {
    var s' := WorkerStep(s, ClearNext);
    ListedAfterWrite(s, s');
    hide Holds;
    assert forall i :: |s.popped| <= i < |s.order| ==> Edge(s, i) ==> Edge(s', i);
    assert forall q :: 0 <= q < |s.producers| ==> Fresh(s, q) && Owns(s, q) ==> Fresh(s', q) && Owns(s', q);
    assert forall i :: 0 <= i < |s.values| ==> Owned(s, i) ==> Owned(s', i);
  }

  lemma StructAfterMove(s: State)
    requires Struct(s)
    ensures Struct(WorkerStep(s, MoveHead))
  {
    var s' := WorkerStep(s, MoveHead);
    if s' != s {
      assert Holds(s, |s.popped|);
      assert forall i :: 0 <= i < |s.values| ==> Holds(s, i) ==> Holds(s', i);
      assert forall i :: |s'.popped| <= i < |s.order| ==> Edge(s, i) ==> Edge(s', i);
      assert forall q :: 0 <= q < |s.producers| ==> Fresh(s, q) && Owns(s, q) ==> Fresh(s', q) && Owns(s', q);
      assert forall i :: 0 <= i < |s.values| ==> Owned(s, i) ==> Owned(s', i);
    }
  }

  lemma StructAfterStep(s: State, a: Action)
    requires Struct(s)
    ensures Struct(Step(s, a))
  {
    hide Struct;
    var s' := Step(s, a);
    if s' != s {
      match a
      case CheckStatus(p, v) => StructAfterPc(s, s', p);
      case CheckCount(p) => StructAfterPc(s, s', p);
      case Allocate(p, node) => StructAfterAllocate(s, p, node);
      case SwapTail(p) => StructAfterSwap(s, p);
      case Link(p) => StructAfterLink(s, p);
      case AddCount(p) => StructAfterPc(s, s', p);
      case Notify(p) => StructAfterPc(s, s', p);
      case ClearNext => StructAfterClear(s);
      case MoveHead => StructAfterMove(s);
      case LoadNext => StructAfterLoad(s);
      case LowerCount => StructAfterLower(s);
      case _ => StructAfterSignal(s, a);
    }
  }

  // ---- counting -------------------------------------------------------------------------------

  /** The worker has lowered the count for a node it has not returned yet. */
  function Debt(w: Worker): nat {
    if w.Taken? || w.Cleared? then 1 else 0
  }

  lemma CountsAfterPc(s: State, p: nat, pc: Producer)
    requires p < |s.producers|
    ensures Uncounted(SetProducer(s, p, pc)) ==
            Uncounted(s) - (if NotYetCounted(s.producers[p]) then 1 else 0) + (if NotYetCounted(pc) then 1 else 0)
    ensures InFlight(SetProducer(s, p, pc)) ==
            InFlight(s) - (if Committed(s.producers[p]) then 1 else 0) + (if Committed(pc) then 1 else 0)
  {
    NumberUpdate(s.producers, NotYetCounted, p, pc);
    NumberUpdate(s.producers, Committed, p, pc);
  }

  lemma CountAfterProducer(s: State, s': State, p: nat)
    requires CountExact(s) && Bounded(s) && p < |s.producers| == |s'.producers|
    requires s'.producers == s.producers[p := s'.producers[p]]
    requires s'.popped == s.popped && s'.worker == s.worker && s'.capacity == s.capacity
    requires s'.count - s.count == if s.producers[p].Linked? then 1 else 0
    requires |s'.values| - |s.values| == if s.producers[p].Allocated? then 1 else 0
    requires || Advances(s.producers[p], s'.producers[p])
             || (s.producers[p].Running? && s'.producers[p].Admitted? && s.count < s.capacity)
    ensures CountExact(s') && Bounded(s')
  {
    CountsAfterPc(s, p, s'.producers[p]);
    if s.producers[p].Running? {
      NumberBelow(s.producers, Committed, p);
    }
  }

  /** One program step of a producer other than passing the capacity check. */
  predicate Advances(pc: Producer, pc': Producer) {
    match pc
    case Idle => pc'.Running?
    case Running(_) => pc'.Idle?
    case Admitted(_) => pc'.Allocated?
    case Allocated(_, _) => pc'.Swapped?
    case Swapped(_, _, _) => pc'.Linked?
    case Linked => pc'.Counted?
    case Counted => pc'.Idle?
  }

  lemma CountAfterWorker(s: State, a: Action)
    requires CountExact(s) && Bounded(s)
    ensures CountExact(WorkerStep(s, a)) && Bounded(WorkerStep(s, a))
  {
    hide Number;
  }

  lemma CountAfterStep(s: State, a: Action)
    requires CountExact(s) && Bounded(s)
    ensures CountExact(Step(s, a)) && Bounded(Step(s, a))
  {
    hide CountExact, Bounded, WorkerStep;
    var s' := Step(s, a);
    if s' == WorkerStep(s, a) {
      CountAfterWorker(s, a);
    } else if s' != s {
      CountAfterProducer(s, s', a.p);
    }
  }

  lemma {:induction false} NumberBelow(ps: seq<Producer>, f: Producer -> bool, p: nat)
    requires p < |ps| && !f(ps[p])
    ensures Number(ps, f) < |ps|
  {
    if p > 0 {
      NumberBelow(ps[1..], f, p - 1);
    }
  }

  // ---- wake-up --------------------------------------------------------------------------------

  lemma NotifyingKept(s: State, s': State, p: nat)
    requires Notifying(s) && |s'.producers| == |s.producers| && p < |s.producers|
    requires forall q :: 0 <= q < |s.producers| && q != p ==> s'.producers[q] == s.producers[q]
    requires s'.producers[p].Linked? || s'.producers[p].Counted? || !(s.producers[p].Linked? || s.producers[p].Counted?)
    ensures Notifying(s')
  {
    var q :| 0 <= q < |s.producers| && (s.producers[q].Linked? || s.producers[q].Counted?);
    assert s'.producers[q].Linked? || s'.producers[q].Counted?;
  }

  lemma AwakeAfterProducer(s: State, a: Action)
    requires Listed(s) && Awake(s) && Listed(ProducerStep(s, a))
    ensures Awake(ProducerStep(s, a))
  {
    hide Holds, Notifying;
    var s' := ProducerStep(s, a);
    if s' != s && s'.worker.Waiting? && !s'.token && s'.nodes[s'.head].next.Some? {
      if a.Link? || a.AddCount? {
        NotifyingNow(s', a.p);
      } else {
        NotifyingKept(s, s', a.p);
      }
    }
  }

  lemma NotifyingNow(s: State, p: nat)
    requires p < |s.producers| && (s.producers[p].Linked? || s.producers[p].Counted?)
    ensures Notifying(s)
  {
  }

  lemma AwakeAfterWorker(s: State, a: Action)
    requires Listed(s) && Awake(s) && Listed(WorkerStep(s, a))
    ensures Awake(WorkerStep(s, a))
  {
    hide Holds, Notifying;
    assert Notifying(WorkerStep(s, a)) == Notifying(s) by {
      SameProducers(s, WorkerStep(s, a));
    }
  }

  lemma SameProducers(s: State, s': State)
    requires s.producers == s'.producers
    ensures Notifying(s) == Notifying(s')
  {
  }

  lemma AwakeAfterStep(s: State, a: Action)
    requires Listed(s) && Awake(s) && Listed(Step(s, a))
    ensures Awake(Step(s, a))
  {
    hide Awake, Listed, WorkerStep, ProducerStep;
    if Step(s, a) == WorkerStep(s, a) {
      AwakeAfterWorker(s, a);
    } else {
      AwakeAfterProducer(s, a);
    }
  }

  // ---- every run ------------------------------------------------------------------------------

  lemma {:induction false} InitInv(capacity: nat, producerCount: nat, dummy: Addr)
    requires producerCount > 0
    ensures Inv(Init(capacity, producerCount, dummy))
  {
    var s := Init(capacity, producerCount, dummy);
    NumberNone(s.producers, NotYetCounted);
    NumberNone(s.producers, Committed);
    assert Edge(s, 0);
  }

  lemma {:induction false} NumberNone(ps: seq<Producer>, f: Producer -> bool)
    requires forall p :: 0 <= p < |ps| ==> !f(ps[p])
    ensures Number(ps, f) == 0
  {
    if ps != [] {
      NumberNone(ps[1..], f);
    }
  }

  /** The invariant holds after every interleaving of any number of producers and the worker. */
  lemma {:induction false} ExecInv(capacity: nat, producerCount: nat, dummy: Addr, actions: seq<Action>)
    requires producerCount > 0
    ensures Inv(Exec(Init(capacity, producerCount, dummy), actions))
  {
    var s0 := Init(capacity, producerCount, dummy);
    if actions == [] {
      InitInv(capacity, producerCount, dummy);
    } else {
      var a := actions[|actions| - 1];
      ExecInv(capacity, producerCount, dummy, actions[..|actions| - 1]);
      var s := Exec(s0, actions[..|actions| - 1]);
      StructAfterStep(s, a);
      CountAfterStep(s, a);
      AwakeAfterStep(s, a);
    }
  }

  lemma {:induction false} ExecConstants(s: State, actions: seq<Action>)
    ensures Exec(s, actions).capacity == s.capacity && |Exec(s, actions).producers| == |s.producers|
  {
    hide Step;
    if actions != [] {
      ExecConstants(s, actions[..|actions| - 1]);
    }
  }

  /** Pop returns exactly the pushed values in tail-swap order: none lost, repeated or overtaken, even
      while some of them are not linked yet. */
  lemma PoppedInSwapOrder(capacity: nat, producerCount: nat, dummy: Addr, actions: seq<Action>)
    requires producerCount > 0
    ensures Exec(Init(capacity, producerCount, dummy), actions).popped <= Exec(Init(capacity, producerCount, dummy), actions).values
  {
    ExecInv(capacity, producerCount, dummy, actions);
  }

  /** No wake-up is lost: when the worker waits, no notification is pending and no PushE is under way,
      every value has been popped and the count is zero. */
  lemma WaitingMeansEmpty(capacity: nat, producerCount: nat, dummy: Addr, actions: seq<Action>)
    requires producerCount > 0
    ensures var s := Exec(Init(capacity, producerCount, dummy), actions);
            s.worker.Waiting? && !s.token && (forall p :: 0 <= p < |s.producers| ==> s.producers[p].Idle?) ==>
              s.popped == s.values && s.count == 0
  {
    ExecInv(capacity, producerCount, dummy, actions);
    var s := Exec(Init(capacity, producerCount, dummy), actions);
    if s.worker.Waiting? && !s.token && forall p :: 0 <= p < |s.producers| ==> s.producers[p].Idle? {
      var d := |s.popped|;
      NumberNone(s.producers, NotYetCounted);
      assert Edge(s, d);
      if d < |s.values| {
        assert Owned(s, d);
      }
    }
  }

  /** While the worker waits with something to pop, the token is in the channel or some producer has
      linked its node and has still to send it. */
  lemma WakeUpPending(capacity: nat, producerCount: nat, dummy: Addr, actions: seq<Action>)
    requires producerCount > 0
    ensures var s := Exec(Init(capacity, producerCount, dummy), actions);
            s.worker.Waiting? && s.head in s.nodes && s.nodes[s.head].next.Some? ==> s.token || Notifying(s)
  {
    ExecInv(capacity, producerCount, dummy, actions);
  }

  /** With P producers the capacity is overrun by P - 1 at most; the true backlog, which counts nodes
      from their tail swap until Pop returns them, by P at most. */
  lemma CapacityOverrun(capacity: nat, producerCount: nat, dummy: Addr, actions: seq<Action>)
    requires producerCount > 0
    ensures var s := Exec(Init(capacity, producerCount, dummy), actions);
            && s.count <= capacity + producerCount - 1
            && |s.values| - |s.popped| <= capacity + producerCount
  {
    var s0 := Init(capacity, producerCount, dummy);
    ExecInv(capacity, producerCount, dummy, actions);
    ExecConstants(s0, actions);
    NumberImplies(Exec(s0, actions).producers);
  }

  lemma {:induction false} NumberImplies(ps: seq<Producer>)
    ensures Number(ps, NotYetCounted) <= Number(ps, Committed)
  {
    if ps != [] {
      NumberImplies(ps[1..]);
    }
  }

  /** What a zero count says: the values not yet popped are exactly those of producers
      between swap and count, plus the one the worker is returning. */
  lemma DrainSees(capacity: nat, producerCount: nat, dummy: Addr, actions: seq<Action>)
    requires producerCount > 0
    ensures var s := Exec(Init(capacity, producerCount, dummy), actions);
            s.count == 0 <==> |s.values| - |s.popped| == Uncounted(s) + Debt(s.worker)
  {
    ExecInv(capacity, producerCount, dummy, actions);
  }

  lemma ExecMore(s: State, actions: seq<Action>, a: Action)
    ensures Exec(s, actions + [a]) == Step(Exec(s, actions), a)
    ensures actions == [] ==> Exec(s, actions) == s
  {
    assert (actions + [a])[..|actions|] == actions;
  }

  // ---- the worker's drain loop ------------------------------------------------------------------

  /** One turn of the loop around Pop. */
  function PopOnce(s: State): State {
    WorkerStep(WorkerStep(WorkerStep(WorkerStep(s, LoadNext), LowerCount), ClearNext), MoveHead)
  }

  lemma PopOnceReturnsNext(s: State)
    requires Struct(s) && s.worker.Popping? && |s.popped| in s.linked
    ensures var s' := PopOnce(s);
            && Struct(s') && s'.worker.Popping? && s'.popped == s.values[..|s.popped| + 1]
            && s'.values == s.values && s'.linked == s.linked && s'.exiting == s.exiting
  {
    var s1 := WorkerStep(s, LoadNext);
    var s2 := WorkerStep(s1, LowerCount);
    var s3 := WorkerStep(s2, ClearNext);
    StructAfterLoad(s);
    StructAfterLower(s1);
    StructAfterClear(s2);
    StructAfterMove(s3);
    assert Edge(s, |s.popped|);
  }

  function PopTimes(s: State, n: nat): State
    decreases n
  {
    if n == 0 then s else PopTimes(PopOnce(s), n - 1)
  }

  /** Once woken with every node linked, the worker returns all values that are in the list, in order,
      and goes back to waiting, or exits when it has been told to. */
  lemma {:induction false} WorkerDrains(s: State)
    requires Struct(s) && |s.popped| <= |s.values|
    requires s.worker.Popping? && forall i :: 0 <= i < |s.values| ==> i in s.linked
    ensures var s' := WorkerStep(PopTimes(s, |s.values| - |s.popped|), LoadNext);
            s'.popped == s.values && s'.worker == if s.exiting then Exited else Waiting
    decreases |s.values| - |s.popped|
  {
    hide Struct, PopOnce, WorkerStep;
    if |s.popped| == |s.values| {
      NothingLeft(s);
    } else {
      ListedLengths(s);
      PopOnceReturnsNext(s);
      WorkerDrains(PopOnce(s));
    }
  }

  lemma ListedLengths(s: State)
    requires Struct(s)
    ensures |s.popped| <= |s.values|
  {
  }

  lemma NothingLeft(s: State)
    requires Struct(s) && s.worker.Popping? && |s.popped| == |s.values|
    ensures WorkerStep(s, LoadNext).popped == s.values
    ensures WorkerStep(s, LoadNext).worker == if s.exiting then Exited else Waiting
  {
    assert Edge(s, |s.popped|);
  }
}
