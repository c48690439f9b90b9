/** What one call of PushE does when nothing interferes (lib/service/async/async.go, lib/service/async/queue.go). */
module AsyncPush {
  import opened Options
  import opened AsyncQueue
  import opened AsyncDrain

  /** The steps of PushE for value `v` by producer `p`, with the node it builds. */
  function PushSteps(p: nat, v: Val, node: Addr): seq<Action> {
    [CheckStatus(p, v), CheckCount(p), Allocate(p, node), SwapTail(p), Link(p), AddCount(p), Notify(p)]
  }

  /** With the node built and the tail swapped, */
  function Hung(s: State, p: nat, v: Val, node: Addr): State {
    s.(nodes := s.nodes[node := Node(None, v)], builder := s.builder[node := p], tail := node,
       order := s.order + [node], values := s.values + [v])
  }

  /** and once it has been linked, counted and announced. */
  function Pushed(s: State, p: nat, v: Val, node: Addr): State
    requires s.tail in s.nodes
  {
    var t := Hung(s, p, v, node);
    t.(nodes := t.nodes[s.tail := t.nodes[s.tail].(next := Some(node))], linked := s.linked + {|s.values|},
       count := s.count + 1, token := true)
  }

  lemma AdmitSteps(s: State, p: nat, v: Val)
    requires p < |s.producers| && s.producers[p].Idle?
    ensures var t := Step(Step(s, CheckStatus(p, v)), CheckCount(p));
            t == if s.status == Run && s.count < s.capacity then SetProducer(s, p, Admitted(v)) else s
  {
    assert s.producers[p := Idle] == s.producers;
    assert s.producers[p := Running(v)][p := Idle] == s.producers[p := Idle];
  }

  lemma BuildSteps(s: State, p: nat, v: Val, node: Addr)
    requires p < |s.producers| && node !in s.nodes
    ensures Step(Step(SetProducer(s, p, Admitted(v)), Allocate(p, node)), SwapTail(p))
            == SetProducer(Hung(s, p, v, node), p, Swapped(s.tail, node, |s.values|))
  {
    var t := Step(SetProducer(s, p, Admitted(v)), Allocate(p, node));
    assert t.producers == s.producers[p := Allocated(node, v)];
    assert Step(t, SwapTail(p)).producers == s.producers[p := Swapped(s.tail, node, |s.values|)];
  }

  lemma LinkSteps(s: State, p: nat, v: Val, node: Addr)
    requires p < |s.producers| && s.producers[p] == Idle && node !in s.nodes && s.tail in s.nodes
    ensures var t := SetProducer(Hung(s, p, v, node), p, Swapped(s.tail, node, |s.values|));
            Step(Step(Step(t, Link(p)), AddCount(p)), Notify(p)) == Pushed(s, p, v, node)
  {
    var t := SetProducer(Hung(s, p, v, node), p, Swapped(s.tail, node, |s.values|));
    var t1 := Step(t, Link(p));
    assert t1.producers == s.producers[p := Linked];
    var t2 := Step(t1, AddCount(p));
    assert t2.producers == s.producers[p := Counted];
    assert Step(t2, Notify(p)).producers == s.producers;
  }

  lemma NothingSteps(s: State, p: nat, node: Addr)
    requires p < |s.producers| && s.producers[p] == Idle
    ensures Step(Step(Step(Step(Step(s, Allocate(p, node)), SwapTail(p)), Link(p)), AddCount(p)), Notify(p)) == s
  {
  }

  lemma ExecSteps(s: State, p: nat, v: Val, node: Addr)
    ensures var t := Step(Step(s, CheckStatus(p, v)), CheckCount(p));
            Exec(s, PushSteps(p, v, node))
            == Step(Step(Step(Step(Step(t, Allocate(p, node)), SwapTail(p)), Link(p)), AddCount(p)), Notify(p))
  {
    hide Step, Exec;
    ExecOne(s, CheckStatus(p, v));
    ExecMore(s, [CheckStatus(p, v)], CheckCount(p));
    var two := [CheckStatus(p, v)] + [CheckCount(p)];
    ExecMore(s, two, Allocate(p, node));
    ExecMore(s, two + [Allocate(p, node)], SwapTail(p));
    ExecMore(s, two + [Allocate(p, node)] + [SwapTail(p)], Link(p));
    ExecMore(s, two + [Allocate(p, node)] + [SwapTail(p)] + [Link(p)], AddCount(p));
    ExecMore(s, two + [Allocate(p, node)] + [SwapTail(p)] + [Link(p)] + [AddCount(p)], Notify(p));
    assert PushSteps(p, v, node)
           == two + [Allocate(p, node)] + [SwapTail(p)] + [Link(p)] + [AddCount(p)] + [Notify(p)];
  }

  lemma PushedParts(s: State, p: nat, v: Val, node: Addr)
    requires s.tail in s.nodes
    ensures var t := Pushed(s, p, v, node);
            && t.values == s.values + [v] && t.popped == s.popped && t.count == s.count + 1 && t.token
            && |s.values| in t.linked && t.tail == node && t.producers == s.producers
            && t.worker == s.worker && t.status == s.status
  {
  }

  /** In any reachable state, a PushE that nothing interferes with is accepted exactly when the worker
      runs and the count is below the capacity. Then its value is the last in the list, its node is
      linked, the count is one higher and the worker is notified; otherwise nothing changes. */
  lemma PushExactly(capacity: nat, producerCount: nat, dummy: Addr, actions: seq<Action>, p: nat, v: Val, node: Addr)
    requires producerCount > 0
    requires var s := Exec(Init(capacity, producerCount, dummy), actions);
             p < |s.producers| && s.producers[p].Idle? && node !in s.nodes
    ensures var s := Exec(Init(capacity, producerCount, dummy), actions);
            var t := Exec(s, PushSteps(p, v, node));
            if s.status == Run && s.count < capacity then
              && t.values == s.values + [v] && t.popped == s.popped && t.count == s.count + 1 && t.token
              && |s.values| in t.linked && t.tail == node && t.producers == s.producers
              && t.worker == s.worker && t.status == s.status
            else t == s
  {
    var s := Exec(Init(capacity, producerCount, dummy), actions);
    ExecInv(capacity, producerCount, dummy, actions);
    ExecConstants(Init(capacity, producerCount, dummy), actions);
    hide Step, Exec;
    ExecSteps(s, p, v, node);
    AdmitSteps(s, p, v);
    if s.status == Run && s.count < capacity {
      hide Hung;
      BuildSteps(s, p, v, node);
      LinkSteps(s, p, v, node);
      PushedParts(s, p, v, node);
    } else {
      NothingSteps(s, p, node);
    }
  }
}
