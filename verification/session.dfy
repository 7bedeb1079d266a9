/**
 A consumer driven by a script of operations: the public calls Start, Stop
 and Commit, and worker steps interleaved between them. The main property is
 FIFO without loss or duplication: what the workers have dequeued and handed
 to OnConsume, in dequeue order, followed by what is still queued, is exactly
 what was queued at the outset followed by every accepted commit, in order.
 */
module Session {
  import opened Hooks
  import opened Consumer

  datatype Op<T> =
    | StartOp(count: Count, answer: bool)
    | StopOp(force: bool, answer: bool)
    | CommitOp(item: T)
    | StepOp    // one loop iteration by a worker still inside the loop, if any

  /** The end of a script: final state, all hook calls in order, and the
      items whose commit was accepted. */
  datatype History<T> = History(state: State<T>, trace: seq<Event<T>>, accepted: seq<T>)

  function Apply<T>(s: State<T>, op: Op<T>): Outcome<T>
  {
    match op
    case StartOp(count, answer) => Start(s, count, answer)
    case StopOp(force, answer) => Stop(s, force, answer)
    case CommitOp(item) => Commit(s, item)
    case StepOp =>
      if s.running == 0 then Outcome(s, false, [])
      else
        match Step(s)
        case Waiting => Outcome(s, false, [])
        case Exited(next) => Outcome(next, false, [])
        case Took(next, _, calls) => Outcome(next, true, calls)
  }

  /** The item an operation adds to the queue: the committed one, if accepted. */
  function Accepted<T>(op: Op<T>, o: Outcome<T>): seq<T>
  {
    if op.CommitOp? && o.ok then [op.item] else []
  }

  function Run<T>(s: State<T>, ops: seq<Op<T>>): History<T>
    decreases |ops|
  {
    if |ops| == 0 then History(s, [], [])
    else
      var o := Apply(s, ops[0]);
      var rest := Run(o.state, ops[1..]);
      History(rest.state, o.trace + rest.trace, Accepted(ops[0], o) + rest.accepted)
  }

  /** Stop conserves items: the prefix its workers consume, then the rest. */
  lemma StopConserves<T>(s: State<T>, force: bool, answer: bool)
    requires Valid(s)
    ensures var o := Stop(s, force, answer);
      && Valid(o.state)
      && Items(o.trace) + o.state.queue == s.queue
  {
    var o := Stop(s, force, answer);
    if HasStarted(s) {
      var taken := |s.queue| - |o.state.queue|;
      ItemsAppend(ConsumeTrace(s.binding, s.queue[..taken]), StopCalls<T>(s.binding, force));
      ItemsOfConsumeTrace(s.binding, s.queue[..taken]);
      NoItemsInLifecycleCalls<T>(s.binding, force);
      assert s.queue[..taken] + s.queue[taken..] == s.queue;
    }
  }

  /** A worker step at rest conserves items: the item it takes moves from
      the front of the queue to the trace. */
  lemma StepConserves<T>(s: State<T>)
    requires Valid(s)
    ensures var o := Apply(s, StepOp);
      && Valid(o.state)
      && Items(o.trace) + o.state.queue == s.queue
      && |Items(o.trace)| <= 1
      && (o.state.queue == s.queue ||
          (|s.queue| > 0 && Items(o.trace) == [s.queue[0]] && o.state.queue == s.queue[1..]))
  {
  }

  /** Start conserves items: it touches neither the queue nor OnConsume. */
  lemma StartConserves<T>(s: State<T>, count: Count, answer: bool)
    requires Valid(s)
    ensures var o := Start(s, count, answer);
      && Valid(o.state)
      && o.state.queue == s.queue && Items(o.trace) == []
  {
  }

  /** Commit conserves items: an accepted item joins the back of the queue. */
  lemma CommitConserves<T>(s: State<T>, item: T)
    requires Valid(s)
    ensures var o := Commit(s, item);
      && Valid(o.state)
      && o.state.queue == s.queue + (if o.ok then [item] else []) && Items(o.trace) == []
  {
  }

  /** One operation keeps the invariant and conserves items: consumed items
      and the queue after it are the queue before it plus the accepted commit. */
  lemma ApplyConserves<T>(s: State<T>, op: Op<T>)
    requires Valid(s)
    ensures var o := Apply(s, op);
      && Valid(o.state)
      && Items(o.trace) + o.state.queue == s.queue + Accepted(op, o)
  {
    var o := Apply(s, op);
    if op.CommitOp? {
      assert o == Commit(s, op.item);
      CommitConserves(s, op.item);
    } else {
      assert Accepted(op, o) == [];
      assert s.queue + [] == s.queue;
      if op.StartOp? {
        assert o == Start(s, op.count, op.answer);
        StartConserves(s, op.count, op.answer);
      } else if op.StopOp? {
        assert o == Stop(s, op.force, op.answer);
        StopConserves(s, op.force, op.answer);
      } else {
        StepConserves(s);
      }
    }
  }

  /** Two conservation steps chained: consumed-then-queued after the second
      step is queued-then-committed before the first. */
  lemma Chain<T>(first: seq<T>, later: seq<T>, q0: seq<T>, q1: seq<T>, q2: seq<T>, a0: seq<T>, a1: seq<T>)
    requires first + q1 == q0 + a0
    requires later + q2 == q1 + a1
    ensures (first + later) + q2 == q0 + (a0 + a1)
  {
    calc {
      (first + later) + q2;
      first + (later + q2);
      first + (q1 + a1);
      (first + q1) + a1;
    }
  }

  /** FIFO with neither loss nor duplication, over any script from any
      reachable state; the invariant holds at the end as well. */
  lemma {:induction false} RunConserves<T>(s: State<T>, ops: seq<Op<T>>)
    requires Valid(s)
    ensures var h := Run(s, ops);
      && Valid(h.state)
      && Items(h.trace) + h.state.queue == s.queue + h.accepted
    decreases |ops|
  {
    if |ops| != 0 {
      var o := Apply(s, ops[0]);
      var rest := Run(o.state, ops[1..]);
      var h := Run(s, ops);
      assert h.state == rest.state && h.trace == o.trace + rest.trace;
      assert h.accepted == Accepted(ops[0], o) + rest.accepted;
      ApplyConserves(s, ops[0]);
      RunConserves(o.state, ops[1..]);
      ItemsAppend(o.trace, rest.trace);
      Chain(Items(o.trace), Items(rest.trace), s.queue, o.state.queue, rest.state.queue,
            Accepted(ops[0], o), rest.accepted);
    }
  }

  /** From a fresh consumer, OnConsume is handed a prefix of the accepted
      commits: items in commit order, none twice, none never committed. */
  lemma ConsumedInCommitOrder<T>(b: Binding, ops: seq<Op<T>>)
    ensures var h := Run(Init<T>(b), ops);
      Items(h.trace) <= h.accepted
  {
    var h := Run(Init<T>(b), ops);
    RunConserves(Init<T>(b), ops);
    assert Items(h.trace) + h.state.queue == h.accepted;
  }

  /** While stopped and without a Start, nothing is consumed, nothing is
      accepted and the queue stays as it is. */
  lemma {:induction false} NothingWhileStopped<T>(s: State<T>, ops: seq<Op<T>>)
    requires Valid(s) && !HasStarted(s)
    requires forall i | 0 <= i < |ops| :: !ops[i].StartOp?
    ensures var h := Run(s, ops);
      && !HasStarted(h.state) && h.state.queue == s.queue
      && Items(h.trace) == [] && h.accepted == []
    decreases |ops|
  {
    if |ops| != 0 {
      var o := Apply(s, ops[0]);
      NoItemsInLifecycleCalls<T>(s.binding, false);
      assert o.state == s && Items(o.trace) == [];
      assert forall i | 0 <= i < |ops[1..]| :: !ops[1..][i].StartOp? by {
        forall i | 0 <= i < |ops[1..]| ensures !ops[1..][i].StartOp? {
          assert ops[1..][i] == ops[i + 1];
        }
      }
      NothingWhileStopped(s, ops[1..]);
      ItemsAppend(o.trace, Run(s, ops[1..]).trace);
    }
  }
}
