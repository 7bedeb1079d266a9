/**
 The consumer component as a sequential state machine: a FIFO queue, the
 stopped and forced flags, the worker threads, and the binding fixed at
 construction. Each transition returns the next state, the boolean the
 operation returns, and the hook calls it made. Worker threads are
 identical, so a worker step is one iteration of the consume loop by some
 worker that is still inside it.
 */
module Consumer {
  import opened Hooks

  /** The worker count argument of Start is an unsigned short. */
  type Count = n: nat | n < 0x1_0000

  datatype State<T> = State(
    binding: Binding,
    queue: seq<T>,   // front is queue[0]
    stopped: bool,
    forced: bool,
    threads: nat,    // thread objects held by the consumer
    running: nat)    // of those, threads still inside the consume loop

  /** What an operation returns: the next state, its boolean result, and the
      hook calls it made, in order. */
  datatype Outcome<T> = Outcome(state: State<T>, ok: bool, trace: seq<Event<T>>)

  /** The outcome of one iteration of a worker's consume loop. */
  datatype StepResult<T> =
    | Waiting                                                // still blocked on the wait predicate
    | Exited(next: State<T>)                                 // left the loop; the thread ends
    | Took(next: State<T>, item: T, calls: seq<Event<T>>)    // dequeued `item` and consumed it

  /** The states reachable at rest, between public operations. While
      started, worker threads exist, all of them are inside the consume loop,
      something can consume and the forced flag is clear. While stopped, no
      worker thread exists and the forced flag keeps the last Stop's value. */
  predicate Valid<T>(s: State<T>) {
    if s.stopped then s.threads == 0 && s.running == 0
    else !s.forced && 1 <= s.threads && s.running == s.threads && CanConsume(s.binding)
  }

  /** A freshly constructed consumer: stopped, not forced, nothing queued. */
  function Init<T>(b: Binding): (s: State<T>)
    ensures Valid(s) && !HasStarted(s)
    ensures s.binding == b && s.queue == [] && !s.forced
  {
    State(b, [], true, false, 0, 0)
  }

  /** At rest, worker threads exist, and are all inside the consume loop,
      exactly while the consumer is started. */
  predicate HasStarted<T>(s: State<T>)
    ensures Valid(s) ==> (HasStarted(s) <==> s.threads > 0)
    ensures Valid(s) ==> (HasStarted(s) <==> s.running > 0)
  {
    !s.stopped
  }

  function Start<T>(s: State<T>, count: Count, answer: bool): (o: Outcome<T>)
    // a count of zero is refused before anything else is looked at
    ensures count == 0 ==> o == Outcome(s, false, [])
    // starting a started consumer succeeds, changes nothing and calls no hook
    ensures count > 0 && HasStarted(s) ==> o == Outcome(s, true, [])
    // a start from stopped succeeds exactly when something can consume and the start hook agrees
    ensures !HasStarted(s) ==> (o.ok <==> count > 0 && CanConsume(s.binding) && StartAccepted(s.binding, answer))
    // a refused start leaves the state untouched
    ensures !o.ok ==> o.state == s
    // an effective start clears both flags and adds `count` workers, keeping the queue
    ensures o.ok && !HasStarted(s) ==>
      && HasStarted(o.state) && !o.state.forced
      && o.state.threads == s.threads + count && o.state.running == s.running + count
      && o.state.queue == s.queue && o.state.binding == s.binding
    // the start hook is called only by a start from stopped that gets past the binding check
    ensures o.trace == (if count > 0 && !HasStarted(s) && CanConsume(s.binding) then StartCalls(s.binding) else [])
  {
    if count == 0 then Outcome(s, false, [])
    else if HasStarted(s) then Outcome(s, true, [])
    else if !CanConsume(s.binding) then Outcome(s, false, [])
    else
      var calls := StartCalls(s.binding);
      if !StartAccepted(s.binding, answer) then Outcome(s, false, calls)
      else
        var started := s.(stopped := false, forced := false,
                          threads := s.threads + count, running := s.running + count);
        Outcome(started, true, calls)
  }

  function Commit<T>(s: State<T>, item: T): (o: Outcome<T>)
    ensures o.ok <==> HasStarted(s)
    // a refused commit drops the item and leaves the state untouched
    ensures !o.ok ==> o.state == s
    // an accepted commit puts the item at the back, behind everything queued before
    ensures o.ok ==>
      && o.state == s.(queue := o.state.queue)
      && |o.state.queue| == |s.queue| + 1
      && o.state.queue[..|s.queue|] == s.queue
      && o.state.queue[|s.queue|] == item
    ensures o.trace == []
  {
    if !HasStarted(s) then Outcome(s, false, [])
    else Outcome(s.(queue := s.queue + [item]), true, [])
  }

  /** One iteration of the consume loop by a worker still inside it. */
  function Step<T>(s: State<T>): (r: StepResult<T>)
    requires s.running > 0
    // the worker stays blocked exactly while it is started and nothing is queued
    ensures r.Waiting? <==> !s.stopped && s.queue == []
    // the worker leaves the loop exactly when stopped and either forced or out of items
    ensures r.Exited? <==> s.stopped && (s.forced || s.queue == [])
    ensures r.Exited? ==> r.next == s.(running := s.running - 1)
    // otherwise it removes the front item and nothing else, and hands it to the consume hook
    ensures r.Took? ==>
      && s.queue != [] && r.item == s.queue[0]
      && r.next == s.(queue := r.next.queue) && [r.item] + r.next.queue == s.queue
      && r.calls == ConsumeCalls(s.binding, r.item)
  {
    if !s.stopped && |s.queue| == 0 then Waiting
    else if s.stopped && (s.forced || |s.queue| == 0) then Exited(s.(running := s.running - 1))
    else
      assert [s.queue[0]] + s.queue[1..] == s.queue;
      Took(s.(queue := s.queue[1..]), s.queue[0], ConsumeCalls(s.binding, s.queue[0]))
  }

  /** Stop waiting for its workers: worker steps after the stopped flag is
      set, until no worker is left inside the consume loop. */
  function Join<T>(s: State<T>): (r: (State<T>, seq<Event<T>>))
    requires s.stopped
    decreases |s.queue| + s.running
    ensures r.0 == s.(queue := r.0.queue, running := 0)
    // the workers take a prefix of the queue, in order, and leave the rest
    ensures |r.0.queue| <= |s.queue|
    ensures var taken := |s.queue| - |r.0.queue|;
      && r.0.queue == s.queue[taken..]
      && r.1 == ConsumeTrace(s.binding, s.queue[..taken])
    // a forced stop takes nothing
    ensures s.forced ==> r.0.queue == s.queue
    // a graceful stop with a worker left takes everything
    ensures !s.forced && s.running > 0 ==> r.0.queue == []
  {
    if s.running == 0 then
      assert s.queue[..0] == [] && s.queue[0..] == s.queue;
      (s, [])
    else
      match Step(s)
      case Exited(next) => Join(next)
      case Took(next, item, calls) =>
        var rest := Join(next);
        var taken := |s.queue| - |rest.0.queue|;
        assert s.queue[..taken] == [item] + next.queue[..taken - 1];
        assert s.queue[taken..] == next.queue[taken - 1..];
        (rest.0, calls + rest.1)
  }

  function Stop<T>(s: State<T>, force: bool, answer: bool): (o: Outcome<T>)
    // stopping a stopped consumer succeeds, changes nothing and calls no hook
    ensures !HasStarted(s) ==> o == Outcome(s, true, [])
    // a stop of a started consumer sets both flags and releases every worker
    ensures HasStarted(s) ==>
      && !HasStarted(o.state) && o.state.forced == force
      && o.state.threads == 0 && o.state.running == 0
      && o.state.binding == s.binding
    // its result is the stop hook's verdict
    ensures HasStarted(s) ==> (o.ok <==> StopAccepted(s.binding, answer))
    // the queue is never cleared: the workers consume a prefix of it, in order, then the stop hook runs
    ensures HasStarted(s) ==> |o.state.queue| <= |s.queue|
    ensures HasStarted(s) ==> var taken := |s.queue| - |o.state.queue|;
      && o.state.queue == s.queue[taken..]
      && o.trace == ConsumeTrace(s.binding, s.queue[..taken]) + StopCalls(s.binding, force)
    // a forced stop consumes nothing further and keeps the backlog
    ensures HasStarted(s) && force ==> o.state.queue == s.queue && o.trace == StopCalls(s.binding, force)
    // a graceful stop with a worker drains the whole queue, in order
    ensures HasStarted(s) && !force && s.running > 0 ==>
      o.state.queue == [] && o.trace == ConsumeTrace(s.binding, s.queue) + StopCalls(s.binding, force)
  {
    if !HasStarted(s) then Outcome(s, true, [])
    else
      var joined := Join(s.(stopped := true, forced := force));
      assert s.queue[..|s.queue|] == s.queue;
      Outcome(joined.0.(threads := 0), StopAccepted(s.binding, answer), joined.1 + StopCalls(s.binding, force))
  }
}
