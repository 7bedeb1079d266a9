/**
 Properties of single lifecycle transitions and of short sequences of them:
 the reachable-state invariant, idempotent Start and Stop, graceful drain,
 forced stop, and what happens to a backlog left by a forced stop.
 */
module Lifecycle {
  import opened Hooks
  import opened Consumer

  /** Start, Stop and Commit keep the reachable-state invariant. */
  lemma TransitionsKeepValid<T>(s: State<T>, count: Count, force: bool, answer: bool, item: T)
    requires Valid(s)
    ensures Valid(Start(s, count, answer).state)
    ensures Valid(Stop(s, force, answer).state)
    ensures Valid(Commit(s, item).state)
  {
  }

  /** A worker step taken at rest keeps the invariant: it only happens while
      started, and then it waits or consumes; it never exits. */
  lemma StepKeepsValid<T>(s: State<T>)
    requires Valid(s) && s.running > 0
    ensures HasStarted(s) && !Step(s).Exited?
    ensures Step(s).Took? ==> Valid(Step(s).next)
  {
  }

  /** A second Start with a non-zero count and without a Stop in between
      returns true, calls no hook and keeps the worker count of the first.
      (A count of zero is refused even while started.) */
  lemma StartTwice<T>(s: State<T>, n: Count, m: Count, a: bool, b: bool)
    requires Start(s, n, a).ok && m > 0
    ensures var first := Start(s, n, a);
      && Start(first.state, m, b) == Outcome(first.state, true, [])
      && Start(first.state, 0, b) == Outcome(first.state, false, [])
      && |first.trace| <= 1
  {
  }

  /** A second Stop without a Start in between returns true and calls no hook. */
  lemma StopTwice<T>(s: State<T>, f: bool, g: bool, a: bool, b: bool)
    ensures var first := Stop(s, f, a);
      Stop(first.state, g, b) == Outcome(first.state, true, [])
  {
  }

  /** After a Stop every Commit is refused and leaves the state untouched. */
  lemma CommitAfterStopRefused<T>(s: State<T>, f: bool, a: bool, item: T)
    ensures var stopped := Stop(s, f, a).state;
      Commit(stopped, item) == Outcome(stopped, false, [])
  {
  }

  /** Graceful drain: Stop(false) of a started consumer hands every queued
      item to OnConsume, in queue order, and leaves the queue empty. */
  lemma GracefulStopDrains<T>(s: State<T>, a: bool)
    requires Valid(s) && HasStarted(s)
    ensures Stop(s, false, a).state.queue == []
    ensures Items(Stop(s, false, a).trace) == s.queue
  {
    var o := Stop(s, false, a);
    ItemsAppend(ConsumeTrace(s.binding, s.queue), StopCalls<T>(s.binding, false));
    ItemsOfConsumeTrace(s.binding, s.queue);
    NoItemsInLifecycleCalls<T>(s.binding, false);
  }

  /** Forced stop: Stop(true) hands no item to OnConsume and keeps the queue. */
  lemma ForcedStopConsumesNothing<T>(s: State<T>, a: bool)
    ensures Stop(s, true, a).state.queue == s.queue
    ensures Items(Stop(s, true, a).trace) == []
  {
    NoItemsInLifecycleCalls<T>(s.binding, true);
  }

  /** Items left behind by a forced stop are still queued, in order, after
      the next effective Start, and that Start clears the forced flag. */
  lemma BacklogSurvivesRestart<T>(s: State<T>, a: bool, n: Count, b: bool)
    requires HasStarted(s)
    requires Start(Stop(s, true, a).state, n, b).ok
    ensures var restarted := Start(Stop(s, true, a).state, n, b).state;
      && restarted.queue == s.queue
      && HasStarted(restarted) && !restarted.forced
      && restarted.threads == n
      && (|s.queue| > 0 ==> Step(restarted).Took? && Step(restarted).item == s.queue[0])
  {
  }
}
