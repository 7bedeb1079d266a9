/**
 Concrete runs of a consumer: the lifecycle of a consumer bound to a lone
 consume callback, and of one bound to a handler that overrides OnStart.
 */
module Scenarios {
  import opened Hooks
  import opened Consumer

  /** Consume-only callbacks, one worker, three commits, graceful stop:
      OnConsume sees 'a', 'b', 'c' in that order and Stop returns true. */
  lemma CallbackRunDrainsInOrder()
    ensures var s0 := Init<char>(Callbacks(true, false, false));
      var started := Start(s0, 1, false);
      var c1 := Commit(started.state, 'a');
      var c2 := Commit(c1.state, 'b');
      var c3 := Commit(c2.state, 'c');
      var stopped := Stop(c3.state, false, false);
      && started.ok && started.trace == []
      && c1.ok && c2.ok && c3.ok
      && stopped.ok && stopped.state.queue == []
      && stopped.trace == [ConsumeCalled(ViaCallback, 'a'), ConsumeCalled(ViaCallback, 'b'), ConsumeCalled(ViaCallback, 'c')]
  {
    var b := Callbacks(true, false, false);
    var s0 := Init<char>(b);
    var started := Start(s0, 1, false);
    assert started.state == State(b, [], false, false, 1, 1) && started.trace == [];
    var c1 := Commit(started.state, 'a');
    assert c1.state == State(b, ['a'], false, false, 1, 1);
    var c2 := Commit(c1.state, 'b');
    assert c2.state == State(b, ['a', 'b'], false, false, 1, 1);
    var c3 := Commit(c2.state, 'c');
    var q := ['a', 'b', 'c'];
    assert c3.state == State(b, q, false, false, 1, 1);
    assert q[1..] == ['b', 'c'] && q[1..][1..] == ['c'] && q[1..][1..][1..] == [];
    assert ConsumeTrace(b, q[1..][1..]) == [ConsumeCalled(ViaCallback, 'c')];
    assert ConsumeTrace(b, q[1..]) == [ConsumeCalled(ViaCallback, 'b'), ConsumeCalled(ViaCallback, 'c')];
    assert ConsumeTrace(b, q) == [ConsumeCalled(ViaCallback, 'a'), ConsumeCalled(ViaCallback, 'b'), ConsumeCalled(ViaCallback, 'c')];
    assert StopCalls<char>(b, false) == [];
  }

  /** Start(0) is refused without calling OnStart; the consumer stays stopped
      and a Commit is refused. */
  lemma ZeroWorkersRefused(overridesOnStart: bool, answer: bool)
    ensures var s0 := Init<char>(Handler(overridesOnStart, false));
      var o := Start(s0, 0, answer);
      && !o.ok && o.trace == [] && !HasStarted(o.state)
      && !Commit(o.state, 'x').ok
  {
  }

  /** Start(1) then Start(3) on a handler-bound consumer: both return true,
      OnStart runs once, and one worker exists. */
  lemma SecondStartKeepsOneWorker()
    ensures var s0 := Init<char>(Handler(true, false));
      var first := Start(s0, 1, true);
      var second := Start(first.state, 3, false);
      && first.ok && second.ok
      && first.trace + second.trace == [StartCalled(ViaHandler)]
      && second.state.threads == 1
  {
  }

  /** A handler whose OnStart returns false vetoes the start: the consumer
      stays stopped and refuses commits. */
  lemma StartVetoKeepsStopped()
    ensures var s0 := Init<char>(Handler(true, true));
      var o := Start(s0, 2, false);
      && !o.ok && o.trace == [StartCalled(ViaHandler)]
      && o.state == s0 && !Commit(o.state, 'x').ok
  {
  }
}
