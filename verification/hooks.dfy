/**
 The event hooks of a consumer component: the handler interface with its
 default OnStart/OnStop, the alternative triple of callbacks, and the record
 of hook calls a consumer makes (the trace its transitions return).
 */
module Hooks {

  /** Which of the two bindings served a hook call. */
  datatype Via = ViaHandler | ViaCallback

  /**
   The binding chosen at construction and never changed afterwards.
   - Handler: a non-null handler object. OnConsume is always its own; the
     flags say whether it overrides OnStart / OnStop, whose base versions
     return true.
   - Callbacks: the three function slots, each of which may be empty. A
     consumer constructed with a null handler pointer behaves as
     Callbacks(false, false, false).
   */
  datatype Binding =
    | Handler(overridesOnStart: bool, overridesOnStop: bool)
    | Callbacks(hasConsume: bool, hasStart: bool, hasStop: bool)

  /** One call of a hook, as the consumer makes it. */
  datatype Event<T> =
    | StartCalled(via: Via)
    | ConsumeCalled(via: Via, item: T)
    | StopCalled(via: Via, forced: bool)

  /** The binding has something to consume items with. */
  predicate CanConsume(b: Binding) {
    b.Handler? || b.hasConsume
  }

  /** The calls Start makes when it reaches its start hook. */
  function StartCalls<T>(b: Binding): (calls: seq<Event<T>>)
    ensures |calls| <= 1
    ensures forall e | e in calls :: e.StartCalled? && e.via == (if b.Handler? then ViaHandler else ViaCallback)
    ensures calls == [] <==> b.Callbacks? && !b.hasStart
  {
    match b
    case Handler(_, _) => [StartCalled(ViaHandler)]
    case Callbacks(_, hasStart, _) => if hasStart then [StartCalled(ViaCallback)] else []
  }

  /** The verdict of the start hook: the handler's OnStart (true when not
      overridden), or else the start callback (true when none is bound). */
  predicate StartAccepted(b: Binding, answer: bool)
    // the hook's own answer decides whenever there is a hook of the user's
    ensures (b.Handler? && b.overridesOnStart) || (b.Callbacks? && b.hasStart) ==> (StartAccepted(b, answer) <==> answer)
    // the base OnStart returns true
    ensures b.Handler? && !b.overridesOnStart ==> StartAccepted(b, answer)
    // a missing start callback counts as success
    ensures b.Callbacks? && !b.hasStart ==> StartAccepted(b, answer)
  {
    match b
    case Handler(overrides, _) => !overrides || answer
    case Callbacks(_, hasStart, _) => !hasStart || answer
  }

  /** The calls Stop makes to its stop hook, passing on the forced flag. */
  function StopCalls<T>(b: Binding, forced: bool): (calls: seq<Event<T>>)
    ensures |calls| <= 1
    ensures forall e | e in calls :: e.StopCalled? && e.forced == forced && e.via == (if b.Handler? then ViaHandler else ViaCallback)
    ensures calls == [] <==> b.Callbacks? && !b.hasStop
  {
    match b
    case Handler(_, _) => [StopCalled(ViaHandler, forced)]
    case Callbacks(_, _, hasStop) => if hasStop then [StopCalled(ViaCallback, forced)] else []
  }

  /** The verdict of the stop hook: the handler's OnStop (true when not
      overridden), or else the stop callback (true when none is bound). */
  predicate StopAccepted(b: Binding, answer: bool)
    // the hook's own answer decides whenever there is a hook of the user's
    ensures (b.Handler? && b.overridesOnStop) || (b.Callbacks? && b.hasStop) ==> (StopAccepted(b, answer) <==> answer)
    // the base OnStop returns true
    ensures b.Handler? && !b.overridesOnStop ==> StopAccepted(b, answer)
    // a missing stop callback counts as success
    ensures b.Callbacks? && !b.hasStop ==> StopAccepted(b, answer)
  {
    match b
    case Handler(_, overrides) => !overrides || answer
    case Callbacks(_, _, hasStop) => !hasStop || answer
  }

  /** The call a worker makes for one dequeued item: the handler's OnConsume
      when a handler is bound (the callback is then never consulted), the
      consume callback otherwise, nothing when neither exists. */
  function ConsumeCalls<T>(b: Binding, item: T): (calls: seq<Event<T>>)
    ensures |calls| <= 1
    ensures calls == [] <==> !CanConsume(b)
    ensures forall e | e in calls :: e == ConsumeCalled(if b.Handler? then ViaHandler else ViaCallback, item)
  {
    match b
    case Handler(_, _) => [ConsumeCalled(ViaHandler, item)]
    case Callbacks(hasConsume, _, _) => if hasConsume then [ConsumeCalled(ViaCallback, item)] else []
  }

  /** The calls made for a run of dequeued items, in dequeue order. */
  function ConsumeTrace<T>(b: Binding, items: seq<T>): seq<Event<T>>
  {
    if |items| == 0 then [] else ConsumeCalls(b, items[0]) + ConsumeTrace(b, items[1..])
  }

  /** The items handed to OnConsume, in call order. */
  function Items<T>(trace: seq<Event<T>>): seq<T>
  {
    if |trace| == 0 then []
    else (if trace[0].ConsumeCalled? then [trace[0].item] else []) + Items(trace[1..])
  }

  lemma {:induction false} ItemsAppend<T>(a: seq<Event<T>>, b: seq<Event<T>>)
    ensures Items(a + b) == Items(a) + Items(b)
    decreases |a|
  {
    if |a| == 0 {
      assert a + b == b;
    } else {
      assert (a + b)[0] == a[0];
      assert (a + b)[1..] == a[1..] + b;
      ItemsAppend(a[1..], b);
    }
  }

  /** Neither the start hook nor the stop hook hands over an item. */
  lemma NoItemsInLifecycleCalls<T>(b: Binding, forced: bool)
    ensures Items(StartCalls<T>(b)) == []
    ensures Items(StopCalls<T>(b, forced)) == []
  {
  }

  /** When something can consume, the consume trace of a run of items hands
      over exactly those items, in order; otherwise it is empty. */
  lemma {:induction false} ItemsOfConsumeTrace<T>(b: Binding, items: seq<T>)
    ensures CanConsume(b) ==> Items(ConsumeTrace(b, items)) == items
    ensures !CanConsume(b) ==> ConsumeTrace(b, items) == []
    decreases |items|
  {
    if |items| != 0 {
      ItemsOfConsumeTrace(b, items[1..]);
      ItemsAppend(ConsumeCalls(b, items[0]), ConsumeTrace(b, items[1..]));
    }
  }
}
