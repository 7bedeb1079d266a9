# Consumer component — sequential model

This project models `csm::Consumer<T>`, a generic consumer component: an unbounded FIFO queue that several worker threads drain, a Start/Stop lifecycle, and pluggable consumption logic. The consumption logic comes from one of two bindings fixed at construction. One is an `IConsumerHander<T>` object whose `OnStart`/`OnStop` default to returning true. The other is a triple of callbacks: a consume callback plus optional start and stop callbacks.

The model is a sequential state machine over an immutable record `Consumer.State`. The record holds:
- the binding;
- the queue, a `seq<T>` with the front at index 0;
- the `stopped` and `forced` flags;
- `threads`, the thread objects the consumer holds;
- `running`, how many of those threads are still inside the consume loop.

Each public operation is a pure function returning the next state, the operation's boolean result and a trace of hook calls (`Hooks.Event`: `StartCalled`, `ConsumeCalled` with the item, `StopCalled` with the forced flag). What a user-supplied `OnStart`/`OnStop` hook returns is an oracle boolean passed to `Start`/`Stop`.

Worker threads are identical, so one iteration of a worker's consume loop is `Consumer.Step`, taken by any worker still in the loop. `Stop` first sets the flags. Then it joins: `Consumer.Join` runs worker steps until no worker is left in the loop. Then it empties the thread vector and calls the stop hook. No other operation can act during the join: `Start` and `Stop` hold the lifecycle lock, and `Commit` sees the consumer as stopped. So the model treats `Stop` as one atomic transition. `HasStarted` is the predicate `Consumer.HasStarted`. `Consumer.Valid` is the invariant that holds between operations. While started, worker threads exist, all of them are inside the loop, something can consume and the forced flag is clear. While stopped, no worker thread exists and the forced flag keeps the last Stop's value. `Session.Run` drives a consumer through any script of operations and worker steps. It carries the main property: dequeueing is FIFO with no loss and no duplication. A worker step takes the front item and hands it to OnConsume in one transition, so the trace records hand-overs in dequeue order. With one worker, that is also the order of the OnConsume calls.

Two behaviours of the code are worth stating explicitly:
- Stop never clears the queue (include/Consumer.h:213-239). Items left by a forced stop stay queued, and they are consumed after the next Start (`Lifecycle.BacklogSurvivesRestart`).
- The start hook is called on every start from stopped that passes the binding check, including a start the hook then vetoes (the trace shows the call).

## Model

| member | source | states |
|---|---|---|
| Hooks.StartCalls | include/Consumer.h:184-186 | the start hook is the handler's OnStart (always called, even when not overridden) or, with no handler, the start callback if one is bound; at most one call |
| Hooks.StartAccepted | include/Consumer.h:184-187 | the start verdict is the user hook's answer when the handler overrides OnStart or a start callback is bound; otherwise it is true (base OnStart at include/Consumer.h:56, or no start callback) |
| Hooks.StopCalls | include/Consumer.h:234-236 | the stop hook is the handler's OnStop (recorded as a handler call) or, with no handler, the stop callback if bound (recorded as a callback call); it receives the forced flag; at most one call |
| Hooks.StopAccepted | include/Consumer.h:234-236 | the stop verdict is the user hook's answer when the handler overrides OnStop or a stop callback is bound; otherwise it is true (base OnStop at include/Consumer.h:77, or no stop callback) |
| Hooks.ConsumeCalls | include/Consumer.h:300-302 | a dequeued item goes, in at most one call, to the handler's OnConsume when a handler is bound, otherwise to the consume callback; there is no call exactly when neither exists |
| Hooks.ItemsOfConsumeTrace | include/Consumer.h:288-302 | when something can consume, the calls for a run of dequeued items hand over exactly those items in dequeue order; otherwise there are no calls |
| Consumer.Init | include/Consumer.h:108-127 | a new consumer is stopped, not forced, has no workers and an empty queue, and keeps the binding it was constructed with |
| Consumer.Start | include/Consumer.h:167-203 | count 0 is refused with nothing changed; a started consumer returns true with nothing changed and no hook call; from stopped, Start succeeds iff something can consume and the start hook agrees (a missing start callback or a non-overriding handler agrees); a refusal leaves the state untouched; success clears both flags, adds exactly count workers and keeps the queue |
| Consumer.Commit | include/Consumer.h:254-265 | refused exactly when not started, with the state untouched; otherwise the item goes at the back, with earlier items kept in order and nothing else changed |
| Consumer.Step | include/Consumer.h:282-302 | the worker keeps waiting iff started with an empty queue; it exits iff stopped and (forced or queue empty); otherwise it removes exactly the front item, changes nothing else, and passes that item to the consume hook |
| Consumer.Join | include/Consumer.h:224-229 | joining the workers after the stopped flag is set consumes a prefix of the queue in order and leaves the rest; nothing if forced; everything if graceful with a worker left; no worker remains in the loop |
| Consumer.Stop | include/Consumer.h:213-239 | a stopped consumer returns true with nothing changed and no hook call; otherwise stopped and forced are set, the worker set is emptied, the queue is never cleared (only consumed from the front), the stop hook runs last with the forced flag, and its verdict is the result (true when no stop hook is bound) |
| Consumer.HasStarted | include/Consumer.h:246 | the consumer is started exactly while not stopped; at rest, that is exactly while worker threads exist and exactly while some worker is inside the consume loop |
| Lifecycle.TransitionsKeepValid | include/Consumer.h:167-265 | Start, Stop and Commit keep the invariant: while started, workers exist, all inside the loop, with a consume hook and a clear forced flag; while stopped, no worker exists and the forced flag is whatever the last Stop set |
| Lifecycle.StepKeepsValid | include/Consumer.h:288-296 | at rest a worker steps only while started, and then it never exits: it waits or consumes |
| Lifecycle.StartTwice | include/Consumer.h:169-202 | a second Start with a non-zero count, without an intervening Stop, returns true, makes no hook call and keeps the first Start's workers; a count of zero is still refused, with nothing changed; OnStart ran at most once |
| Lifecycle.StopTwice | include/Consumer.h:216-238 | a second Stop without an intervening Start returns true with nothing changed and no OnStop call |
| Lifecycle.CommitAfterStopRefused | include/Consumer.h:256-257 | after any Stop, Commit returns false and leaves the state untouched |
| Lifecycle.GracefulStopDrains | include/Consumer.h:288-296 | Stop(false) on a started consumer passes every queued item to OnConsume in queue order and leaves the queue empty |
| Lifecycle.ForcedStopConsumesNothing | include/Consumer.h:221-222 | Stop(true) passes no item to OnConsume and keeps the queue unchanged |
| Lifecycle.BacklogSurvivesRestart | include/Consumer.h:194-198 | items left by a forced stop are still queued, in order, after the next effective Start, which clears the forced flag and holds exactly the requested workers; the first worker step after it hands the oldest leftover item to OnConsume |
| Session.StartConserves | include/Consumer.h:167-203 | Start keeps the invariant and neither touches the queue nor calls OnConsume |
| Session.CommitConserves | include/Consumer.h:254-265 | Commit keeps the invariant and calls no OnConsume; the queue afterwards is the old queue with the item appended if accepted, and unchanged otherwise |
| Session.StopConserves | include/Consumer.h:213-239 | Stop keeps the invariant; the items it consumes followed by the queue it leaves are the queue it found |
| Session.StepConserves | include/Consumer.h:291-296 | a worker step at rest keeps the invariant and either leaves the queue as it is or moves exactly its front item to OnConsume |
| Session.ApplyConserves | include/Consumer.h:167-302 | any single operation keeps the invariant; consumed items followed by the queue after it equal the queue before it followed by the accepted commit |
| Session.RunConserves | include/Consumer.h:254-302 | over any script of operations and worker steps: the items handed over (in dequeue order), followed by the remaining queue, equal the starting queue followed by every accepted commit in commit order (FIFO dequeue, nothing lost, nothing consumed twice) |
| Session.ConsumedInCommitOrder | include/Consumer.h:261-296 | from a fresh consumer, the items dequeued and handed over, in dequeue order, are always a prefix of the accepted commits |
| Session.NothingWhileStopped | include/Consumer.h:256-257 | while stopped and with no Start, no commit is accepted, nothing is consumed and the queue stays as it is |
| Scenarios.CallbackRunDrainsInOrder | include/Consumer.h:119-127 | consume-only callbacks, one worker, commits 'a' 'b' 'c', then Stop(false): OnConsume gets 'a', 'b', 'c' in order and Stop returns true |
| Scenarios.ZeroWorkersRefused | include/Consumer.h:169-170 | Start(0) returns false, calls no hook, and leaves the consumer stopped so a Commit is refused |
| Scenarios.SecondStartKeepsOneWorker | include/Consumer.h:173-202 | Start(1) then Start(3): both return true, OnStart runs once, one worker exists |
| Scenarios.StartVetoKeepsStopped | include/Consumer.h:184-191 | an OnStart that returns false makes Start fail with the state unchanged, and commits are refused |

## Left out

- Session.ConsumedInCommitOrder: the source dequeues an item under the data lock (include/Consumer.h:295-296) and calls OnConsume after releasing it (include/Consumer.h:300). With two or more workers, an item dequeued later can reach OnConsume first. The model joins the two into one step, so the lemma fixes dequeue order, and OnConsume call order equals commit order only with one worker. The same holds for `Session.RunConserves`.
- Threads, mutexes, the condition variable, `notify_one`/`notify_all` and `join` (include/Consumer.h:172, 195, 200, 224-229, 263, 288): real concurrency is replaced by explicit worker steps, and a join is modelled as worker steps until every worker has left the loop. Schedules that only interleave concurrently are therefore not modelled. One of them: `Commit` reads the stopped flag without the data lock, so a commit racing with a `Stop` can enqueue an item after the workers have exited.
- Exceptions and re-entrant hooks: the model assumes that every worker thread created at include/Consumer.h:199-200 starts, and that every hook returns without throwing and without calling back into the consumer through its `Consumer<T>* pSender` argument (include/Consumer.h:56, 66, 77, 97-99). A `std::system_error` from the thread constructor would leave Start by exception after include/Consumer.h:196-197 cleared the stopped flag. The consumer would then be started with fewer than `count` workers, possibly none. A later Start would return true without creating threads, Commits would be accepted, and a Stop(false) with no worker would leave the whole queue in place. `Consumer.Valid` (at least one thread while started) and `Lifecycle.GracefulStopDrains` rely on this assumption. An OnStart that throws would leave Start by exception. An OnConsume that throws would escape the worker's thread function and terminate the process.
- The boolean returned by `OnConsume` or the consume callback (include/Consumer.h:300-302): the source uses it only for debug output, so the model records the call but not its result.
- Debug diagnostics through `OutputDebugStringA` (include/Consumer.h:10-13, 179, 189, 275-281, 303-317): platform logging with no effect on control flow.
- `SetUserData`/`GetUserData` (include/Consumer.h:148-154): an opaque pointer with no behaviour.
- The destructor (include/Consumer.h:133-136): it only calls `Stop(true)`, which is `Consumer.Stop` with force set.
- Default arguments (`Start()` means `Start(1)`, `Stop()` means `Stop(false)`): the model's functions take the argument explicitly.
- Constructing with a null handler pointer is modelled as the binding `Callbacks(false, false, false)`, which behaves the same way: nothing can consume, so every Start is refused.
- The demo logger (demo/SimpleLogger): file output, variadic formatting and time formatting through library calls; it only uses the component through its public operations.
