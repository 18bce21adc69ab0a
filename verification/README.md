# go-gecko event engine: per-session routing and lifecycle ordering

A Dafny model of the event engine of go-gecko (`engine.go`). A trigger hands
an event to the engine's invoker. The engine wraps it in a session and passes
the session through three stages:

1. **Interceptor stage.** The interceptors whose topic expressions match the
   session topic are sorted by priority and run one after another. An
   interceptor that returns the drop sentinel ends the chain. The drop is
   recorded as `outbound["error"] = "InterceptorDropped"` and the session goes
   straight to output.
2. **Driver stage.** Every matching driver runs once, in registration order.
   Outside fail-fast mode a driver's error does not stop the drivers after
   it; in fail-fast mode it aborts the stage, as a panic does.
3. **Output stage.** The completion callback receives the outbound data.

`Start` and `Stop` call the engine-level hooks and the components role by
role, in a fixed order.

The model is functional:

- The dispatcher's channels are gone. Each stage handler returns the
  destination it would have enqueued the session on: `Lv1` (drivers), `Lv2`
  (output) or `Aborted` (nowhere).
- Each stage handler also returns the trace of handler calls and the session
  as the stage left it.
- `Engine.Process` chains the stages for one event, the way the dispatcher
  sequences them.

Three things the engine calls but does not define are parameters:

- `TopicExpr.matches` is the parameter `matches`.
- The interceptor priority comparator `InterceptorSlice.Less` is the parameter
  `less`, over priorities. It is required to be a strict order, as `sort.Sort`
  requires.
- What a component's `Handle` does is the parameter `handle`. It gives the
  reply of the component with a given registration index to the session it is
  shown. A reply is an outcome (nil, the drop sentinel, another error, or a
  panic) plus the outbound data fields the handler added.

`sort.Sort` is not stable, so the order among interceptors of equal priority is
not fixed. `Stages.HandleInterceptor` uses one insertion sort. The routing
properties are proved for every sorted permutation (`Stages.ChainOnAnyPriorityOrder`).

A recovered panic means the session is never forwarded (`Aborted`). So does a
handling error in fail-fast mode: it is logged at zerolog's panic level, which
panics, and `checkRecover` re-raises it.

Modules:

- `Topics`: topic expressions, `AnyTopicMatches`, and the filter of matching
  components.
- `Sessions`: the session and the invoker's construction of it.
- `Components`: component records, registry, handler replies, call traces,
  and the pipeline selector.
- `Ordering`: the priority sort.
- `Stages`: the three stage handlers.
- `Engine`: one event end to end.
- `Lifecycle`: `Start` and `Stop` ordering.

## Model

| member | source | states |
|---|---|---|
| Topics.AnyTopicMatches | engine.go:341-348 | true exactly when some expression of the list matches the topic; an empty list never matches |
| Topics.Matching | engine.go:216-229 | the matching components are exactly those whose expression list matches the topic; they come in registration order, each once |
| Sessions.NewSession | engine.go:61-81 | a new session has the event topic as session, inbound and outbound topic and the event data as inbound data; outbound data and attributes start empty |
| Lifecycle.SelectorReachesStartedPipelines | engine.go:56-59 | the pipeline selector handed to drivers finds a pipeline for a protocol exactly when `Start` brings that pipeline up and `Stop` tears it down, whatever order the pipeline map is walked in |
| Ordering.SortBy | engine.go:230 | the sort keeps the input's length and its multiset of elements; that it is sorted and repeat-free is stated by `Ordering.SortByIsPriorityOrder` |
| Ordering.SortByIsPriorityOrder | engine.go:230 | for a strict-order comparator, the sorted interceptors are the matching ones, each once, and none is placed after one it should precede |
| Stages.MarkDropped | engine.go:239 | a drop sets the outbound `error` field to `InterceptorDropped`; other fields and the topics are kept |
| Stages.Chain | engine.go:232-248 | interceptors run in the given order; each call gets the handler's reply to the session its predecessors left; nil, and an error outside fail-fast mode, continue; a drop is the last call and routes to output with the drop recorded; a panic or a fail-fast error aborts; completing the chain routes to the driver stage |
| Stages.HandleInterceptor | engine.go:206-249 | the interceptor stage is such a chain over the matching interceptors in priority order |
| Stages.ChainOnAnyPriorityOrder | engine.go:216-248 | for any sorted permutation of the matching interceptors, only matching interceptors run, none twice, in priority order; if the chain completes, all matching ones ran; none left out sorts strictly before one that ran |
| Stages.InterceptorRouting | engine.go:206-249 | the same routing properties for the interceptor stage handler itself, for any strict-order comparator |
| Stages.InterceptorDrop | engine.go:233-248 | the session goes to output exactly when some interceptor dropped it; the dropping interceptor is the last to run; the drop is recorded in the outbound data; outside fail-fast mode an ordinary error never ends the chain |
| Stages.FanOut | engine.go:263-282 | drivers run in the given order; each call gets the handler's reply to the session its predecessors left; only a panic, or an error in fail-fast mode, stops the fan-out (aborting); otherwise all run and the session goes to output, never to the driver stage |
| Stages.HandleDriver | engine.go:252-283 | the driver stage is such a fan-out over the matching drivers in registration order |
| Stages.DriverFanOut | engine.go:252-283 | only matching drivers run, in registration order, none twice; reaching output means every matching driver ran; outside fail-fast mode only a panic keeps the session from output |
| Stages.HandleOutput | engine.go:286-299 | the completion callback is called once, with the outbound data |
| Engine.Process | engine.go:61-299 | one event from the invoker through the interceptor, driver and output stages, each entered only on the destination the previous stage returned; the callback runs at most once and receives the final outbound data; the skip conditions are stated by `Engine.CompletionAtMostOnce` |
| Engine.CompletionAtMostOnce | engine.go:232-298 | for one event the callback is called at most once, with the final outbound data; it is skipped exactly when some interceptor or driver aborted its stage |
| Engine.DropBypassesDrivers | engine.go:237-248 | a dropped session reaches output with the drop recorded and no driver runs; drivers run only if every interceptor let the chain go on |
| Engine.SessionKeepsIdentity | engine.go:65-80 | through all stages the session keeps the event topic and inbound data, and the outbound topic stays the event topic, for handlers that only add outbound fields |
| Engine.EmptyRegistryPassThrough | engine.go:216-282 | with no interceptors a session goes to the driver stage unchanged; with no drivers it goes to output unchanged; with neither, the callback receives empty outbound data |
| Lifecycle.StartSequence | engine.go:129-160 | the steps of `Start` when nothing panics: one call per start hook and component; order and membership are stated by `Lifecycle.StartOrder` |
| Lifecycle.StopSequence | engine.go:163-195 | the steps of `Stop` when nothing panics: one call per stop hook and component, then the shutdown signal last; order and membership are stated by `Lifecycle.StopOrder` |
| Lifecycle.StartOrder | engine.go:129-160 | when nothing panics, `Start` runs start-before hooks, plugins, pipelines, drivers, triggers, then start-after hooks; every hook and component runs exactly once, each role in registration order; nothing else runs |
| Lifecycle.StopOrder | engine.go:163-195 | when nothing panics, `Stop` runs stop-before hooks, triggers, drivers, pipelines, plugins, stop-after hooks, then the shutdown signal last; every hook and component runs exactly once, each role in registration order |
| Lifecycle.StartRun | engine.go:129-160 | the steps of `Start` when a given call panics, or of a normal run: a panicking run takes only steps of the normal run and no more of them; the cases are stated by `Lifecycle.StartPanic` |
| Lifecycle.StopRun | engine.go:163-195 | the steps of `Stop` when a given call panics, or of a normal run: a panicking run takes only steps of the normal run and no more of them; the cases are stated by `Lifecycle.StopPanic` |
| Lifecycle.StartPanic | engine.go:129-160 | the start-after hooks are deferred after the start-before hooks: if a start-before hook panics, nothing else runs; if a component's start panics, exactly the components before it and itself were started and every start-after hook still runs; if a start-after hook panics, every component was started and the later hooks are skipped |
| Lifecycle.StopPanic | engine.go:163-195 | the stop-after hooks and the shutdown signal are deferred after the stop-before hooks: if a stop-before hook panics, the shutdown signal is never raised; if a component's stop panics, exactly the components before it and itself were stopped, every stop-after hook runs and the shutdown signal comes last; if a stop-after hook panics, the later hooks and the shutdown signal are skipped |
| Lifecycle.StartStopMirror | engine.go:129-195 | `Stop` tears down exactly the components `Start` brought up; triggers start after, and stop before, every plugin, pipeline and driver |

## Left out

- The dispatcher (`NewDispatcher`, `Serve`, the `Lv0`/`Lv1`/`Lv2` channels, capacity and backpressure) and the goroutine per stage task. They are concurrency, and the dispatcher type is not part of this model. The destination a handler would enqueue on is returned as `Next`. `Engine.Process` runs one session's stages in sequence. Cross-session interleaving is not modelled.
- The process-level crash under fail-fast: `checkRecover` re-panics, and `failFastLogger` logs at the panic level. Both are modelled only as the stage aborting (`Aborted`), which stops the session from being forwarded.
- A panic inside the output stage's callback. The callback is a parameter of the real engine. The model records its argument and not its behaviour.
- The session timing attributes (`Interceptor.Start`/`End`, `Driver.Start`/`End`, `Output.Start`/`End`), `Escaped`, and all logging. They depend on the wall clock and have no effect on routing.
- `CheckTimeout`, `checkDefTimeout` and `DefaultLifeCycleTimeout`. `CheckTimeout`'s body is not part of this model, and a soft timeout may let a lifecycle call run on while the next step starts. Each lifecycle step is modelled as a call issued in order, so `Lifecycle.StartOrder`, `Lifecycle.StopOrder` and `Lifecycle.StartStopMirror` order when the calls are issued, not when they finish. A panic inside such a call is modelled only when it reaches `Start` or `Stop` itself (`Lifecycle.StartRun`, `Lifecycle.StopRun`).
- `Init`, `newGeckoContext` and `registerBundlesIfHit`: configuration parsing through a library, and the component factories. The model starts from a populated `Registry`. `Init`'s fatal-or-warning choice per missing section is not modelled.
- The session's `contextId`, which the invoker sets to 0 (`engine.go` line 70), and the Snowflake generator `Init` builds (`engine.go` lines 88-92), which nothing else in `engine.go` uses; `SharedEngine`/`sync.Once`; and `AwaitTermination` (OS signals).
- The bodies of `TopicExpr.matches` and `InterceptorSlice.Less`. They are not part of this model and are parameters.
- Plugins, triggers and hooks are known only by registration index. Their `OnStart`/`OnStop` bodies, and a trigger's use of the invoker, are outside the engine.
- Stages.HandleDriver: in the source, each driver's topic match is checked just before that driver runs, interleaved with the calls, against the session topic and the list the driver's `GetTopicExpr` returns at that moment. The model filters first and then runs, with each driver's expression list fixed for the whole stage. The result is the same as long as neither a driver's expression list nor the session topic changes during the stage. The session type is not part of this model, and in the model no handler can change the session topic.
- Engine.SessionKeepsIdentity: a handler is modelled by its outcome and the outbound fields it adds (`Reply`), the way handlers are meant to use the session. The Go session hands its `Inbound` and `Outbound` records, whose fields are exported, to handlers (`engine.go` lines 71-78), so a handler could reassign the outbound topic, delete outbound fields or change inbound data; the session type, not part of this model, may also let it set attributes. None of that is modelled. The lemma therefore states what the engine's own code preserves, for handlers that only add outbound fields; the same limit applies to the `Evolves` part of `Stages.IsChainRun` and `Stages.IsFanOutRun`.
- The selector argument of a driver's `Handle`: what a driver does with it is part of that driver's behaviour, the parameter `handle`. The model states what the selector can reach (`Lifecycle.SelectorReachesStartedPipelines`), not how drivers use it.
- Stages.HandleInterceptor: uses one particular insertion sort. `sort.Sort` may order interceptors of equal priority differently. `Stages.ChainOnAnyPriorityOrder` covers every such order.
- `network/socket_client.go`, `network/udp_output_device.go` and `init.go`: network I/O, a factory wrapper, and logger setup, outside the engine core.
- `interceptor.go` declares an interceptor interface whose `Handle` signature differs from the call in `engine.go`. The model follows the call in `engine.go`: the handler gets the session and returns an error.
