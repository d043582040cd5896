# KVal: an observable value container with derivation and cascading close

This project models `KVal` from kweb-core (`io.kweb.state`). A `KVal` is a container with
these parts:

- a value;
- a table of change listeners keyed by a 64-bit handle;
- a list of close handlers;
- a close reason, which once set makes the container unusable.

`map` derives a new container from an existing one. It installs a listener on the source
that recomputes the derived value and passes the change on to the derived container's own
listeners. It also registers two close handlers:

- closing the source closes the derived container;
- closing the derived container removes its listener from the source.

## The model

Module `KValData` holds the values:

- `CloseReason` is the explanation plus an optional exception; it corresponds to the data class
  at the end of `KVal.kt`.
- `Listener` is a listener closure turned into data. `External(observer)` is a subscriber.
  `Derived(child, mapper)` is the listener `map` installs.
- `Action` is a close handler turned into data. `RemoveListener` and `CloseNode` are the two
  handlers `map` registers. `Opaque` is a user handler with no effect on the containers.
- `Node` holds the four fields of one container.
- `MapOutcome` is a mapper's result: a value, or the exception it throws.
- `Failure` lists the errors that the `value` getter and `map` raise.

Module `KVal` holds the class `Arena`, which keeps every container in `nodes`; a container
reference is an index into it. Mappers are Dafny functions stored in `mappers`. What an
external listener does (return, or throw a given exception) is the constructor parameter
`react`. Two ghost logs record every listener invocation (`calls`) and every close-handler
invocation (`runs`). The methods change the arena in place, as the Kotlin methods change their
fields.

The methods' loops follow the code:

- `RunHandlers` is the `forEach` over the close handlers.
- `FanOut` is the `forEach` over the derived container's listeners. Each turn is `Visit`.

Calling a listener is `InvokeListener`. The listener `map` installs is `Relay`, which checks its
guards and then calls `Propagate`, which stores the mapped value and calls `FanOut`. `Visit` computes
`mapper(old)` and calls `CallListener`, which calls `InvokeListener` on the derived container
and hands a thrown exception to `CloseOnThrow`, the `catch` of the walk. Closing is `Close`,
which calls `RunHandlers`, which calls `RunHandler`, which may call `Close` on a derived
container. `Map` checks its guards and leaves the rest to `Attach`. Termination holds for two
reasons:

- Propagation only moves to containers created later.
- A cascading close only happens while some container is still open.

Module `KValInvariants` defines what the arena keeps and what evolving it may change:

- `WellFormed`: every `map` listener has its two close handlers, and a derived container always
  has a larger id than its source.
- `Evolves`: a close reason, once set, never changes or goes away, close handlers are never
  dropped, and listeners are only ever removed.
- `Cascades`: the close-handler paths along which one close can close another container.
- `TornDown`: every `CloseNode` target of a closed container is closed. The constructor
  establishes it and every public operation keeps it, so it holds whenever no operation is
  running.
- `Confined(ns0, ns, c)`: only containers reached from `c` through close handlers changed
  value or close reason. Since `map` registers a `CloseNode` handler for each derived
  container, these are `c` and the containers derived from it.
- `AtRest`: teardown is complete (`TornDown`) and every `map` listener points to an open
  derived container (`Attached`). The constructor establishes both and every public operation
  keeps them, so they hold whenever no operation is running.
- `OnlyValues(ns0, ns)`: only container values changed. No container closed and no listener or
  handler was removed.

Module `KVal` also defines `Calm`. A call is calm when the listener does not throw: an external
listener whose reaction returns normally, or a `map` listener whose mapper maps both values. In
an arena at rest, a delivery whose every call is calm changes only values. It also reaches
every level below the changed container. `Spread`, `Reached` and `Below` state this
recursively, one `map` hop at a time: every listener of the changed container is called with
its (old, new) pair. A `map` listener's derived container then holds what its mapper makes of
the new value, and the change from the mapped old value to that one has spread from there in
the same way.

Module `KValScenario` replays these cases as verified methods:

- the "length of a string" use of `map` from the project's tests;
- a failing mapper;
- a throwing listener, and a listener that returns normally;
- the teardown of a chain of two derived containers, with the handler runs it causes;
- a propagation along that chain;
- a propagation to an external listener on the second derived container of that chain;
- a propagation that leaves a sibling derived container alone.

Where the code does not do what its documentation suggests, the model follows the code:

- `addListener` and `onClose` accept a listener or a handler on a closed container.
  `onClose` only logs a warning in that case; that handler never runs.
- Suppose a listener throws during fan-out and the derived container is closed. The walk does not
  stop: the derived container's remaining listeners still get their turn. An external one runs
  as usual. A `map` listener on it is skipped: closing the derived container closed every
  container mapped from it, and their close handlers removed those listeners before their turn.
- A mapper that throws on the new value (KVal.kt:51) does not close its own derived container,
  although the walk's close reason, "Closed because mapper threw an exception", suggests it
  would. That call sits outside the walk's `try`, and only `mapper(old)` and the listener calls
  are caught. Where the exception ends up depends on how deep the container is:
  - One hop below a root container, the exception escapes to whoever delivered the change. The
    derived container stays open and keeps its old value.
  - Deeper down, the `map` listener was called by the walk of its source, which is itself a
    derived container. The exception is caught there (KVal.kt:59-60), so that source is closed
    with "Closed because mapper threw an exception". Its `CloseNode` handler (KVal.kt:70-72)
    then closes this container with "KVar this was mapped from was closed".

## Model

| member | source | states |
|---|---|---|
| `KVal.Arena.IsClosed` | src/main/kotlin/io/kweb/state/KVal.kt:15 | A container is closed exactly when it is not among the open ones, that is, when a close reason is recorded. |
| `KVal.Arena.Read` | src/main/kotlin/io/kweb/state/KVal.kt:29-34 | The getter succeeds exactly when the container is open. It then returns the stored value; otherwise it fails with the recorded close reason. |
| `KVal.Arena.Create` | src/main/kotlin/io/kweb/state/KVal.kt:10-27 | A new container is open and holds the given value. It has no listeners and no close handlers, and every other container is unchanged. Teardown stays complete. |
| `KVal.Arena.AddListener` | src/main/kotlin/io/kweb/state/KVal.kt:20-24 | The returned handle was not in use. The listener is stored under it, and every other entry and container is unchanged, also when the container is closed. Teardown stays complete. |
| `KVal.Arena.RemoveListener` | src/main/kotlin/io/kweb/state/KVal.kt:36-38 | Exactly the entry under the handle is deleted. Removing an absent handle changes nothing. Teardown stays complete. |
| `KVal.Arena.OnClose` | src/main/kotlin/io/kweb/state/KVal.kt:104-110 | The handler is appended at the end of the close-handler list, whether the container is open or closed. Nothing else changes, and teardown stays complete. |
| `KVal.Arena.Map` | src/main/kotlin/io/kweb/state/KVal.kt:42-46 | On a closed source, `map` fails with the close reason and changes nothing. A throwing mapper's exception escapes and nothing changes. Otherwise it returns a new open container holding `mapper(value)`. Exactly one listener is added to the source, under a fresh handle. The source gets the handler that closes the new container with "KVar this was mapped from was closed", and the new container gets the handler that removes that listener. Teardown stays complete. |
| `KVal.Arena.Attach` | src/main/kotlin/io/kweb/state/KVal.kt:46-72 | The new container gets the next id and holds the mapped value; the arena becomes the old one plus the `map` edge (listener and both close handlers) under a handle not in use; teardown stays complete. |
| `KVal.Arena.InvokeListener` | src/main/kotlin/io/kweb/state/KVal.kt:47-68 | The call is logged first. An external listener ends as `react` says and changes no container. A `map` listener does what `Relay` promises. No container created before the source changes value or close reason. Only the derived container and the containers reached from it through close handlers change value or close reason; listener entries elsewhere are removed only by close handlers of containers that closed. Teardown and attachment stay complete. In an arena at rest, the call throws exactly when the listener is sure to. An external listener is sure to throw when its reaction throws; a `map` listener, when the values differ and its mapper throws on the new one. A call whose nested calls are all calm returns normally and changes only values. If the arena is at rest, every call is calm and the values differ, the change has spread below the listener (`Reached`). A `map` listener's derived container then holds `mapper(new)`. Each of that container's listeners was called with (`mapper(old)`, `mapper(new)`), and so on at every level reached through `map` listeners. |
| `KVal.Arena.Relay` | src/main/kotlin/io/kweb/state/KVal.kt:47-68 | Once either end is closed, the `map` listener fails with the "not propagating" error and changes nothing. It does nothing when old equals new. When `mapper(new)` throws, that exception escapes, nothing changes and the derived container stays open. Otherwise the derived container holds `mapper(new)` and its listeners were walked as `FanOut` promises. Only the derived container and the containers reached from it through close handlers change value or close reason; listener entries elsewhere are removed only by close handlers of containers that closed. In an arena at rest it throws exactly when `mapper(new)` throws on a changed value. A calm call with calm nested calls returns normally and changes only values. Under the same calm conditions, with changed values, the change has spread below the `map` listener at every level (`Below`). The derived container holds `mapper(new)` and every one of its listeners was reached in turn. |
| `KVal.Arena.Propagate` | src/main/kotlin/io/kweb/state/KVal.kt:51-63 | The derived container ends holding the mapped value, and the walk has the effect `FanOut` promises. Only the derived container and the containers reached from it through close handlers change value or close reason; listener entries elsewhere are removed only by close handlers of containers that closed. Through `FanOut`, a calm walk in an arena at rest reached every listener of the derived container at every level below it. |
| `KVal.Arena.Visit` | src/main/kotlin/io/kweb/state/KVal.kt:53-62 | One turn of the walk. A listener removed before its turn is skipped. If computing `mapper(old)` throws, the derived container is closed with "Closed because mapper threw an exception" and that exception. The listener is called, first in the log, only when `mapper(old)` differs from `mapper(new)`. The derived container is only closed with that explanation, and only after the mapper threw or the listener was called. A listener sure to throw leaves it closed. In an arena at rest, a called listener changes the derived container's close reason only when it is sure to throw. A called `map` listener leaves its own derived container holding what its mapper makes of the new value. Only containers reached from a called `map` listener's derived container change value. A turn whose calls are all calm changes only values. Only the derived container and the containers reached from it through close handlers change value or close reason; listener entries elsewhere are removed only by close handlers of containers that closed. In an arena at rest, a calm turn that calls the listener reaches it and everything below it (`Reached`). |
| `KVal.Arena.CallListener` | src/main/kotlin/io/kweb/state/KVal.kt:57-61 | Calling the listener, and closing the derived container when the call throws, is a turn with the effect `Visit` promises: a closure only by a listener sure to throw (when at rest), a called `map` listener's derived container fed, and calm calls changing only values. Only the derived container and the containers reached from it through close handlers change value or close reason; listener entries elsewhere are removed only by close handlers of containers that closed. In an arena at rest, a calm call reaches the listener and the containers below it at every level (`Reached`). |
| `KVal.Arena.CloseOnThrow` | src/main/kotlin/io/kweb/state/KVal.kt:59-61 | A thrown exception closes the derived container with the mapper explanation unless it is already closed; no exception changes nothing. No value changes. Only the derived container and the containers reached from it through close handlers change value or close reason; listener entries elsewhere are removed only by close handlers of containers that closed. |
| `KVal.Arena.FanOut` | src/main/kotlin/io/kweb/state/KVal.kt:53-63 | If `mapper(old)` equals `mapper(new)`, or there are no listeners, nothing happens. If `mapper(old)` throws and there is a listener, the derived container ends closed with that exception and no listener is called. Otherwise, every listener present at the start is called once with (`mapper(old)`, `mapper(new)`), unless it was removed before its turn. No listener is called twice. A listener that is sure to throw leaves the derived container closed. If the derived container is closed, a listener was called first and the explanation is the mapper one. In an arena at rest, three more facts hold. The derived container ends closed only if a called listener is sure to throw. Every called `map` listener left its own derived container holding what its mapper makes of the new value. If every call was calm, only values changed, so no listener was removed and every listener present at the start was called. Only the derived container and the containers reached from it through close handlers change value or close reason; listener entries elsewhere are removed only by close handlers of containers that closed. In an arena at rest, if every call was calm and `mapper(old)` differs from `mapper(new)`, every listener present at the start was reached, recursively (`Reached`). A `map` listener's own derived container holds the mapped value, and its listeners were in turn called with the mapped pair, down every level. |
| `KVal.Arena.Close` | src/main/kotlin/io/kweb/state/KVal.kt:79-101 | On a closed container, `close` changes nothing and runs no handler, so a re-entrant close is a no-op. On an open one, it records the reason before any handler runs. Its handlers then run once each, in registration order, and each has done its work. Every container closed by the cascade likewise ran each of its handlers once, in order, and their work is done. Values never change. Only containers reached through close handlers change reason; those other than the closed one get "KVar this was mapped from was closed" and none was created before it, so closing a derived container never closes its source. When teardown was complete before, it is complete after, and every container reachable from the closed one through close handlers ends closed. |
| `KVal.Arena.RunHandlers` | src/main/kotlin/io/kweb/state/KVal.kt:100 | A loop over the handler list as it was when the close began. Handler `i` runs at turn `i`. Every container closed meanwhile ran each of its handlers once, in order, and their work is done. |
| `KVal.Arena.RunHandler` | src/main/kotlin/io/kweb/state/KVal.kt:100 | Running one handler is logged. A `RemoveListener` handler removes its entry. A `CloseNode` handler leaves its target closed. Every newly closed container is reached from that target and carries the source-closed reason. It ran each of its handlers once, in order, and their work is done. |
| `KVal.TurnRaised` | src/main/kotlin/io/kweb/state/KVal.kt:55-60 | When `mapper(old)` throws and the derived container is closed for it, the turn has the effect `Visit` promises. |
| `KVal.WalkStep` | src/main/kotlin/io/kweb/state/KVal.kt:53-63 | The walk's invariant (the frame of propagation, the `FannedOut` effect, changes confined to the derived container's cascade) extends by one visited listener. |
| `KVal.CallVisited` | src/main/kotlin/io/kweb/state/KVal.kt:54-61 | A turn that calls the listener, and closes the derived container when the call throws, has the effect `Visit` promises. |
| `KVal.CallConfined` | src/main/kotlin/io/kweb/state/KVal.kt:47-72 | A turn that called a listener changes only containers reached from the derived one: a `map` listener's own changes are reached through the derived container's `CloseNode` handler for its child. |
| `KVal.FanOutStep` | src/main/kotlin/io/kweb/state/KVal.kt:53-63 | The walk's invariant (each listener called at most once; visited ones called or gone; throwers closed the node; a closure follows a call) extends by one visited listener. In an arena at rest, the recursive spread of a calm walk (`Reached`) also extends by the visited listener. |
| `KVal.ClosedByThrowerStep` | src/main/kotlin/io/kweb/state/KVal.kt:54-61 | In an arena at rest, after one more turn, a closed derived container was closed by a called listener that is sure to throw. |
| `KVal.ChildrenFedStep` | src/main/kotlin/io/kweb/state/KVal.kt:51-57 | In an arena at rest, after one more turn, every called `map` listener of the derived container has left its own derived container holding the mapped value. |
| `KVal.FedKept` | src/main/kotlin/io/kweb/state/KVal.kt:53-57 | The turn of one `map` listener of a container leaves alone the container derived through another `map` listener of the same container. |
| `KVal.CalmStep` | src/main/kotlin/io/kweb/state/KVal.kt:53-63 | Two stretches of the walk that each change only values when their calls are calm compose into a walk with the same property. |
| `KVal.CalmDelivery` | src/main/kotlin/io/kweb/state/KVal.kt:49-63 | A calm call of a `map` listener that stores the mapped value and then fans out calmly changes only values. The change has also spread below the called listener at every level (`Below`). |
| `KVal.CallDelivered` | src/main/kotlin/io/kweb/state/KVal.kt:54-61 | A turn that calls a listener changes values only in the called `map` listener's derived container and what is reached from it; it feeds that container; a calm call changes only values. In an arena at rest, a calm call reaches the listener and what lies below it (`Reached`). |
| `KVal.ReachedStep` | src/main/kotlin/io/kweb/state/KVal.kt:49-63 | In an arena at rest, one more calm turn of the walk over a derived container adds the visited listener to those the change reached, at every level below it. The turn also leaves intact what the earlier turns reached: that lies below other listeners of the same container, and the turn changes only what is reached from its own `map` listener's derived container. |
| `KVal.RelayReached` | src/main/kotlin/io/kweb/state/KVal.kt:47-63 | A `map` listener call logged first, in a calm stretch of an arena at rest, returns normally, changes only values, and reaches the listener and every level below it. |
| `KVal.SpreadMono` | src/main/kotlin/io/kweb/state/KVal.kt:49-63 | A recorded spread survives two things: value changes outside the containers reached from where it started, and a wider stretch of the call log. |
| `KVal.ReachedMono` | src/main/kotlin/io/kweb/state/KVal.kt:49-63 | That a listener was reached survives the same two things. |
| `KVal.BelowMono` | src/main/kotlin/io/kweb/state/KVal.kt:49-63 | That a change spread below a `map` listener survives the same two things. |
| `KVal.KeptBelowChild` | src/main/kotlin/io/kweb/state/KVal.kt:42-72 | A value change that leaves alone every container reached from a container also leaves alone every container reached from one derived from it. |
| `KVal.SegmentWidens` | src/main/kotlin/io/kweb/state/KVal.kt:47-49 | A call logged in a stretch of the call log is logged in every wider stretch. |
| `KValInvariants.CascadesLastStep` | src/main/kotlin/io/kweb/state/KVal.kt:70-72 | A cascade into a container from another one ends with a `CloseNode` handler of a container created before it. |
| `KValInvariants.CascadesMeet` | src/main/kotlin/io/kweb/state/KVal.kt:42-72 | Two close cascades that reach the same container start on one line: one start reaches the other. |
| `KValInvariants.SiblingCascadesApart` | src/main/kotlin/io/kweb/state/KVal.kt:42-72 | No container is reached both from the derived containers of two different `map` listeners of one container. |
| `KVal.CloseLoopRuns` | src/main/kotlin/io/kweb/state/KVal.kt:98-100 | After handler `i` has run, every container closed by the loop so far, other than the one being closed, has run each of its handlers once, in order. |
| `KVal.CallsOnceStep` | src/main/kotlin/io/kweb/state/KVal.kt:53-57 | After one more turn, no listener has been called twice, and every call carries (`mapper(old)`, `mapper(new)`). |
| `KVal.CoveredStep` | src/main/kotlin/io/kweb/state/KVal.kt:53-57 | After one more turn, every visited listener has been called or is gone from the derived container. |
| `KVal.ThrowersClosedStep` | src/main/kotlin/io/kweb/state/KVal.kt:54-61 | After one more turn, every visited listener that is sure to throw has left the derived container closed. |
| `KVal.ClosedAfterCallStep` | src/main/kotlin/io/kweb/state/KVal.kt:54-61 | After one more turn, a closed derived container was closed for a thrown exception after one of its listeners was called. |
| `KVal.HandlerLoopStep` | src/main/kotlin/io/kweb/state/KVal.kt:98-100 | The invariant of the handler loop holds for one more turn. Handlers `0..i` have run in order and done their work. Cascaded closes carry the source-closed reason, ran each of their handlers once and in order, and their work is done. Every removed listener was removed by a container that closed. |
| `KValInvariants.HandlersDoneStep` | src/main/kotlin/io/kweb/state/KVal.kt:100 | Work done by earlier handlers (a target closed, an entry removed) stays done while later handlers run. |
| `KVal.CloseLoopStep` | src/main/kotlin/io/kweb/state/KVal.kt:100 | The run log of the closing container grows from handlers `0..i-1` to `0..i`, and it only records containers that were open and are now closed. |
| `KVal.CascadeStep` | src/main/kotlin/io/kweb/state/KVal.kt:70-72 | A container closed by handler `i` is reached from the container being closed through close handlers. |
| `KVal.SourceCloseClosesDerived` | src/main/kotlin/io/kweb/state/KVal.kt:70-72 | Once a source's handlers have run, every container derived from it through a listener it had is closed. |
| `KVal.DerivedCloseDetaches` | src/main/kotlin/io/kweb/state/KVal.kt:69 | Once a derived container's handlers have run, its listener is gone from the source. |
| `KVal.RemoveKeepsInvariants` | src/main/kotlin/io/kweb/state/KVal.kt:36-38 | Deleting a listener entry keeps the arena well formed, torn down and attached, and deleting an absent handle changes nothing. |
| `KVal.OnCloseKeepsInvariants` | src/main/kotlin/io/kweb/state/KVal.kt:104-110 | Appending a user close handler keeps the arena well formed, torn down and attached. |
| `KVal.MapKeepsWellFormed` | src/main/kotlin/io/kweb/state/KVal.kt:46-72 | Adding the listener and the two close handlers of `map` keeps the arena well formed. |
| `KVal.MapKeepsTornDown` | src/main/kotlin/io/kweb/state/KVal.kt:69-72 | Adding the `map` edge to an open source keeps teardown complete. |
| `KValInvariants.EvolvesKeepsWellFormed` | src/main/kotlin/io/kweb/state/KVal.kt:13-18 | Setting close reasons, removing listeners and changing values keeps every `map` listener linked to its two close handlers. |
| `KValInvariants.CloseRemovesFromOpen` | src/main/kotlin/io/kweb/state/KVal.kt:98 | Recording a reason takes exactly that container out of the set of open ones. This is the measure that makes a cascading close terminate. |
| `KValInvariants.CascadesForward` | src/main/kotlin/io/kweb/state/KVal.kt:69-72 | Along a chain of close handlers, container ids grow. Closing a container never closes one created before it, in particular not its source. |
| `KValInvariants.CascadesFirstStep` | src/main/kotlin/io/kweb/state/KVal.kt:70-72 | A cascade from one container to another starts with one of the first container's `CloseNode` handlers. |
| `KValInvariants.CascadesFromLeaf` | src/main/kotlin/io/kweb/state/KVal.kt:70-72 | Closing a container without `CloseNode` handlers (one nothing was mapped from) closes no other container. |
| `KValInvariants.TeardownComplete` | src/main/kotlin/io/kweb/state/KVal.kt:79-101 | After a close whose every nested close ran all its handlers, teardown is complete again and every container reachable from the closed one is closed. |
| `KValInvariants.TornDownKept` | src/main/kotlin/io/kweb/state/KVal.kt:100 | Evolving the arena by closes that ran all their handlers keeps every `CloseNode` target of a closed container closed. |
| `KValInvariants.TornDownFrame` | src/main/kotlin/io/kweb/state/KVal.kt:104-110 | Edits that close nothing (appending a handler, and likewise adding or removing a listener) and give no closed container a new `CloseNode` target keep teardown complete. |
| `KValInvariants.RunsCompleteTrans` | src/main/kotlin/io/kweb/state/KVal.kt:98-100 | "Every container that closed ran each of its handlers once, in order" composes across nested closes. |
| `KValInvariants.OpenNodeRunsNothing` | src/main/kotlin/io/kweb/state/KVal.kt:97-100 | A container still open after a stretch of handler runs ran no handler in it. |
| `KValInvariants.SiblingsApart` | src/main/kotlin/io/kweb/state/KVal.kt:47-72 | Two `map` listeners of the same container lead to different derived containers, and closing one of them never reaches the other. |
| `KValInvariants.CascadesBack` | src/main/kotlin/io/kweb/state/KVal.kt:69-72 | Close-handler paths are never created, only kept: a cascade in a later arena was a cascade before. |
| `KValInvariants.AttachedKept` | src/main/kotlin/io/kweb/state/KVal.kt:69-72 | Evolving the arena by closes that ran all their handlers keeps every `map` listener pointing to an open container. Closing a derived container removes its listener from the source. |
| `KValInvariants.AtRestKept` | src/main/kotlin/io/kweb/state/KVal.kt:79-101 | Complete closes keep the arena at rest. |
| `KValInvariants.AttachedFrame` | src/main/kotlin/io/kweb/state/KVal.kt:20-24 | Adding containers and listeners whose `map` listeners point to new open containers keeps every `map` listener attached. |
| `KValInvariants.LiveEdge` | src/main/kotlin/io/kweb/state/KVal.kt:48 | In an arena at rest, both ends of a `map` listener are open, so its "not propagating" guard never fires. |
| `KValInvariants.AtRestValues` | src/main/kotlin/io/kweb/state/KVal.kt:52 | Changing only values keeps the arena at rest, and back. |
| `KValInvariants.OnlyValuesTrans` | src/main/kotlin/io/kweb/state/KVal.kt:49-63 | Changes to values only compose. |
| `KValInvariants.NoCloseOnlyValues` | src/main/kotlin/io/kweb/state/KVal.kt:69-100 | An evolution that closes no container and whose removals were all made by closing containers changes only values. |
| `KValInvariants.ConfinedTrans` | src/main/kotlin/io/kweb/state/KVal.kt:47-101 | Changes confined to the cascade of a container compose across nested calls. |
| `KValInvariants.ConfinedWiden` | src/main/kotlin/io/kweb/state/KVal.kt:70-72 | Changes confined to the cascade of a `CloseNode` target of a container are confined to that container's cascade. |
| `KValInvariants.ConfinedByCascade` | src/main/kotlin/io/kweb/state/KVal.kt:79-101 | An evolution that changes no value and closes only containers reached from `c` changes only containers reached from `c`. |
| `KValInvariants.ClosedNodeRunsNothing` | src/main/kotlin/io/kweb/state/KVal.kt:104-110 | A container closed before a stretch of handler runs gets no run in it. A handler added after `close` never runs. |
| `KValInvariants.FreshHandleExists` | src/main/kotlin/io/kweb/state/KVal.kt:21 | There is always a handle not in use, which is what the random handle relies on. |
| `KValInvariants.SettledTrans` | src/main/kotlin/io/kweb/state/KVal.kt:47-101 | What propagation and closing leave alone composes across nested calls: values and reasons below a bound, runs only on containers that closed, removals only by handlers of containers that closed, and every container that closed ran all its handlers. |
| `KValScenario.LengthOfString` | src/test/kotlin/kweb/state/KVarSpec.kt:28-33 | `map` of the length of "three" reads 5. After the change to "one" is delivered it reads 3. After the source closes, reading the source fails with its reason and the derived container is closed. |
| `KValScenario.MapFailures` | src/main/kotlin/io/kweb/state/KVal.kt:42-46 | `map` with a throwing mapper fails with that exception, and `map` on a closed container fails with its reason. |
| `KValScenario.ThrowingListener` | src/main/kotlin/io/kweb/state/KVal.kt:54-61 | A derived container whose listener throws ends closed with "Closed because mapper threw an exception". |
| `KValScenario.ChainTeardown` | src/main/kotlin/io/kweb/state/KVal.kt:70-72 | Closing a source closes the container mapped from it and the container mapped from that one. |
| `KValScenario.CalmListener` | src/main/kotlin/io/kweb/state/KVal.kt:47-63 | A listener on a derived container that returns normally is called with (5, 3) when "three" becomes "one". The derived container stays open and reads 3. |
| `KValScenario.ChainPropagation` | src/main/kotlin/io/kweb/state/KVal.kt:47-63 | In a chain source → derived → second derived, "three" becoming "one" calls the first derived container's `map` listener with (5, 3). The second derived container stays open and reads 3. |
| `KValScenario.ListenedChainPropagation` | src/main/kotlin/io/kweb/state/KVal.kt:47-63 | In that chain, with an external listener that returns normally on the second derived container, "three" becoming "one" calls that listener with (5, 3). The second derived container stays open and reads 3. |
| `KValScenario.ListenedChainTold` | src/main/kotlin/io/kweb/state/KVal.kt:47-63 | A calm propagation in that chain that reached the source's listener leaves both derived containers holding 3 and has called the external listener with (5, 3). |
| `KValScenario.Tell` | src/main/kotlin/io/kweb/state/KVal.kt:47-68 | A listener call changes only values and reaches every level below it when the arena was at rest and the calls were calm. |
| `KValScenario.ChainHandlers` | src/main/kotlin/io/kweb/state/KVal.kt:79-101 | Closing the source of that chain, with a user close handler on the source and on the first derived container, runs handlers 0 and 1 of the source, 0, 1 and 2 of the first derived container, and 0 of the second. |
| `KValScenario.SiblingsIndependent` | src/main/kotlin/io/kweb/state/KVal.kt:47-63 | Propagating through one container mapped from a source leaves a second container mapped from the same source open and holding its value. |

## Left out

- Concurrency: `ConcurrentHashMap`, `ConcurrentLinkedDeque` and `@Volatile` are modelled as sequential state.
- Logging and the `closedStack` debugging capture: they have no observable effect on the containers.
- `random.nextLong()`: the handle is any value not yet in use. A collision with a used handle is not modelled.
- Handles are unbounded integers rather than 64-bit `Long`s; nothing in the core does arithmetic on them.
- `toString`: formatting only.
- `KVar` (the public value setter), `property` and `combine` are not part of this model. A change at a root container is delivered by calling `InvokeListener` on it with (old, new).
- All containers share one value type `V`; a mapper from `T` to another type `O` is a function on `V`.
- External listeners and user close handlers have no effect on the containers. An external listener only returns or throws, as `react` says.
- The "not propagating" error message leaves out the old and new values that the code interpolates into it, since values have no string form here.
- KVal.Arena.FanOut: the order of the walk is unspecified, and a listener added while the walk runs is not visited. A weakly consistent iterator may or may not visit such a listener.
- KVal.Arena.FanOut: outside an arena at rest, the contract says that a closed derived container was closed after a call. It does not say which listener closed it. In an arena at rest, the contract does say it: the closer is a called listener that is sure to throw. A delivery to an arena at rest walks only arenas at rest, because changing values and completing closes keep it at rest (`AtRestValues`, `AtRestKept`).
- KVal.Arena.Visit: when the called listener throws, the contract states the explanation the derived container is closed with, not that the recorded exception is the one thrown.
- KVal.Arena.InvokeListener: the value of the source container is not updated, because its setter belongs to `KVar`.
- Relay: the spread below the first `map` hop (`Below`) is stated only for calm calls in an arena at rest. If some listener or mapper throws, the contract states only these first-hop facts: the derived container is fed (`ChildrenFed`), and a closed container was closed by a thrower (`ClosedByThrower`). What a throw deep in the chain leaves behind, one close per level, is not traced.
- Propagate: as for `Relay`, the recursive spread is stated only for calm walks in an arena at rest.
- CallListener: as for `Relay`, the recursive spread (`Reached`) is stated only for calm calls in an arena at rest.
- KVal.Arena.Close: the runs of different containers are not ordered against each other. Each container's own runs are stated to be its handlers once each, in order. That every container reachable from the closed one ends closed is stated under the hypothesis that teardown was complete before the call (`TornDown`), which the constructor establishes and every public operation keeps.
- KVal.Arena.Close: user close handlers return normally. In KVal.kt an exception from a handler ends the `forEach` at line 100, so the handlers after it (including those `map` registered) do not run and the exception escapes `close`; the model has no such path.
- KVal.Arena.Visit: a listener removed from the derived container before its turn is skipped. The `forEach` at KVal.kt:53 runs over a view of a `ConcurrentHashMap`, whose weakly consistent iteration may also still hand out such a listener. In the model only `map` close handlers remove listeners, so such a listener would be a `map` listener whose other end is closed: it would throw the "not propagating" error, and the resulting close is a no-op. Only the ghost call log could differ.
- Only `Exception` is caught at KVal.kt:59. A JVM `Error` thrown by a mapper or a listener would escape the walk; `Throwable` here stands for exceptions only.
