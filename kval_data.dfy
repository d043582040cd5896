/** Values of the observable-container core: close reasons, listeners, close handlers,
    the per-node record held by the arena, and the outcomes of the operations. */
module KValData {

  datatype Option<+T> = None | Some(value: T)

  /** An exception object. `IllegalState` is what Kotlin's `error(...)` raises;
      `UserException` stands for anything thrown by a mapper or a listener. */
  datatype Throwable = IllegalState(message: string) | UserException(id: nat)

  /** Why a container was closed: a human-readable explanation and, optionally, the exception behind it. */
  datatype CloseReason = CloseReason(explanation: string, throwable: Option<Throwable>)

  const MapperThrewExplanation: string := "Closed because mapper threw an exception"
  const SourceClosedReason: CloseReason := CloseReason("KVar this was mapped from was closed", None)
  const NotPropagatingMessage: string :=
    "Not propagating change to mapped variable because this or the other observable are closed"

  /** The reason a derived node is closed with when its mapper or one of its listeners threw. */
  function MapperThrewReason(e: Throwable): (reason: CloseReason) {
    CloseReason(MapperThrewExplanation, Some(e))
  }

  /** Listener handles are Kotlin `Long`s; nodes, mappers and user callbacks are named by numbers. */
  type Handle = int
  type NodeId = nat
  type MapperId = nat
  type ObserverId = nat
  type HandlerId = nat

  /** What a listener closure does: an external subscriber, or the listener `map` installs on its
      source, which recomputes node `child` with mapper number `mapper`. */
  datatype Listener = External(observer: ObserverId) | Derived(child: NodeId, mapper: MapperId)

  /** What a close handler does: the handler `map` registers on the derived node (remove its
      listener from the source), the handler `map` registers on the source (close the derived
      node), or a user handler with no effect on the containers. */
  datatype Action =
    | RemoveListener(source: NodeId, handle: Handle)
    | CloseNode(target: NodeId, reason: CloseReason)
    | Opaque(id: HandlerId)

  /** The fields of one `KVal`: `pValue`, `closeReason`, `listeners`, `closeHandlers`. */
  datatype Node<V> = Node(value: V, closeReason: Option<CloseReason>,
                          listeners: map<Handle, Listener>, closeHandlers: seq<Action>)

  /** The result of applying a mapper: a value, or the exception it threw. */
  datatype MapOutcome<V> = Mapped(value: V) | Raised(cause: Throwable)

  /** How a listener invocation ends: normally, or by throwing. */
  datatype Outcome = Done | Threw(cause: Throwable)

  /** The failures `value` and `map` report to their caller. */
  datatype Failure =
    | ReadAfterClose(reason: CloseReason)
    | MapAfterClose(reason: CloseReason)
    | MapperFailed(cause: Throwable)

  datatype Result<T> = Ok(value: T) | Err(failure: Failure)

  /** One listener invocation: listener `handle` of node `node` called with (oldValue, newValue). */
  datatype Call<V> = Call(node: NodeId, handle: Handle, oldValue: V, newValue: V)

  /** One close-handler invocation: handler number `index` of node `node`. */
  datatype Run = Run(node: NodeId, index: nat)
}
