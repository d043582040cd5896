/** The observable value container `KVal` of io.kweb.state, modelled as an arena of nodes:
    node ids stand for `KVal` references, and each node holds the fields of one `KVal`. */
module KVal {
  import opened KValData
  import opened KValInvariants

  class Arena<V(==)> {
    /** The `KVal` objects, by id. */
    var nodes: seq<Node<V>>
    /** The mapper functions passed to `map`, by the number a `Derived` listener refers to. */
    var mappers: seq<V -> MapOutcome<V>>
    /** What calling external listener `o` with (old, new) does: `Some(e)` if it throws `e`. */
    const react: (ObserverId, V, V) -> Option<Throwable>
    /** Every listener invocation, in order. */
    ghost var calls: seq<Call<V>>
    /** Every close-handler invocation, in order. */
    ghost var runs: seq<Run>

    ghost predicate Valid()
      reads this
    {
      WellFormed(nodes, |mappers|)
    }

    constructor (react: (ObserverId, V, V) -> Option<Throwable>)
      ensures Valid()
      ensures nodes == [] && mappers == [] && calls == [] && runs == []
      ensures this.react == react
      ensures AtRest(nodes)
    {
      nodes := [];
      mappers := [];
      this.react := react;
      calls := [];
      runs := [];
    }

    /** `isClosed`: whether a close reason has been recorded, that is, whether the node has
        left the set of open nodes. */
    predicate IsClosed(n: NodeId): (closed: bool)
      reads this
      requires n < |nodes|
      ensures closed <==> n !in OpenIds(nodes)
    {
      nodes[n].closeReason.Some?
    }

    /** The `value` getter: the stored value while open, a failure carrying the close reason
        once closed. Reading changes nothing. */
    function Read(n: NodeId): (r: Result<V>)
      reads this
      requires n < |nodes|
      ensures r.Ok? <==> !IsClosed(n)
      ensures r.Ok? ==> r.value == nodes[n].value
      ensures r.Err? ==> r.failure == ReadAfterClose(nodes[n].closeReason.value)
    {
      match nodes[n].closeReason
      case Some(reason) => Err(ReadAfterClose(reason))
      case None => Ok(nodes[n].value)
    }

    /** `KVal(value)`: a new open node with no listeners and no close handlers. */
    method Create(value: V) returns (n: NodeId)
      requires Valid()
      modifies this
      ensures Valid()
      ensures n == |old(nodes)|
      ensures nodes == old(nodes) + [Node(value, None, map[], [])]
      ensures mappers == old(mappers) && calls == old(calls) && runs == old(runs)
      ensures TornDown(old(nodes)) ==> TornDown(nodes)
      ensures Attached(old(nodes)) ==> Attached(nodes)
    {
      n := |nodes|;
      nodes := nodes + [Node(value, None, map[], [])];
      assert forall i :: 0 <= i < n ==> nodes[i] == old(nodes)[i];
      TornDownFrame(old(nodes), nodes);
      AttachedFrame(old(nodes), nodes);
      forall i, h | 0 <= i < |nodes| && h in nodes[i].listeners
        ensures ListenerLinked(nodes, |mappers|, i, h)
      {
        assert ListenerLinked(old(nodes), |mappers|, i, h);
      }
      forall i, j | 0 <= i < |nodes| && 0 <= j < |nodes[i].closeHandlers|
        ensures ActionBounded(nodes, i, nodes[i].closeHandlers[j])
      {
        assert ActionBounded(old(nodes), i, old(nodes)[i].closeHandlers[j]);
      }
    }

    /** `addListener`: stores an external listener under a handle not in use and returns the
        handle; every other entry stays. A closed node still accepts it: `addListener` in
        KVal.kt has no closed check. */
    method AddListener(n: NodeId, observer: ObserverId) returns (h: Handle)
      requires Valid() && n < |nodes|
      modifies this
      ensures Valid()
      ensures h !in old(nodes[n].listeners)
      ensures nodes == old(nodes)[n := old(nodes[n]).(listeners := old(nodes[n].listeners)[h := External(observer)])]
      ensures mappers == old(mappers) && calls == old(calls) && runs == old(runs)
      ensures TornDown(old(nodes)) ==> TornDown(nodes)
      ensures Attached(old(nodes)) ==> Attached(nodes)
    {
      FreshHandleExists(nodes[n].listeners.Keys);
      h :| h !in nodes[n].listeners;
      nodes := nodes[n := nodes[n].(listeners := nodes[n].listeners[h := External(observer)])];
      TornDownFrame(old(nodes), nodes);
      AttachedFrame(old(nodes), nodes);
      forall i, k | 0 <= i < |nodes| && k in nodes[i].listeners
        ensures ListenerLinked(nodes, |mappers|, i, k)
      {
        if i != n || k != h {
          assert ListenerLinked(old(nodes), |mappers|, i, k);
        }
      }
      forall i, j | 0 <= i < |nodes| && 0 <= j < |nodes[i].closeHandlers|
        ensures ActionBounded(nodes, i, nodes[i].closeHandlers[j])
      {
        assert ActionBounded(old(nodes), i, old(nodes)[i].closeHandlers[j]);
      }
    }

    /** `removeListener`: deletes the entry under `h`, if any, and nothing else. */
    method RemoveListener(n: NodeId, h: Handle)
      requires Valid() && n < |nodes|
      modifies this
      ensures Valid()
      ensures nodes == old(nodes)[n := old(nodes[n]).(listeners := old(nodes[n].listeners) - {h})]
      ensures h !in old(nodes[n].listeners) ==> nodes == old(nodes)
      ensures mappers == old(mappers) && calls == old(calls) && runs == old(runs)
      ensures TornDown(old(nodes)) ==> TornDown(nodes)
      ensures Attached(old(nodes)) ==> Attached(nodes)
    {
      RemoveKeepsInvariants(nodes, |mappers|, n, h);
      nodes := nodes[n := nodes[n].(listeners := nodes[n].listeners - {h})];
    }

    /** `onClose`: appends a user close handler. On a closed node it is still appended
        (`onClose` in KVal.kt only logs a warning), and it never runs, since closing a closed
        node runs nothing. */
    method OnClose(n: NodeId, id: HandlerId)
      requires Valid() && n < |nodes|
      modifies this
      ensures Valid()
      ensures nodes == old(nodes)[n := old(nodes[n]).(closeHandlers := old(nodes[n].closeHandlers) + [Opaque(id)])]
      ensures mappers == old(mappers) && calls == old(calls) && runs == old(runs)
      ensures TornDown(old(nodes)) ==> TornDown(nodes)
      ensures Attached(old(nodes)) ==> Attached(nodes)
    {
      OnCloseKeepsInvariants(nodes, |mappers|, n, id);
      nodes := nodes[n := nodes[n].(closeHandlers := nodes[n].closeHandlers + [Opaque(id)])];
    }

    /** `close`: on an open node, records the reason first and then runs every close handler
        once, in registration order; on a closed node, changes nothing (a re-entrant close from
        inside a handler is one of these). Values never change, and only nodes reached from `n`
        through close handlers get closed, none of them created before `n`. */
    method Close(n: NodeId, reason: CloseReason)
      requires Valid() && n < |nodes|
      modifies this
      decreases OpenIds(nodes), 2
      ensures Valid() && mappers == old(mappers) && calls == old(calls)
      ensures Settled(old(nodes), nodes, old(runs), runs, |old(nodes)|, n)
      ensures forall m :: NewlyClosed(old(nodes), nodes, m) ==> Cascades(old(nodes), n, m)
      ensures old(nodes[n].closeReason).Some? ==> nodes == old(nodes) && runs == old(runs)
      ensures old(nodes[n].closeReason).None? ==>
                && nodes[n].closeReason == Some(reason)
                && RunsAt(runs[|old(runs)|..], n) == Upto(|nodes[n].closeHandlers|)
                && HandlersDone(nodes, nodes[n].closeHandlers, |nodes[n].closeHandlers|)
      ensures forall m: NodeId :: NewlyClosed(old(nodes), nodes, m) && m != n ==> nodes[m].closeReason == Some(SourceClosedReason)
      ensures Confined(old(nodes), nodes, n)
      ensures TornDown(old(nodes)) ==>
                && TornDown(nodes)
                && forall m: NodeId :: Cascades(old(nodes), n, m) ==> m < |nodes| && nodes[m].closeReason.Some?
      ensures Attached(old(nodes)) ==> Attached(nodes)
    {
      if nodes[n].closeReason.Some? {
        TeardownComplete(nodes, nodes, n);
        return;
      }
      nodes := nodes[n := nodes[n].(closeReason := Some(reason))];
      assert Evolves(old(nodes), nodes) by {
        assert forall i :: 0 <= i < |nodes| && i != n ==> nodes[i] == old(nodes)[i];
      }
      EvolvesKeepsWellFormed(old(nodes), nodes, |mappers|);
      CloseRemovesFromOpen(old(nodes), n, reason);
      RunHandlers(n, old(nodes));
      assert ClosesCompleted(old(nodes), nodes) by {
        assert NodeEvolves(old(nodes)[n], nodes[n]);
      }
      TeardownComplete(old(nodes), nodes, n);
      AttachedKept(old(nodes), nodes, |mappers|);
      ConfinedByCascade(old(nodes), nodes, n);
    }

    /** Runs every close handler of node `n`, whose reason is already set, once each in
        registration order. */
    method RunHandlers(n: NodeId, ghost before: seq<Node<V>>)
      requires Valid() && n < |nodes| && nodes[n].closeReason.Some?
      requires |before| == |nodes| && before[n].closeReason.None? && Evolves(before, nodes)
      requires forall k :: 0 <= k < |nodes| && k != n ==> nodes[k] == before[k]
      requires nodes[n] == before[n].(closeReason := nodes[n].closeReason)
      modifies this
      decreases OpenIds(nodes) + {n}, 1
      ensures Valid() && mappers == old(mappers) && calls == old(calls)
      ensures HandlerLoop(before, nodes, old(runs), runs, n, |before[n].closeHandlers|)
      ensures nodes[n].closeReason == old(nodes[n].closeReason)
    {
      var hs, i := nodes[n].closeHandlers, 0;
      HandlerLoopStart(before, nodes, runs, n);
      while i < |hs|
        invariant hs == before[n].closeHandlers
        invariant Valid() && mappers == old(mappers) && calls == old(calls)
        invariant HandlerLoop(before, nodes, old(runs), runs, n, i)
        invariant nodes[n].closeReason == old(nodes[n].closeReason)
        invariant OpenIds(nodes) <= OpenIds(old(nodes))
      {
        ghost var nodes0, runs0 := nodes, runs;
        assert NodeEvolves(before[n], nodes[n]);
        RunHandler(n, i);
        EvolvesShrinksOpen(nodes0, nodes);
        HandlerLoopStep(before, nodes0, nodes, old(runs), runs0, runs, n, i);
        i := i + 1;
      }
    }

    /** Runs close handler number `i` of the closed node `n`. */
    method RunHandler(n: NodeId, i: nat)
      requires Valid() && n < |nodes| && i < |nodes[n].closeHandlers| && nodes[n].closeReason.Some?
      modifies this
      decreases OpenIds(nodes) + {n}, 0
      ensures Valid() && Evolves(old(nodes), nodes)
      ensures mappers == old(mappers) && calls == old(calls)
      ensures forall k :: 0 <= k < |nodes| ==> nodes[k].value == old(nodes[k].value)
      ensures forall k :: 0 <= k <= n ==> nodes[k].closeReason == old(nodes[k].closeReason)
      ensures |runs| > |old(runs)| && runs[|old(runs)|] == Run(n, i)
      ensures RunsGrow(old(runs) + [Run(n, i)], runs, old(nodes), nodes)
      ensures forall m :: NewlyClosed(old(nodes), nodes, m) ==>
                old(nodes[n].closeHandlers[i]).CloseNode?
                && Cascades(old(nodes), old(nodes[n].closeHandlers[i]).target, m)
      ensures old(nodes[n].closeHandlers[i]).CloseNode? ==>
                old(nodes[n].closeHandlers[i]).target < |nodes|
                && nodes[old(nodes[n].closeHandlers[i]).target].closeReason.Some?
      ensures old(nodes[n].closeHandlers[i]).RemoveListener? ==>
                old(nodes[n].closeHandlers[i]).source < |nodes|
                && old(nodes[n].closeHandlers[i]).handle !in nodes[old(nodes[n].closeHandlers[i]).source].listeners
      ensures RemovalsExplained(old(nodes), nodes, {n})
      ensures forall m: NodeId :: NewlyClosed(old(nodes), nodes, m) ==> nodes[m].closeReason == Some(SourceClosedReason)
      ensures ClosesCompleted(old(nodes), nodes) && RunsComplete(old(nodes), nodes, old(runs) + [Run(n, i)], runs)
    {
      assert ActionBounded(nodes, n, nodes[n].closeHandlers[i]);
      runs := runs + [Run(n, i)];
      match nodes[n].closeHandlers[i]
      case RemoveListener(s, h) =>
        nodes := nodes[s := nodes[s].(listeners := nodes[s].listeners - {h})];
        assert Evolves(old(nodes), nodes) by {
          assert forall k :: 0 <= k < |nodes| && k != s ==> nodes[k] == old(nodes)[k];
        }
        EvolvesKeepsWellFormed(old(nodes), nodes, |mappers|);
        assert RemovedBy(old(nodes), nodes, {n}, s, h, n) by {
          assert nodes[n].closeHandlers[i] == Action.RemoveListener(s, h);
        }
      case CloseNode(c, r) =>
        ghost var runs0 := runs;
        Close(c, r);
        assert runs[|old(runs)|] == Run(n, i) by {
          assert runs[..|runs0|] == runs0;
          assert runs[|old(runs)|] == runs[..|runs0|][|old(runs)|];
        }
        RemovalsExplainedWiden(old(nodes), nodes, {}, {n});
      case Opaque(_) =>
    }

    /** `map`: fails on a closed node, and lets an exception of `mapper(value)` escape.
        Otherwise creates an open node holding `mapper(value)`, installs exactly one listener on
        the source (under a fresh handle) and the two close handlers that tie the nodes together:
        the source closes the new node, and the new node removes that listener from the source. */
    method Map(n: NodeId, mapper: V -> MapOutcome<V>) returns (r: Result<NodeId>)
      requires Valid() && n < |nodes|
      modifies this
      ensures Valid()
      ensures calls == old(calls) && runs == old(runs)
      ensures old(nodes[n].closeReason).Some? ==>
                r == Err(MapAfterClose(old(nodes[n].closeReason).value))
                && nodes == old(nodes) && mappers == old(mappers)
      ensures old(nodes[n].closeReason).None? && mapper(old(nodes[n].value)).Raised? ==>
                r == Err(MapperFailed(mapper(old(nodes[n].value)).cause))
                && nodes == old(nodes) && mappers == old(mappers)
      ensures old(nodes[n].closeReason).None? && mapper(old(nodes[n].value)).Mapped? ==>
                && r == Ok(|old(nodes)|)
                && mappers == old(mappers) + [mapper]
                && (exists h :: h !in old(nodes[n].listeners) &&
                      nodes == WithMapEdge(old(nodes), n, h, mapper(old(nodes[n].value)).value, |old(mappers)|))
      ensures TornDown(old(nodes)) ==> TornDown(nodes)
      ensures Attached(old(nodes)) ==> Attached(nodes)
    {
      if nodes[n].closeReason.Some? {
        return Err(MapAfterClose(nodes[n].closeReason.value));
      }
      match mapper(nodes[n].value)
      case Raised(e) =>
        return Err(MapperFailed(e));
      case Mapped(v) =>
        var c := Attach(n, mapper, v);
        r := Ok(c);
    }

    /** The part of `map` past its guards: a new open node holding `v`, whose value follows
        node `n` through a fresh listener, and the two close handlers that tie them together. */
    method Attach(n: NodeId, mapper: V -> MapOutcome<V>, v: V) returns (c: NodeId)
      requires Valid() && n < |nodes| && nodes[n].closeReason.None?
      modifies this
      ensures Valid()
      ensures calls == old(calls) && runs == old(runs)
      ensures c == |old(nodes)| && mappers == old(mappers) + [mapper]
      ensures exists h :: h !in old(nodes[n].listeners) && nodes == WithMapEdge(old(nodes), n, h, v, |old(mappers)|)
      ensures TornDown(old(nodes)) ==> TornDown(nodes)
      ensures Attached(old(nodes)) ==> Attached(nodes)
    {
      c := |nodes|;
      FreshHandleExists(nodes[n].listeners.Keys);
      var h :| h !in nodes[n].listeners;
      nodes := WithMapEdge(nodes, n, h, v, |mappers|);
      mappers := mappers + [mapper];
      MapKeepsWellFormed(old(nodes), n, h, v, |old(mappers)|);
      MapKeepsTornDown(old(nodes), n, h, v, |old(mappers)|);
      AttachedFrame(old(nodes), nodes);
    }

    /** Calls listener `h` of node `n` with (oldValue, newValue). An external listener does
        what `react` says and touches no container; the listener `map` installed runs as
        `Relay` says. Nothing created before `n` changes value or close reason; the invocation
        is logged first. In an arena at rest the call throws exactly when the listener is
        sure to, and a call whose every nested call is calm changes node values at most. */
    method InvokeListener(n: NodeId, h: Handle, oldValue: V, newValue: V) returns (out: Outcome)
      requires Valid() && n < |nodes| && h in nodes[n].listeners
      modifies this
      decreases |nodes| - n, 1
      ensures Valid() && mappers == old(mappers)
      ensures Settled(old(nodes), nodes, old(runs), runs, n + 1, n + 1)
      ensures |calls| > |old(calls)| && calls[..|old(calls)| + 1] == old(calls) + [Call(n, h, oldValue, newValue)]
      ensures forall k :: |old(calls)| < k < |calls| ==> calls[k].node > n
      ensures old(nodes[n].listeners[h]).Derived? ==> Confined(old(nodes), nodes, old(nodes[n].listeners[h]).child)
      ensures TornDown(old(nodes)) ==> TornDown(nodes)
      ensures Attached(old(nodes)) ==> Attached(nodes)
      ensures oldValue != newValue && SureToThrow(old(nodes[n].listeners[h]), react, mappers, oldValue, newValue) ==>
                out.Threw?
      ensures AtRest(old(nodes)) ==>
                (out.Threw? <==>
                   && SureToThrow(old(nodes[n].listeners[h]), react, mappers, oldValue, newValue)
                   && (old(nodes[n].listeners[h]).External? || oldValue != newValue))
      ensures AtRest(old(nodes)) && Calm(old(nodes), old(calls), calls, react, mappers) ==>
                out == Done && OnlyValues(old(nodes), nodes)
      ensures AtRest(old(nodes)) && Calm(old(nodes), old(calls), calls, react, mappers) && oldValue != newValue ==>
                Reached(nodes, old(calls), calls, mappers, n, h, oldValue, newValue)
      ensures old(nodes[n].listeners[h]).External? ==>
                && out == Reaction(react(old(nodes[n].listeners[h]).observer, oldValue, newValue))
                && Untouched(old(nodes), nodes, old(runs), runs, old(calls) + [Call(n, h, oldValue, newValue)], calls)
      ensures old(nodes[n].listeners[h]).Derived? ==>
                Relayed(old(nodes), nodes, old(runs), runs, old(calls) + [Call(n, h, oldValue, newValue)], calls,
                        react, mappers, n, h, oldValue, newValue, out)
    {
      calls := calls + [Call(n, h, oldValue, newValue)];
      assert calls[|old(calls)|] == Call(n, h, oldValue, newValue);
      match nodes[n].listeners[h]
      case External(observer) =>
        out := Reaction(react(observer, oldValue, newValue));
        SettledRefl(nodes, runs, n + 1, n + 1);
        OnlyValuesRefl(nodes);
        assert calls[|old(calls)|..][0] == Call(n, h, oldValue, newValue);
      case Derived(c, m) =>
        ghost var calls1 := calls;
        out := Relay(n, h, oldValue, newValue);
        assert calls[..|old(calls)| + 1] == calls1 by {
          assert calls[..|old(calls)| + 1] == calls[..|calls1|];
        }
        RelayReached(old(nodes), nodes, old(calls), calls1, calls, react, mappers, n, h, oldValue, newValue, out);
    }

    /** The listener `map` installed (`map` in KVal.kt), called on its source node `n` as
        listener `h` with (oldValue, newValue), after the call was logged: see `Relayed`. In an
        arena at rest it throws exactly when the mapper throws on a new value that differs
        from the old one, and a calm call, whose nested calls are calm too, changes node values
        at most. */
    method Relay(n: NodeId, h: Handle, oldValue: V, newValue: V) returns (out: Outcome)
      requires Valid() && n < |nodes| && h in nodes[n].listeners && nodes[n].listeners[h].Derived?
      modifies this
      decreases |nodes| - n, 0
      ensures Valid() && mappers == old(mappers)
      ensures Settled(old(nodes), nodes, old(runs), runs, n + 1, n + 1)
      ensures |calls| >= |old(calls)| && calls[..|old(calls)|] == old(calls)
      ensures forall k :: |old(calls)| <= k < |calls| ==> calls[k].node > n
      ensures Confined(old(nodes), nodes, old(nodes[n].listeners[h]).child)
      ensures TornDown(old(nodes)) ==> TornDown(nodes)
      ensures Attached(old(nodes)) ==> Attached(nodes)
      ensures AtRest(old(nodes)) ==>
                (out.Threw? <==> SureToThrow(old(nodes[n].listeners[h]), react, mappers, oldValue, newValue) &&
                                 oldValue != newValue)
      ensures AtRest(old(nodes)) && CalmCall(old(nodes[n].listeners[h]), react, mappers, oldValue, newValue) &&
              Calm(old(nodes), old(calls), calls, react, mappers) ==>
                out == Done && OnlyValues(old(nodes), nodes)
      ensures AtRest(old(nodes)) && CalmCall(old(nodes[n].listeners[h]), react, mappers, oldValue, newValue) &&
              Calm(old(nodes), old(calls), calls, react, mappers) && oldValue != newValue ==>
                Below(nodes, old(calls), calls, mappers, n, old(nodes[n].listeners[h]), oldValue, newValue)
      ensures Relayed(old(nodes), nodes, old(runs), runs, old(calls), calls, react, mappers, n, h, oldValue, newValue, out)
    {
      var c, m := nodes[n].listeners[h].child, nodes[n].listeners[h].mapper;
      assert ListenerLinked(nodes, |mappers|, n, h);
      if AtRest(nodes) {
        LiveEdge(nodes, |mappers|, n, h);
      }
      SettledRefl(nodes, runs, n + 1, n + 1);
      OnlyValuesRefl(nodes);
      if nodes[n].closeReason.Some? || nodes[c].closeReason.Some? {
        out := Threw(IllegalState(NotPropagatingMessage));
      } else if oldValue == newValue {
        out := Done;
      } else {
        match mappers[m](newValue)
        case Raised(e) =>
          out := Threw(e);
        case Mapped(mv) =>
          ghost var mid := nodes[c := nodes[c].(value := mv)];
          Propagate(c, m, oldValue, mv);
          CalmDelivery(old(nodes), mid, nodes, old(calls), calls, react, mappers, n, h, oldValue, newValue);
          TornDownKept(old(nodes), nodes);
          AttachedKept(old(nodes), nodes, |mappers|);
          out := Done;
      }
    }

    /** The body of the listener `map` installed, past its guards: stores `mv`, the mapped new
        value, in the derived node `c` and walks the listeners of `c` (see `FanOut`). Only `c`
        and the nodes derived from it change. */
    method Propagate(c: NodeId, m: MapperId, oldValue: V, mv: V)
      requires Valid() && c < |nodes| && m < |mappers| && nodes[c].closeReason.None?
      modifies this
      decreases |nodes| - c, 5
      ensures Valid() && mappers == old(mappers)
      ensures Settled(old(nodes), nodes, old(runs), runs, c, c)
      ensures nodes[c].value == mv
      ensures Confined(old(nodes), nodes, c)
      ensures FannedOut(old(nodes)[c := old(nodes[c]).(value := mv)], nodes, old(calls), calls, react, mappers,
                        c, mappers[m](oldValue), mv, old(nodes[c].listeners.Keys))
    {
      nodes := nodes[c := nodes[c].(value := mv)];
      assert Settled(old(nodes), nodes, runs, runs, c, |nodes|) by {
        assert forall k :: 0 <= k < |nodes| && k != c ==> nodes[k] == old(nodes)[k];
        assert NodeEvolves(old(nodes)[c], nodes[c]);
        RunsGrowRefl(runs, nodes);
      }
      assert Confined(old(nodes), nodes, c) by {
        CascadesRefl(old(nodes), c);
      }
      EvolvesKeepsWellFormed(old(nodes), nodes, |mappers|);
      ghost var mid, runs0 := nodes, runs;
      FanOut(c, m, oldValue, mv);
      SettledTrans(old(nodes), mid, nodes, runs0, runs0, runs, c, |nodes|, c + 1, c, c, c);
      ConfinedTrans(old(nodes), mid, nodes, c);
    }

    /** One turn of the walk over the listeners of derived node `c` (mapper number `m`,
        previous source value `oldValue`, freshly mapped value `mv`): a listener removed
        before its turn is skipped; otherwise `mapper(old)` is computed, an exception from it
        closes `c`, and the listener is called when `mapper(old)` differs from `mv`. */
    method Visit(c: NodeId, h: Handle, m: MapperId, oldValue: V, mv: V)
      requires Valid() && c < |nodes| && m < |mappers|
      modifies this
      decreases |nodes| - c, 3
      ensures Valid() && mappers == old(mappers)
      ensures Turn(old(nodes), nodes, old(runs), runs, old(calls), calls, react, mappers, c, h, mappers[m](oldValue), mv)
    {
      if h !in nodes[c].listeners {
        TurnSkipped(nodes, runs, calls, react, mappers, c, h, mappers[m](oldValue), mv);
        return;
      }
      match mappers[m](oldValue)
      case Raised(e) =>
        Close(c, MapperThrewReason(e));
        TurnRaised(old(nodes), nodes, old(runs), runs, calls, react, mappers, c, h, e, mv);
      case Mapped(mo) =>
        if mo == mv {
          TurnSkipped(nodes, runs, calls, react, mappers, c, h, mappers[m](oldValue), mv);
          return;
        }
        CallListener(c, h, mo, mv);
    }

    /** Calls listener `h` of derived node `c` with (`mo`, `mv`) inside the walk's `try`, and
        closes `c` with the exception if the call throws. */
    method CallListener(c: NodeId, h: Handle, mo: V, mv: V)
      requires Valid() && c < |nodes| && h in nodes[c].listeners && mo != mv
      modifies this
      decreases |nodes| - c, 2
      ensures Valid() && mappers == old(mappers)
      ensures Turn(old(nodes), nodes, old(runs), runs, old(calls), calls, react, mappers, c, h, Mapped(mo), mv)
    {
      var out := InvokeListener(c, h, mo, mv);
      ghost var nodes1, runs1 := nodes, runs;
      CloseOnThrow(c, out);
      SettledTrans(old(nodes), nodes1, nodes, old(runs), runs1, runs, c + 1, c + 1, |nodes|, c, c + 1, c);
      CallVisited(old(nodes), nodes1, nodes, old(runs), runs, old(calls), calls, react, mappers, c, h, mo, mv, out);
      CallConfined(old(nodes), nodes1, nodes, |mappers|, c, h);
      CallDelivered(old(nodes), nodes1, nodes, old(calls), calls, react, mappers, c, h, mo, mv, out);
    }

    /** The `catch` of the walk: closes `c` with the exception of a listener call that threw. */
    method CloseOnThrow(c: NodeId, out: Outcome)
      requires Valid() && c < |nodes|
      modifies this
      ensures Valid() && mappers == old(mappers) && calls == old(calls)
      ensures Settled(old(nodes), nodes, old(runs), runs, |old(nodes)|, c)
      ensures Confined(old(nodes), nodes, c)
      ensures out.Threw? ==>
                nodes[c].closeReason ==
                  if old(nodes[c].closeReason).Some? then old(nodes[c].closeReason) else Some(MapperThrewReason(out.cause))
      ensures !out.Threw? ==> nodes == old(nodes) && runs == old(runs)
    {
      if out.Threw? {
        Close(c, MapperThrewReason(out.cause));
      } else {
        SettledRefl(nodes, runs, |nodes|, c);
        CascadesRefl(nodes, c);
      }
    }

    /** The walk over the listeners of derived node `c`, whose value has just been set to
        `mv`: every listener present when the walk starts gets its turn, in an unspecified
        order, unless it was removed before then (see `FannedOut`). */
    method FanOut(c: NodeId, m: MapperId, oldValue: V, mv: V)
      requires Valid() && c < |nodes| && m < |mappers| && nodes[c].closeReason.None?
      modifies this
      decreases |nodes| - c, 4
      ensures Valid() && mappers == old(mappers)
      ensures Settled(old(nodes), nodes, old(runs), runs, c + 1, c)
      ensures FannedOut(old(nodes), nodes, old(calls), calls, react, mappers, c, mappers[m](oldValue), mv,
                        old(nodes[c].listeners.Keys))
      ensures old(nodes[c].listeners) == map[] || mappers[m](oldValue) == Mapped(mv) ==> runs == old(runs)
      ensures Confined(old(nodes), nodes, c)
    {
      var keys := nodes[c].listeners.Keys;
      var todo := keys;
      ghost var done: set<Handle> := {};
      WalkStart(nodes, runs, calls, react, mappers, c, mappers[m](oldValue), mv);
      while todo != {}
        invariant todo == keys - done && done <= keys
        invariant Valid() && mappers == old(mappers) && WellFormed(old(nodes), |mappers|)
        invariant Walked(old(nodes), nodes, old(runs), runs, old(calls), calls, react, mappers, c, mappers[m](oldValue), mv, done)
        decreases todo
      {
        ghost var some := PickElement(todo);
        var h :| h in todo;
        ghost var nodes0, calls0, runs0 := nodes, calls, runs;
        Visit(c, h, m, oldValue, mv);
        WalkStep(old(nodes), nodes0, nodes, old(runs), runs0, runs, old(calls), calls0, calls, react, mappers,
                 c, mappers[m](oldValue), mv, done, h);
        todo := todo - {h};
        done := done + {h};
      }
      if old(nodes[c].listeners) == map[] {
        assert keys == {};
      }
    }
  }

  /** Deleting the entry under `h` from node `n` keeps the arena well formed, torn down and
      attached. */
  lemma RemoveKeepsInvariants<V>(ns: seq<Node<V>>, mapperCount: nat, n: NodeId, h: Handle)
    requires WellFormed(ns, mapperCount) && n < |ns|
    ensures var ns' := ns[n := ns[n].(listeners := ns[n].listeners - {h})];
            && WellFormed(ns', mapperCount)
            && (TornDown(ns) ==> TornDown(ns'))
            && (Attached(ns) ==> Attached(ns'))
            && (h !in ns[n].listeners ==> ns' == ns)
  {
    var ns' := ns[n := ns[n].(listeners := ns[n].listeners - {h})];
    TornDownFrame(ns, ns');
    AttachedFrame(ns, ns');
    assert Evolves(ns, ns') by {
      assert forall i :: 0 <= i < |ns| && i != n ==> ns'[i] == ns[i];
    }
    EvolvesKeepsWellFormed(ns, ns', mapperCount);
    if h !in ns[n].listeners {
      assert ns[n].listeners - {h} == ns[n].listeners;
    }
  }

  /** Appending a user close handler to node `n` keeps the arena well formed, torn down
      and attached. */
  lemma OnCloseKeepsInvariants<V>(ns: seq<Node<V>>, mapperCount: nat, n: NodeId, id: HandlerId)
    requires WellFormed(ns, mapperCount) && n < |ns|
    ensures var ns' := ns[n := ns[n].(closeHandlers := ns[n].closeHandlers + [Opaque(id)])];
            && WellFormed(ns', mapperCount)
            && (TornDown(ns) ==> TornDown(ns'))
            && (Attached(ns) ==> Attached(ns'))
  {
    var ns' := ns[n := ns[n].(closeHandlers := ns[n].closeHandlers + [Opaque(id)])];
    assert CloseTargets(ns'[n].closeHandlers) == CloseTargets(ns[n].closeHandlers);
    TornDownFrame(ns, ns');
    AttachedFrame(ns, ns');
    forall i, k | 0 <= i < |ns'| && k in ns'[i].listeners
      ensures ListenerLinked(ns', mapperCount, i, k)
    {
      assert ListenerLinked(ns, mapperCount, i, k);
    }
    forall i, j | 0 <= i < |ns'| && 0 <= j < |ns'[i].closeHandlers|
      ensures ActionBounded(ns', i, ns'[i].closeHandlers[j])
    {
      if i != n || j < |ns[n].closeHandlers| {
        assert ActionBounded(ns, i, ns[i].closeHandlers[j]);
      }
    }
  }

  /** What one turn of the walk over `c` for handle `h` did, from arena `ns1`, run log `runs1`
      and call log `log1` to `ns2`, `runs2` and `log2`: it left alone what propagation leaves
      alone, had the effect `Visited` describes, and changed only nodes derived from `c`. */
  ghost predicate Turn<V>(ns1: seq<Node<V>>, ns2: seq<Node<V>>, runs1: seq<Run>, runs2: seq<Run>,
                          log1: seq<Call<V>>, log2: seq<Call<V>>,
                          react: (ObserverId, V, V) -> Option<Throwable>, mappers: seq<V -> MapOutcome<V>>,
                          c: NodeId, h: Handle, mo: MapOutcome<V>, mv: V) {
    && Settled(ns1, ns2, runs1, runs2, c + 1, c)
    && Visited(ns1, ns2, runs1, runs2, log1, log2, react, mappers, c, h, mo, mv)
    && Confined(ns1, ns2, c)
    && Delivered(ns1, ns2, log1, log2, react, mappers, c, h, mo, mv)
  }

  /** A turn that skips a listener changes nothing. */
  lemma TurnSkipped<V>(ns: seq<Node<V>>, runs: seq<Run>, log: seq<Call<V>>,
                       react: (ObserverId, V, V) -> Option<Throwable>, mappers: seq<V -> MapOutcome<V>>,
                       c: NodeId, h: Handle, mo: MapOutcome<V>, mv: V)
    requires c < |ns| && (h !in ns[c].listeners || mo == Mapped(mv))
    ensures Turn(ns, ns, runs, runs, log, log, react, mappers, c, h, mo, mv)
  {
    SettledRefl(ns, runs, c + 1, c);
    OnlyValuesRefl(ns);
  }

  /** A turn whose `mapper(old)` threw `e` and that then closed `c` for it. */
  lemma TurnRaised<V>(ns1: seq<Node<V>>, ns2: seq<Node<V>>, runs1: seq<Run>, runs2: seq<Run>, log: seq<Call<V>>,
                      react: (ObserverId, V, V) -> Option<Throwable>, mappers: seq<V -> MapOutcome<V>>,
                      c: NodeId, h: Handle, e: Throwable, mv: V)
    requires c < |ns1| && h in ns1[c].listeners
    requires Settled(ns1, ns2, runs1, runs2, |ns1|, c) && Confined(ns1, ns2, c)
    requires ns1[c].closeReason.Some? ==> ns2 == ns1 && runs2 == runs1
    requires ns1[c].closeReason.None? ==> ns2[c].closeReason == Some(MapperThrewReason(e))
    ensures Turn(ns1, ns2, runs1, runs2, log, log, react, mappers, c, h, Raised(e), mv)
  {
  }

  /** What the first turns of the walk over derived node `c`, for the handles in `done`, have
      done from arena `ns0` (where `c` is open): the frame of propagation, the effect
      `FannedOut` describes, changes only to nodes derived from `c`, and no handler run
      unless a listener was visited and `mo` differs from `mv`. */
  ghost predicate Walked<V>(ns0: seq<Node<V>>, ns: seq<Node<V>>, runs0: seq<Run>, runs: seq<Run>,
                            log0: seq<Call<V>>, log: seq<Call<V>>,
                            react: (ObserverId, V, V) -> Option<Throwable>, mappers: seq<V -> MapOutcome<V>>,
                            c: NodeId, mo: MapOutcome<V>, mv: V, done: set<Handle>) {
    && Settled(ns0, ns, runs0, runs, c + 1, c)
    && FannedOut(ns0, ns, log0, log, react, mappers, c, mo, mv, done)
    && Confined(ns0, ns, c)
    && (done == {} || mo == Mapped(mv) ==> runs == runs0)
  }

  lemma WalkStart<V>(ns: seq<Node<V>>, runs: seq<Run>, log: seq<Call<V>>,
                     react: (ObserverId, V, V) -> Option<Throwable>, mappers: seq<V -> MapOutcome<V>>,
                     c: NodeId, mo: MapOutcome<V>, mv: V)
    requires c < |ns| && ns[c].closeReason.None?
    ensures Walked(ns, ns, runs, runs, log, log, react, mappers, c, mo, mv, {})
  {
    SettledRefl(ns, runs, c + 1, c);
    OnlyValuesRefl(ns);
  }

  /** One turn extends the walk by the visited handle. */
  lemma WalkStep<V>(ns0: seq<Node<V>>, ns1: seq<Node<V>>, ns2: seq<Node<V>>,
                    runs0: seq<Run>, runs1: seq<Run>, runs2: seq<Run>,
                    log0: seq<Call<V>>, log1: seq<Call<V>>, log2: seq<Call<V>>,
                    react: (ObserverId, V, V) -> Option<Throwable>, mappers: seq<V -> MapOutcome<V>>,
                    c: NodeId, mo: MapOutcome<V>, mv: V, done: set<Handle>, h: Handle)
    requires WellFormed(ns0, |mappers|)
    requires Walked(ns0, ns1, runs0, runs1, log0, log1, react, mappers, c, mo, mv, done)
    requires ns0[c].closeReason.None? && h in ns0[c].listeners && h !in done
    requires Turn(ns1, ns2, runs1, runs2, log1, log2, react, mappers, c, h, mo, mv)
    ensures Walked(ns0, ns2, runs0, runs2, log0, log2, react, mappers, c, mo, mv, done + {h})
  {
    FanOutStep(ns0, ns1, ns2, runs0, runs1, runs2, log0, log1, log2, react, mappers, c, mo, mv, done, h);
    SettledTrans(ns0, ns1, ns2, runs0, runs1, runs2, c + 1, c, c + 1, c, c + 1, c);
    ConfinedTrans(ns0, ns1, ns2, c);
  }

  /** How an external listener's reaction ends the invocation. */
  function Reaction(r: Option<Throwable>): (out: Outcome)
    ensures out.Threw? <==> r.Some?
    ensures out.Threw? ==> out.cause == r.value
  {
    match r
    case Some(e) => Threw(e)
    case None => Done
  }

  /** No node, close-handler run or listener call changed beyond the expected call log. */
  ghost predicate Untouched<V>(ns0: seq<Node<V>>, ns: seq<Node<V>>, runs0: seq<Run>, runs: seq<Run>,
                               log0: seq<Call<V>>, log: seq<Call<V>>) {
    ns == ns0 && runs == runs0 && log == log0
  }

  /** What one turn of the walk over derived node `c` did for handle `h`, from arena `ns1`,
      run log `runs1` and call log `log1` to `ns2`, `runs2` and `log2`; `mo` is the mapper's
      outcome on the old source value and `mv` the new mapped value:
      - a handle no longer present, or `mo` equal to `mv`: nothing happens;
      - the mapper throws on the old value: `c` is closed with that exception, unless it
        already was;
      - `c` only gets closed with `MapperThrewExplanation`, and only if the mapper threw or
        the listener was called;
      - a listener sure to throw leaves `c` closed, and in an arena at rest that is the only
        way a called listener closes `c`. */
  ghost predicate Visited<V>(ns1: seq<Node<V>>, ns2: seq<Node<V>>, runs1: seq<Run>, runs2: seq<Run>,
                             log1: seq<Call<V>>, log2: seq<Call<V>>,
                             react: (ObserverId, V, V) -> Option<Throwable>, mappers: seq<V -> MapOutcome<V>>,
                             c: NodeId, h: Handle, mo: MapOutcome<V>, mv: V) {
    && c < |ns1| && c < |ns2|
    && StepLogged(log1, log2, c, h, ns1[c].listeners.Keys, mo, mv)
    && (h !in ns1[c].listeners || mo == Mapped(mv) ==> ns2 == ns1 && runs2 == runs1 && log2 == log1)
    && (h in ns1[c].listeners && mo.Raised? ==>
          ns2[c].closeReason ==
            if ns1[c].closeReason.Some? then ns1[c].closeReason else Some(MapperThrewReason(mo.cause)))
    && (ns2[c].closeReason != ns1[c].closeReason ==>
          && ns1[c].closeReason.None? && ns2[c].closeReason.value.explanation == MapperThrewExplanation
          && (mo.Raised? || log2 != log1))
    && ((&& h in ns1[c].listeners && mo.Mapped? && mo.value != mv
         && SureToThrow(ns1[c].listeners[h], react, mappers, mo.value, mv))
        ==> ns2[c].closeReason.Some?)
    && (AtRest(ns1) && mo.Mapped? && ns2[c].closeReason != ns1[c].closeReason ==>
          h in ns1[c].listeners && SureToThrow(ns1[c].listeners[h], react, mappers, mo.value, mv))
  }

  /** A turn of the walk that called listener `h` of `c` with (`mo`, `mv`), getting `out`,
      and closed `c` if that threw, is `Visited`. */
  lemma CallVisited<V>(ns1: seq<Node<V>>, ns2: seq<Node<V>>, ns3: seq<Node<V>>, runs1: seq<Run>, runs3: seq<Run>,
                       log1: seq<Call<V>>, log2: seq<Call<V>>,
                       react: (ObserverId, V, V) -> Option<Throwable>, mappers: seq<V -> MapOutcome<V>>,
                       c: NodeId, h: Handle, mo: V, mv: V, out: Outcome)
    requires c < |ns1| && c < |ns2| && c < |ns3| && h in ns1[c].listeners && mo != mv
    requires |log2| > |log1| && log2[..|log1| + 1] == log1 + [Call(c, h, mo, mv)]
    requires forall k :: |log1| < k < |log2| ==> log2[k].node > c
    requires ns2[c].closeReason == ns1[c].closeReason
    requires SureToThrow(ns1[c].listeners[h], react, mappers, mo, mv) ==> out.Threw?
    requires AtRest(ns1) && out.Threw? ==> SureToThrow(ns1[c].listeners[h], react, mappers, mo, mv)
    requires out.Threw? ==>
               ns3[c].closeReason ==
                 if ns2[c].closeReason.Some? then ns2[c].closeReason else Some(MapperThrewReason(out.cause))
    requires !out.Threw? ==> ns3 == ns2
    ensures Visited(ns1, ns3, runs1, runs3, log1, log2, react, mappers, c, h, Mapped(mo), mv)
  {
    assert log2[..|log1|] == log1 by {
      assert log2[..|log1|] == log2[..|log1| + 1][..|log1|];
    }
    assert log2[|log1|] == log2[..|log1| + 1][|log1|];
  }

  /** A turn of the walk over `c` that called listener `h` (arena `ns1` to `ns2`) and may then
      have closed `c` (`ns2` to `ns3`) changed only nodes derived from `c`. */
  lemma CallConfined<V>(ns1: seq<Node<V>>, ns2: seq<Node<V>>, ns3: seq<Node<V>>, mapperCount: nat,
                        c: NodeId, h: Handle)
    requires WellFormed(ns1, mapperCount) && c < |ns1| && h in ns1[c].listeners && Evolves(ns1, ns2)
    requires ns1[c].listeners[h].External? ==> ns2 == ns1
    requires ns1[c].listeners[h].Derived? ==> Confined(ns1, ns2, ns1[c].listeners[h].child)
    requires Confined(ns2, ns3, c)
    ensures Confined(ns1, ns3, c)
  {
    match ns1[c].listeners[h]
    case External(_) =>
    case Derived(g, _) =>
      assert ListenerLinked(ns1, mapperCount, c, h);
      assert g in CloseTargets(ns1[c].closeHandlers);
      ConfinedWiden(ns1, ns2, c, g);
    ConfinedTrans(ns1, ns2, ns3, c);
  }

  /** `log` extends `log0` by calls on `c` and on nodes created after it. */
  ghost predicate LogExtends<V>(log0: seq<Call<V>>, log: seq<Call<V>>, c: NodeId) {
    && |log0| <= |log| && log[..|log0|] == log0
    && forall k :: |log0| <= k < |log| ==> log[k].node >= c
  }

  lemma LogExtendsTrans<V>(log0: seq<Call<V>>, log1: seq<Call<V>>, log2: seq<Call<V>>, c: NodeId)
    requires LogExtends(log0, log1, c) && LogExtends(log1, log2, c)
    ensures LogExtends(log0, log2, c)
  {
    assert log2[..|log0|] == log2[..|log1|][..|log0|];
  }

  /** The calls one turn of the walk over derived node `c` adds to the log: only for a listener
      `h` present at its turn whose mapped old value `mo` differs from `mv`, first the call
      of `h` itself, then calls on nodes derived from `c`. */
  ghost predicate StepLogged<V>(log0: seq<Call<V>>, log: seq<Call<V>>, c: NodeId, h: Handle,
                                keys: set<Handle>, mo: MapOutcome<V>, mv: V) {
    && LogExtends(log0, log, c)
    && (h in keys && mo.Mapped? && mo.value != mv <==> log != log0)
    && (log != log0 ==>
          log[|log0|] == Call(c, h, mo.value, mv) && forall k :: |log0| < k < |log| ==> log[k].node > c)
  }

  /** The new calls on `c` carry (`mo`, `mv`) and handles from `done`, each handle at most once. */
  ghost predicate CallsOnce<V>(log0: seq<Call<V>>, log: seq<Call<V>>, c: NodeId, mo: V, mv: V, done: set<Handle>) {
    && (forall k :: |log0| <= k < |log| && log[k].node == c ==>
          log[k].handle in done && log[k].oldValue == mo && log[k].newValue == mv)
    && (forall k1, k2 :: |log0| <= k1 < k2 < |log| && log[k1].node == c && log[k2].node == c ==>
          log[k1].handle != log[k2].handle)
  }

  /** Every handle in `done` was called on `c` with (`mo`, `mv`), or is no longer a listener of `c`. */
  ghost predicate Covered<V>(ns: seq<Node<V>>, log0: seq<Call<V>>, log: seq<Call<V>>,
                             c: NodeId, mo: V, mv: V, done: set<Handle>) {
    && c < |ns| && |log0| <= |log|
    && forall h :: h in done ==> h !in ns[c].listeners || Call(c, h, mo, mv) in log[|log0|..]
  }

  /** What a call of the listener `map` installed did, the listener being `h` on node `n`
      (child `c`, mapper `f`), called with (`a`, `b`), from arena `ns0`, run log `runs0` and call
      log `log0` to `ns`, `runs` and `log`, with outcome `out`:
      - once `n` or `c` is closed it throws "not propagating" and changes nothing;
      - a change to an equal value does nothing;
      - when `f(b)` throws, that exception escapes and nothing changes, `c` staying open;
      - otherwise `c` holds `f(b)` and its listeners were walked as `FannedOut` says. */
  ghost predicate Relayed<V>(ns0: seq<Node<V>>, ns: seq<Node<V>>, runs0: seq<Run>, runs: seq<Run>,
                             log0: seq<Call<V>>, log: seq<Call<V>>,
                             react: (ObserverId, V, V) -> Option<Throwable>, mappers: seq<V -> MapOutcome<V>>,
                             n: NodeId, h: Handle, a: V, b: V, out: Outcome)
    requires n < |ns0| && h in ns0[n].listeners && ns0[n].listeners[h].Derived?
    requires ns0[n].listeners[h].child < |ns0| && ns0[n].listeners[h].mapper < |mappers|
  {
    var c, f := ns0[n].listeners[h].child, mappers[ns0[n].listeners[h].mapper];
    && (ns0[n].closeReason.Some? || ns0[c].closeReason.Some? ==>
          out == Threw(IllegalState(NotPropagatingMessage)) && Untouched(ns0, ns, runs0, runs, log0, log))
    && (ns0[n].closeReason.None? && ns0[c].closeReason.None? ==>
          && (a == b ==> out == Done && Untouched(ns0, ns, runs0, runs, log0, log))
          && (a != b && f(b).Raised? ==> out == Threw(f(b).cause) && Untouched(ns0, ns, runs0, runs, log0, log))
          && (a != b && f(b).Mapped? ==>
                && out == Done
                && |ns| == |ns0| && ns[c].value == f(b).value
                && FannedOut(ns0[c := ns0[c].(value := f(b).value)], ns, log0, log, react, mappers,
                             c, f(a), f(b).value, ns0[c].listeners.Keys)))
  }

  /** Listener `l`, called with (`mo`, `mv`) where `mo != mv`, throws whatever the state: an
      external listener whose reaction is an exception, or a `map` listener whose mapper throws
      on `mv` (it throws `NotPropagatingMessage` instead when either end is closed). */
  ghost predicate SureToThrow<V>(l: Listener, react: (ObserverId, V, V) -> Option<Throwable>,
                                 mappers: seq<V -> MapOutcome<V>>, mo: V, mv: V) {
    match l
    case External(o) => react(o, mo, mv).Some?
    case Derived(_, m) => m < |mappers| && mappers[m](mv).Raised?
  }

  /** Listener `l`, called with (`a`, `b`), neither throws nor meets a throwing mapper: an
      external listener whose reaction returns normally, or a `map` listener whose mapper
      maps both values. */
  ghost predicate CalmCall<V>(l: Listener, react: (ObserverId, V, V) -> Option<Throwable>,
                              mappers: seq<V -> MapOutcome<V>>, a: V, b: V) {
    match l
    case External(o) => react(o, a, b).None?
    case Derived(_, m) => m < |mappers| && mappers[m](a).Mapped? && mappers[m](b).Mapped?
  }

  /** Every call logged in `log` after `log0`, of a listener the arena `ns0` has, was calm. */
  ghost predicate Calm<V>(ns0: seq<Node<V>>, log0: seq<Call<V>>, log: seq<Call<V>>,
                          react: (ObserverId, V, V) -> Option<Throwable>, mappers: seq<V -> MapOutcome<V>>) {
    forall k :: |log0| <= k < |log| && log[k].node < |ns0| && log[k].handle in ns0[log[k].node].listeners ==>
      CalmCall(ns0[log[k].node].listeners[log[k].handle], react, mappers, log[k].oldValue, log[k].newValue)
  }

  lemma CalmPrefix<V>(ns0: seq<Node<V>>, log0: seq<Call<V>>, log1: seq<Call<V>>, log2: seq<Call<V>>,
                      react: (ObserverId, V, V) -> Option<Throwable>, mappers: seq<V -> MapOutcome<V>>)
    requires Calm(ns0, log0, log2, react, mappers) && |log1| <= |log2| && log2[..|log1|] == log1
    ensures Calm(ns0, log0, log1, react, mappers)
  {
    forall k | |log0| <= k < |log1|
      ensures log1[k] == log2[k]
    {
      assert log1[k] == log2[..|log1|][k];
    }
  }

  /** A call of `map` listener `h` of `n` with (`a`, `b`), logged after `log0` and relayed
      from arena `ns0` and log `log1` to `ns` and `log`, inside a calm stretch of an arena at
      rest: it returned normally, changed values at most, and reached `h` and what lies
      below it. */
  lemma RelayReached<V>(ns0: seq<Node<V>>, ns: seq<Node<V>>, log0: seq<Call<V>>, log1: seq<Call<V>>, log: seq<Call<V>>,
                        react: (ObserverId, V, V) -> Option<Throwable>, mappers: seq<V -> MapOutcome<V>>,
                        n: NodeId, h: Handle, a: V, b: V, out: Outcome)
    requires WellFormed(ns, |mappers|) && n < |ns0| && h in ns0[n].listeners && ns0[n].listeners[h].Derived?
    requires log1 == log0 + [Call(n, h, a, b)] && |log1| <= |log| && log[..|log1|] == log1
    requires AtRest(ns0) && CalmCall(ns0[n].listeners[h], react, mappers, a, b) && Calm(ns0, log1, log, react, mappers) ==>
               out == Done && OnlyValues(ns0, ns)
    requires AtRest(ns0) && CalmCall(ns0[n].listeners[h], react, mappers, a, b) &&
             Calm(ns0, log1, log, react, mappers) && a != b ==>
               Below(ns, log1, log, mappers, n, ns0[n].listeners[h], a, b)
    ensures AtRest(ns0) && Calm(ns0, log0, log, react, mappers) ==> out == Done && OnlyValues(ns0, ns)
    ensures AtRest(ns0) && Calm(ns0, log0, log, react, mappers) && a != b ==> Reached(ns, log0, log, mappers, n, h, a, b)
  {
    if AtRest(ns0) && Calm(ns0, log0, log, react, mappers) {
      assert log[|log0|] == log1[|log0|];
      assert CalmCall(ns0[n].listeners[h], react, mappers, a, b);
      OnlyValuesRefl(ns0);
      CalmSuffix(ns0, ns0, log0, log1, log, react, mappers);
      if a != b {
        OnlyValuesRefl(ns);
        assert ns[n] == ns0[n].(value := ns[n].value);
        BelowMono(ns, ns, log1, log, log0, log, mappers, n, ns0[n].listeners[h], a, b);
        assert log[|log0|..][0] == log[|log0|];
      }
    }
  }

  /** A calm call of `map` listener `h` of node `n` (arena `ns0`) that stored the mapped
      value in the derived node (arena `mid`) and propagated from there with calm nested
      calls (log `log0` to `log`) changed values at most. */
  lemma CalmDelivery<V>(ns0: seq<Node<V>>, mid: seq<Node<V>>, ns: seq<Node<V>>, log0: seq<Call<V>>, log: seq<Call<V>>,
                        react: (ObserverId, V, V) -> Option<Throwable>, mappers: seq<V -> MapOutcome<V>>,
                        n: NodeId, h: Handle, a: V, b: V)
    requires n < |ns0| && h in ns0[n].listeners && ns0[n].listeners[h].Derived?
    requires ns0[n].listeners[h].child < |ns0| && ns0[n].listeners[h].mapper < |mappers|
    requires mappers[ns0[n].listeners[h].mapper](b).Mapped?
    requires mid == ns0[ns0[n].listeners[h].child := ns0[ns0[n].listeners[h].child].(
                          value := mappers[ns0[n].listeners[h].mapper](b).value)]
    requires AtRest(mid) && mappers[ns0[n].listeners[h].mapper](a).Mapped? && Calm(mid, log0, log, react, mappers) ==>
               OnlyValues(mid, ns)
    requires n < ns0[n].listeners[h].child && |log0| <= |log| && |ns| == |ns0|
    requires ns[ns0[n].listeners[h].child].value == mappers[ns0[n].listeners[h].mapper](b).value
    requires var g, f := ns0[n].listeners[h].child, mappers[ns0[n].listeners[h].mapper];
             AtRest(mid) && f(a).Mapped? && f(a).value != f(b).value && Calm(mid, log0, log, react, mappers) ==>
               forall x :: x in mid[g].listeners.Keys ==> Reached(ns, log0, log, mappers, g, x, f(a).value, f(b).value)
    ensures AtRest(ns0) && CalmCall(ns0[n].listeners[h], react, mappers, a, b) && Calm(ns0, log0, log, react, mappers) ==>
              OnlyValues(ns0, ns)
    ensures AtRest(ns0) && CalmCall(ns0[n].listeners[h], react, mappers, a, b) && Calm(ns0, log0, log, react, mappers) &&
            a != b ==>
              Below(ns, log0, log, mappers, n, ns0[n].listeners[h], a, b)
  {
    if AtRest(ns0) && CalmCall(ns0[n].listeners[h], react, mappers, a, b) && Calm(ns0, log0, log, react, mappers) {
      assert OnlyValues(ns0, mid) by {
        forall k | 0 <= k < |ns0|
          ensures mid[k] == ns0[k].(value := mid[k].value)
        {
        }
      }
      AtRestValues(ns0, mid);
      CalmSuffix(ns0, mid, log0, log0, log, react, mappers);
      OnlyValuesTrans(ns0, mid, ns);
      var g := ns0[n].listeners[h].child;
      assert ns[g] == mid[g].(value := ns[g].value);
    }
  }

  /** A later part of a calm log is calm for an arena with the same listeners. */
  lemma CalmSuffix<V>(ns0: seq<Node<V>>, ns1: seq<Node<V>>, log0: seq<Call<V>>, log1: seq<Call<V>>, log: seq<Call<V>>,
                      react: (ObserverId, V, V) -> Option<Throwable>, mappers: seq<V -> MapOutcome<V>>)
    requires Calm(ns0, log0, log, react, mappers) && OnlyValues(ns0, ns1) && |log0| <= |log1|
    ensures Calm(ns1, log1, log, react, mappers)
  {
    forall k | |log1| <= k < |log| && log[k].node < |ns1|
      ensures ns1[log[k].node].listeners == ns0[log[k].node].listeners
    {
      assert ns1[log[k].node] == ns0[log[k].node].(value := ns1[log[k].node].value);
    }
  }

  /** Two calm stretches of a walk make a calm walk, which changes values at most. */
  lemma CalmStep<V>(ns0: seq<Node<V>>, ns1: seq<Node<V>>, ns2: seq<Node<V>>,
                    log0: seq<Call<V>>, log1: seq<Call<V>>, log2: seq<Call<V>>,
                    react: (ObserverId, V, V) -> Option<Throwable>, mappers: seq<V -> MapOutcome<V>>,
                    c: NodeId, mo: MapOutcome<V>)
    requires LogExtends(log0, log1, c) && LogExtends(log1, log2, c)
    requires AtRest(ns0) && mo.Mapped? && Calm(ns0, log0, log1, react, mappers) ==> OnlyValues(ns0, ns1)
    requires AtRest(ns1) && mo.Mapped? && Calm(ns1, log1, log2, react, mappers) ==> OnlyValues(ns1, ns2)
    ensures AtRest(ns0) && mo.Mapped? && Calm(ns0, log0, log2, react, mappers) ==> OnlyValues(ns0, ns2)
  {
    if AtRest(ns0) && mo.Mapped? && Calm(ns0, log0, log2, react, mappers) {
      assert log2[..|log1|] == log1 by {
        assert log2[..|log0|] == log0;
      }
      CalmPrefix(ns0, log0, log1, log2, react, mappers);
      AtRestValues(ns0, ns1);
      CalmSuffix(ns0, ns1, log0, log1, log2, react, mappers);
      OnlyValuesTrans(ns0, ns1, ns2);
    }
  }

  /** If `l` is a `map` listener whose mapper maps `mv`, its derived node in `ns` holds the
      mapped value. */
  ghost predicate FedChild<V>(ns: seq<Node<V>>, l: Listener, mappers: seq<V -> MapOutcome<V>>, mv: V) {
    l.Derived? && l.mapper < |mappers| && mappers[l.mapper](mv).Mapped? ==>
      l.child < |ns| && ns[l.child].value == mappers[l.mapper](mv).value
  }

  /** In an arena `ns0` at rest, every `map` listener of `c` in `done` that was called with
      (`mo`, `mv`) has left its derived node holding what its mapper makes of `mv`. */
  ghost predicate ChildrenFed<V>(ns0: seq<Node<V>>, ns: seq<Node<V>>, log0: seq<Call<V>>, log: seq<Call<V>>,
                                 mappers: seq<V -> MapOutcome<V>>, c: NodeId, mo: V, mv: V, done: set<Handle>) {
    && c < |ns0| && done <= ns0[c].listeners.Keys && |log0| <= |log|
    && (AtRest(ns0) ==>
          forall x :: x in done && Call(c, x, mo, mv) in log[|log0|..] ==> FedChild(ns, ns0[c].listeners[x], mappers, mv))
  }

  /** A change of node `c` from `mo` to `mv` has spread through the arena `ns`, with the
      calls logged in `log` after `log0`: unless the two values are equal, every listener of
      `c` was reached. */
  ghost predicate Spread<V>(ns: seq<Node<V>>, log0: seq<Call<V>>, log: seq<Call<V>>,
                            mappers: seq<V -> MapOutcome<V>>, c: NodeId, mo: V, mv: V)
    decreases |ns| - c, 2
  {
    && c < |ns| && |log0| <= |log|
    && (mo != mv ==> forall x :: x in ns[c].listeners ==> Reached(ns, log0, log, mappers, c, x, mo, mv))
  }

  /** Listener `x` of `c` was called with (`mo`, `mv`) and, if it is a `map` listener, the
      change has spread below it. */
  ghost predicate Reached<V>(ns: seq<Node<V>>, log0: seq<Call<V>>, log: seq<Call<V>>,
                             mappers: seq<V -> MapOutcome<V>>, c: NodeId, x: Handle, mo: V, mv: V)
    decreases |ns| - c, 1
  {
    && c < |ns| && x in ns[c].listeners && |log0| <= |log|
    && Call(c, x, mo, mv) in log[|log0|..]
    && Below(ns, log0, log, mappers, c, ns[c].listeners[x], mo, mv)
  }

  /** If `l`, a listener of `c`, is a `map` listener whose mapper maps `mo` and `mv`, its
      derived node holds the mapped `mv` and the change from the mapped `mo` to it has spread
      from there. */
  ghost predicate Below<V>(ns: seq<Node<V>>, log0: seq<Call<V>>, log: seq<Call<V>>,
                           mappers: seq<V -> MapOutcome<V>>, c: NodeId, l: Listener, mo: V, mv: V)
    decreases |ns| - c, 0
  {
    l.Derived? && c < l.child < |ns| && l.mapper < |mappers| &&
    mappers[l.mapper](mo).Mapped? && mappers[l.mapper](mv).Mapped? ==>
      && ns[l.child].value == mappers[l.mapper](mv).value
      && Spread(ns, log0, log, mappers, l.child, mappers[l.mapper](mo).value, mappers[l.mapper](mv).value)
  }

  /** In an arena `ns0` at rest, a closed `c` was closed by a listener in `done`, called with
      (`mo`, `mv`), that is sure to throw. */
  ghost predicate ClosedByThrower<V>(ns0: seq<Node<V>>, ns: seq<Node<V>>, log0: seq<Call<V>>, log: seq<Call<V>>,
                                     react: (ObserverId, V, V) -> Option<Throwable>, mappers: seq<V -> MapOutcome<V>>,
                                     c: NodeId, mo: V, mv: V, done: set<Handle>) {
    && c < |ns0| && c < |ns| && done <= ns0[c].listeners.Keys && |log0| <= |log|
    && (AtRest(ns0) && ns[c].closeReason.Some? ==>
          exists x :: x in done && Call(c, x, mo, mv) in log[|log0|..] &&
                      SureToThrow(ns0[c].listeners[x], react, mappers, mo, mv))
  }

  /** What one turn of the walk over `c` for handle `h` did to node values, from arena `ns1`
      and call log `log1` to `ns2` and `log2`: in an arena at rest, a turn whose calls were all
      calm changed values at most; only nodes reached from the derived node of a `map` listener
      `h` changed value; and a called `map` listener left its derived node holding the mapped
      value. */
  ghost predicate Delivered<V>(ns1: seq<Node<V>>, ns2: seq<Node<V>>, log1: seq<Call<V>>, log2: seq<Call<V>>,
                               react: (ObserverId, V, V) -> Option<Throwable>, mappers: seq<V -> MapOutcome<V>>,
                               c: NodeId, h: Handle, mo: MapOutcome<V>, mv: V) {
    && c < |ns1| && |ns2| == |ns1|
    && (AtRest(ns1) && mo.Mapped? && Calm(ns1, log1, log2, react, mappers) ==> OnlyValues(ns1, ns2))
    && (forall k :: 0 <= k < |ns1| && ns2[k].value != ns1[k].value ==>
          h in ns1[c].listeners && ns1[c].listeners[h].Derived? && Cascades(ns1, ns1[c].listeners[h].child, k))
    && (AtRest(ns1) && h in ns1[c].listeners && mo.Mapped? && mo.value != mv ==>
          FedChild(ns2, ns1[c].listeners[h], mappers, mv))
    && (AtRest(ns1) && h in ns1[c].listeners && mo.Mapped? && mo.value != mv && Calm(ns1, log1, log2, react, mappers) ==>
          Reached(ns2, log1, log2, mappers, c, h, mo.value, mv))
  }

  /** A turn of the walk that called listener `h` of `c` with (`mo`, `mv`) (arena `ns1` to
      `ns2`), getting `out`, and closed `c` if that threw (`ns2` to `ns3`), is `Delivered`. */
  lemma CallDelivered<V>(ns1: seq<Node<V>>, ns2: seq<Node<V>>, ns3: seq<Node<V>>,
                         log1: seq<Call<V>>, log2: seq<Call<V>>,
                         react: (ObserverId, V, V) -> Option<Throwable>, mappers: seq<V -> MapOutcome<V>>,
                         c: NodeId, h: Handle, mo: V, mv: V, out: Outcome)
    requires WellFormed(ns1, |mappers|) && c < |ns1| && h in ns1[c].listeners && mo != mv
    requires |ns2| == |ns1| && |ns3| == |ns1|
    requires AtRest(ns1) && Calm(ns1, log1, log2, react, mappers) ==> out == Done && OnlyValues(ns1, ns2)
    requires AtRest(ns1) && Calm(ns1, log1, log2, react, mappers) ==> Reached(ns2, log1, log2, mappers, c, h, mo, mv)
    requires ns1[c].listeners[h].External? ==> ns2 == ns1
    requires ns1[c].listeners[h].Derived? ==> Confined(ns1, ns2, ns1[c].listeners[h].child)
    requires ns1[c].listeners[h].Derived? ==>
               var g, f := ns1[c].listeners[h].child, mappers[ns1[c].listeners[h].mapper];
               ns1[c].closeReason.None? && ns1[g].closeReason.None? && f(mv).Mapped? ==> ns2[g].value == f(mv).value
    requires forall k :: 0 <= k < |ns2| ==> ns3[k].value == ns2[k].value
    requires !out.Threw? ==> ns3 == ns2
    ensures Delivered(ns1, ns3, log1, log2, react, mappers, c, h, Mapped(mo), mv)
  {
    if AtRest(ns1) && ns1[c].listeners[h].Derived? {
      LiveEdge(ns1, |mappers|, c, h);
    }
  }

  /** Every listener of `c` in `done` that was called and is sure to throw has left `c` closed. */
  ghost predicate ThrowersClosed<V>(ns0: seq<Node<V>>, ns: seq<Node<V>>, log0: seq<Call<V>>, log: seq<Call<V>>,
                                    react: (ObserverId, V, V) -> Option<Throwable>, mappers: seq<V -> MapOutcome<V>>,
                                    c: NodeId, mo: V, mv: V, done: set<Handle>) {
    && c < |ns0| && c < |ns| && done <= ns0[c].listeners.Keys && |log0| <= |log|
    && forall h ::
         (&& h in done && Call(c, h, mo, mv) in log[|log0|..]
          && SureToThrow(ns0[c].listeners[h], react, mappers, mo, mv))
         ==> ns[c].closeReason.Some?
  }

  /** If `c` is closed, it was closed because a listener threw, after one of its listeners was called. */
  ghost predicate ClosedAfterCall<V>(ns: seq<Node<V>>, log0: seq<Call<V>>, log: seq<Call<V>>, c: NodeId) {
    && c < |ns|
    && (ns[c].closeReason.Some? ==>
          && ns[c].closeReason.value.explanation == MapperThrewExplanation
          && exists k :: |log0| <= k < |log| && log[k].node == c)
  }

  /** The walk over the listeners of derived node `c` has handled the handles in `done`, which
      were all present in `ns0` (where `c` is open), between the arena `ns0` and call log `log0`
      and the arena `ns` and log `log`; `mo` is the mapper's outcome on the old source value
      and `mv` the new mapped value.
      - if nothing was visited yet, or `mo` is `mv`, nothing changed;
      - if the mapper throws on the old value, `c` was closed on the first turn with that
        exception and no listener was called;
      - otherwise each listener of `c` was called at most once, with (`mo`, `mv`); each visited
        listener was called or is gone from `c`; a listener sure to throw has closed `c`; a
        closed `c` was closed after one of its listeners was called, because it threw; and,
        in an arena at rest, `c` is closed only if a called listener is sure to throw, and a
        called `map` listener left its derived node holding the mapped value;
      - in an arena at rest, a walk whose calls were all calm changed values at most, so every
        listener present at the start was called.
      All other calls are on nodes derived from `c`. */
  ghost predicate FannedOut<V>(ns0: seq<Node<V>>, ns: seq<Node<V>>, log0: seq<Call<V>>, log: seq<Call<V>>,
                               react: (ObserverId, V, V) -> Option<Throwable>, mappers: seq<V -> MapOutcome<V>>,
                               c: NodeId, mo: MapOutcome<V>, mv: V, done: set<Handle>) {
    && c < |ns0| && c < |ns|
    && done <= ns0[c].listeners.Keys
    && LogExtends(log0, log, c)
    && (done == {} || mo == Mapped(mv) ==> ns == ns0 && log == log0)
    && (mo.Raised? && done != {} ==> ns[c].closeReason == Some(MapperThrewReason(mo.cause)) && log == log0)
    && (AtRest(ns0) && mo.Mapped? && Calm(ns0, log0, log, react, mappers) ==> OnlyValues(ns0, ns))
    && (AtRest(ns0) && mo.Mapped? && mo.value != mv && Calm(ns0, log0, log, react, mappers) ==>
          forall x :: x in done ==> Reached(ns, log0, log, mappers, c, x, mo.value, mv))
    && (mo.Mapped? && mo.value != mv ==>
          && CallsOnce(log0, log, c, mo.value, mv, done)
          && Covered(ns, log0, log, c, mo.value, mv, done)
          && ThrowersClosed(ns0, ns, log0, log, react, mappers, c, mo.value, mv, done)
          && ClosedAfterCall(ns, log0, log, c)
          && ClosedByThrower(ns0, ns, log0, log, react, mappers, c, mo.value, mv, done)
          && ChildrenFed(ns0, ns, log0, log, mappers, c, mo.value, mv, done))
  }

  lemma CallsOnceStep<V>(log0: seq<Call<V>>, log1: seq<Call<V>>, log2: seq<Call<V>>, c: NodeId, h: Handle,
                         keys: set<Handle>, mo: V, mv: V, done: set<Handle>)
    requires LogExtends(log0, log1, c) && CallsOnce(log0, log1, c, mo, mv, done) && h !in done
    requires StepLogged(log1, log2, c, h, keys, Mapped(mo), mv)
    ensures CallsOnce(log0, log2, c, mo, mv, done + {h})
  {
    forall k | |log0| <= k < |log2| && log2[k].node == c
      ensures log2[k].handle in done + {h} && log2[k].oldValue == mo && log2[k].newValue == mv
    {
      if k < |log1| {
        assert log2[k] == log1[k];
      }
    }
    forall k1, k2 | |log0| <= k1 < k2 < |log2| && log2[k1].node == c && log2[k2].node == c
      ensures log2[k1].handle != log2[k2].handle
    {
      assert log2[k1] == log1[k1];
      if k2 < |log1| {
        assert log2[k2] == log1[k2];
      }
    }
  }

  lemma CoveredStep<V>(ns1: seq<Node<V>>, ns2: seq<Node<V>>, log0: seq<Call<V>>, log1: seq<Call<V>>,
                       log2: seq<Call<V>>, c: NodeId, h: Handle, mo: V, mv: V, done: set<Handle>)
    requires LogExtends(log0, log1, c) && Covered(ns1, log0, log1, c, mo, mv, done)
    requires c < |ns2| && NodeEvolves(ns1[c], ns2[c])
    requires StepLogged(log1, log2, c, h, ns1[c].listeners.Keys, Mapped(mo), mv) && mo != mv
    ensures Covered(ns2, log0, log2, c, mo, mv, done + {h})
  {
    forall x | x in done + {h}
      ensures x !in ns2[c].listeners || Call(c, x, mo, mv) in log2[|log0|..]
    {
      if x in done && x in ns1[c].listeners {
        var k :| |log0| <= k < |log1| && log1[k] == Call(c, x, mo, mv);
        assert log2[k] == log1[k];
        assert log2[|log0|..][k - |log0|] == log2[k];
      } else if x == h && log2 != log1 {
        assert log2[|log0|..][|log1| - |log0|] == log2[|log1|];
      }
    }
  }

  lemma ThrowersClosedStep<V>(ns0: seq<Node<V>>, ns1: seq<Node<V>>, ns2: seq<Node<V>>,
                              log0: seq<Call<V>>, log1: seq<Call<V>>, log2: seq<Call<V>>,
                              react: (ObserverId, V, V) -> Option<Throwable>, mappers: seq<V -> MapOutcome<V>>,
                              c: NodeId, h: Handle, mo: V, mv: V, done: set<Handle>)
    requires ThrowersClosed(ns0, ns1, log0, log1, react, mappers, c, mo, mv, done) && h in ns0[c].listeners
    requires LogExtends(log0, log1, c) && CallsOnce(log0, log1, c, mo, mv, done)
    requires c < |ns2| && NodeEvolves(ns0[c], ns1[c]) && NodeEvolves(ns1[c], ns2[c])
    requires StepLogged(log1, log2, c, h, ns1[c].listeners.Keys, Mapped(mo), mv)
    requires (h in ns1[c].listeners && mo != mv && SureToThrow(ns1[c].listeners[h], react, mappers, mo, mv))
             ==> ns2[c].closeReason.Some?
    ensures ThrowersClosed(ns0, ns2, log0, log2, react, mappers, c, mo, mv, done + {h})
  {
    forall x | (&& x in done + {h} && Call(c, x, mo, mv) in log2[|log0|..]
                && SureToThrow(ns0[c].listeners[x], react, mappers, mo, mv))
      ensures ns2[c].closeReason.Some?
    {
      var k :| |log0| <= k < |log2| && log2[k] == Call(c, x, mo, mv);
      if k < |log1| {
        assert log1[k] == log2[k];
        assert log1[|log0|..][k - |log0|] == log1[k];
      } else {
        assert k == |log1| && x == h;
      }
    }
  }

  lemma ClosedAfterCallStep<V>(ns1: seq<Node<V>>, ns2: seq<Node<V>>, log0: seq<Call<V>>, log1: seq<Call<V>>,
                               log2: seq<Call<V>>, c: NodeId, h: Handle, keys: set<Handle>, mo: V, mv: V)
    requires LogExtends(log0, log1, c) && ClosedAfterCall(ns1, log0, log1, c)
    requires c < |ns2| && NodeEvolves(ns1[c], ns2[c])
    requires StepLogged(log1, log2, c, h, keys, Mapped(mo), mv)
    requires ns2[c].closeReason != ns1[c].closeReason ==>
               && ns1[c].closeReason.None? && ns2[c].closeReason.value.explanation == MapperThrewExplanation
               && log2 != log1
    ensures ClosedAfterCall(ns2, log0, log2, c)
  {
    if ns2[c].closeReason.Some? {
      if ns1[c].closeReason.Some? {
        var k :| |log0| <= k < |log1| && log1[k].node == c;
        assert log2[k] == log1[k];
      } else {
        assert log2[|log1|].node == c;
      }
    }
  }

  /** One turn of the walk extends `FannedOut` by the visited handle. */
  lemma FanOutStep<V>(ns0: seq<Node<V>>, ns1: seq<Node<V>>, ns2: seq<Node<V>>,
                      runs0: seq<Run>, runs1: seq<Run>, runs2: seq<Run>,
                      log0: seq<Call<V>>, log1: seq<Call<V>>, log2: seq<Call<V>>,
                      react: (ObserverId, V, V) -> Option<Throwable>, mappers: seq<V -> MapOutcome<V>>,
                      c: NodeId, mo: MapOutcome<V>, mv: V, done: set<Handle>, h: Handle)
    requires WellFormed(ns0, |mappers|)
    requires FannedOut(ns0, ns1, log0, log1, react, mappers, c, mo, mv, done)
    requires ns0[c].closeReason.None? && h in ns0[c].listeners && h !in done
    requires Settled(ns0, ns1, runs0, runs1, c + 1, c) && Evolves(ns1, ns2)
    requires Visited(ns1, ns2, runs1, runs2, log1, log2, react, mappers, c, h, mo, mv)
    requires Delivered(ns1, ns2, log1, log2, react, mappers, c, h, mo, mv)
    ensures FannedOut(ns0, ns2, log0, log2, react, mappers, c, mo, mv, done + {h})
  {
    assert NodeEvolves(ns0[c], ns1[c]) && NodeEvolves(ns1[c], ns2[c]);
    LogExtendsTrans(log0, log1, log2, c);
    AtRestKept(ns0, ns1, |mappers|);
    CalmStep(ns0, ns1, ns2, log0, log1, log2, react, mappers, c, mo);
    if mo.Mapped? && mo.value != mv {
      CallsOnceStep(log0, log1, log2, c, h, ns1[c].listeners.Keys, mo.value, mv, done);
      CoveredStep(ns1, ns2, log0, log1, log2, c, h, mo.value, mv, done);
      ThrowersClosedStep(ns0, ns1, ns2, log0, log1, log2, react, mappers, c, h, mo.value, mv, done);
      ClosedAfterCallStep(ns1, ns2, log0, log1, log2, c, h, ns1[c].listeners.Keys, mo.value, mv);
      ClosedByThrowerStep(ns0, ns1, ns2, log0, log1, log2, react, mappers, c, h, mo.value, mv, done);
      ChildrenFedStep(ns0, ns1, ns2, log0, log1, log2, react, mappers, c, h, mo.value, mv, done);
      ReachedStep(ns0, ns1, ns2, log0, log1, log2, react, mappers, c, h, mo.value, mv, done);
    }
  }

  /** One turn of the walk extends `ClosedByThrower` by the visited handle. */
  lemma ClosedByThrowerStep<V>(ns0: seq<Node<V>>, ns1: seq<Node<V>>, ns2: seq<Node<V>>,
                               log0: seq<Call<V>>, log1: seq<Call<V>>, log2: seq<Call<V>>,
                               react: (ObserverId, V, V) -> Option<Throwable>, mappers: seq<V -> MapOutcome<V>>,
                               c: NodeId, h: Handle, mo: V, mv: V, done: set<Handle>)
    requires ClosedByThrower(ns0, ns1, log0, log1, react, mappers, c, mo, mv, done) && h in ns0[c].listeners
    requires AtRest(ns0) ==> AtRest(ns1)
    requires LogExtends(log0, log1, c) && c < |ns2| && NodeEvolves(ns0[c], ns1[c]) && NodeEvolves(ns1[c], ns2[c])
    requires StepLogged(log1, log2, c, h, ns1[c].listeners.Keys, Mapped(mo), mv)
    requires AtRest(ns1) && ns2[c].closeReason != ns1[c].closeReason ==>
               h in ns1[c].listeners && SureToThrow(ns1[c].listeners[h], react, mappers, mo, mv)
    requires ns2[c].closeReason != ns1[c].closeReason ==> log2 != log1
    ensures ClosedByThrower(ns0, ns2, log0, log2, react, mappers, c, mo, mv, done + {h})
  {
    if AtRest(ns0) && ns2[c].closeReason.Some? {
      if ns1[c].closeReason.Some? {
        var x :| x in done && Call(c, x, mo, mv) in log1[|log0|..] && SureToThrow(ns0[c].listeners[x], react, mappers, mo, mv);
        var k :| |log0| <= k < |log1| && log1[k] == Call(c, x, mo, mv);
        assert log2[k] == log1[k];
        assert log2[|log0|..][k - |log0|] == log2[k];
      } else {
        assert log2[|log0|..][|log1| - |log0|] == log2[|log1|];
      }
    }
  }

  /** A turn for handle `h` leaves alone the node derived through another `map` listener `x`
      of the same node. */
  lemma FedKept<V>(ns0: seq<Node<V>>, ns1: seq<Node<V>>, ns2: seq<Node<V>>, log1: seq<Call<V>>, log2: seq<Call<V>>,
                   react: (ObserverId, V, V) -> Option<Throwable>, mappers: seq<V -> MapOutcome<V>>,
                   c: NodeId, x: Handle, h: Handle, mo: MapOutcome<V>, mv: V)
    requires WellFormed(ns0, |mappers|) && Evolves(ns0, ns1) && c < |ns0|
    requires x in ns0[c].listeners && h in ns0[c].listeners && x != h
    requires FedChild(ns1, ns0[c].listeners[x], mappers, mv)
    requires Delivered(ns1, ns2, log1, log2, react, mappers, c, h, mo, mv)
    ensures FedChild(ns2, ns0[c].listeners[x], mappers, mv)
  {
    assert NodeEvolves(ns0[c], ns1[c]);
    if ns0[c].listeners[x].Derived? && h in ns1[c].listeners && ns1[c].listeners[h].Derived? {
      SiblingsApart(ns0, |mappers|, c, x, h);
      CascadesBack(ns0, ns1, ns1[c].listeners[h].child, ns0[c].listeners[x].child);
    }
  }

  /** One turn of the walk extends `ChildrenFed` by the visited handle. */
  lemma ChildrenFedStep<V>(ns0: seq<Node<V>>, ns1: seq<Node<V>>, ns2: seq<Node<V>>,
                           log0: seq<Call<V>>, log1: seq<Call<V>>, log2: seq<Call<V>>,
                           react: (ObserverId, V, V) -> Option<Throwable>, mappers: seq<V -> MapOutcome<V>>,
                           c: NodeId, h: Handle, mo: V, mv: V, done: set<Handle>)
    requires WellFormed(ns0, |mappers|) && Evolves(ns0, ns1) && (AtRest(ns0) ==> AtRest(ns1))
    requires ChildrenFed(ns0, ns1, log0, log1, mappers, c, mo, mv, done) && h in ns0[c].listeners && h !in done
    requires LogExtends(log0, log1, c) && CallsOnce(log0, log1, c, mo, mv, done)
    requires StepLogged(log1, log2, c, h, ns1[c].listeners.Keys, Mapped(mo), mv) && mo != mv
    requires Delivered(ns1, ns2, log1, log2, react, mappers, c, h, Mapped(mo), mv)
    ensures ChildrenFed(ns0, ns2, log0, log2, mappers, c, mo, mv, done + {h})
  {
    if AtRest(ns0) {
      assert NodeEvolves(ns0[c], ns1[c]);
      forall x | x in done + {h} && Call(c, x, mo, mv) in log2[|log0|..]
        ensures FedChild(ns2, ns0[c].listeners[x], mappers, mv)
      {
        var k :| |log0| <= k < |log2| && log2[k] == Call(c, x, mo, mv);
        if k < |log1| {
          assert log1[k] == log2[k];
          assert log1[|log0|..][k - |log0|] == log1[k];
          FedKept(ns0, ns1, ns2, log1, log2, react, mappers, c, x, h, Mapped(mo), mv);
        } else {
          assert k == |log1| && x == h;
        }
      }
    }
  }

  /** The values of `ns'` agree with those of `ns` on every node reached from `g`. */
  ghost predicate KeptBelow<V>(ns: seq<Node<V>>, ns': seq<Node<V>>, g: nat) {
    && |ns'| == |ns|
    && forall k :: 0 <= k < |ns| && Cascades(ns, g, k) ==> ns'[k].value == ns[k].value
  }

  lemma KeptBelowChild<V>(ns: seq<Node<V>>, ns': seq<Node<V>>, mapperCount: nat, c: NodeId, x: Handle)
    requires WellFormed(ns, mapperCount) && c < |ns| && x in ns[c].listeners && ns[c].listeners[x].Derived?
    requires KeptBelow(ns, ns', c)
    ensures KeptBelow(ns, ns', ns[c].listeners[x].child)
  {
    var g := ns[c].listeners[x].child;
    assert ListenerLinked(ns, mapperCount, c, x);
    forall k | 0 <= k < |ns| && Cascades(ns, g, k)
      ensures ns'[k].value == ns[k].value
    {
      CascadesExtend(ns, c, g, k);
    }
  }

  /** A call logged in an inner stretch of a log is logged in every wider stretch. */
  lemma SegmentWidens<V>(log0: seq<Call<V>>, log: seq<Call<V>>, log0': seq<Call<V>>, log': seq<Call<V>>, e: Call<V>)
    requires |log0'| <= |log0| <= |log| <= |log'| && log'[..|log|] == log
    ensures e in log[|log0|..] ==> e in log'[|log0'|..]
  {
    if e in log[|log0|..] {
      var i :| 0 <= i < |log[|log0|..]| && log[|log0|..][i] == e;
      var k := |log0| + i;
      assert log[k] == e;
      assert log'[k] == log'[..|log|][k];
      assert log'[|log0'|..][k - |log0'|] == log'[k];
    }
  }

  /** `Spread` survives changes of values away from what the change reached, and a wider log. */
  lemma SpreadMono<V>(ns: seq<Node<V>>, ns': seq<Node<V>>, log0: seq<Call<V>>, log: seq<Call<V>>,
                      log0': seq<Call<V>>, log': seq<Call<V>>, mappers: seq<V -> MapOutcome<V>>,
                      c: NodeId, mo: V, mv: V)
    requires WellFormed(ns, |mappers|) && OnlyValues(ns, ns') && c < |ns| && KeptBelow(ns, ns', c)
    requires |log0'| <= |log0| <= |log| <= |log'| && log'[..|log|] == log
    ensures Spread(ns, log0, log, mappers, c, mo, mv) ==> Spread(ns', log0', log', mappers, c, mo, mv)
    decreases |ns| - c, 2
  {
    if Spread(ns, log0, log, mappers, c, mo, mv) && mo != mv {
      assert ns'[c] == ns[c].(value := ns'[c].value);
      forall x | x in ns'[c].listeners
        ensures Reached(ns', log0', log', mappers, c, x, mo, mv)
      {
        if ns[c].listeners[x].Derived? {
          KeptBelowChild(ns, ns', |mappers|, c, x);
        }
        ReachedMono(ns, ns', log0, log, log0', log', mappers, c, x, mo, mv);
      }
    }
  }

  lemma ReachedMono<V>(ns: seq<Node<V>>, ns': seq<Node<V>>, log0: seq<Call<V>>, log: seq<Call<V>>,
                       log0': seq<Call<V>>, log': seq<Call<V>>, mappers: seq<V -> MapOutcome<V>>,
                       c: NodeId, x: Handle, mo: V, mv: V)
    requires WellFormed(ns, |mappers|) && OnlyValues(ns, ns') && c < |ns| && x in ns[c].listeners
    requires ns[c].listeners[x].Derived? ==> KeptBelow(ns, ns', ns[c].listeners[x].child)
    requires |log0'| <= |log0| <= |log| <= |log'| && log'[..|log|] == log
    ensures Reached(ns, log0, log, mappers, c, x, mo, mv) ==> Reached(ns', log0', log', mappers, c, x, mo, mv)
    decreases |ns| - c, 1
  {
    if Reached(ns, log0, log, mappers, c, x, mo, mv) {
      assert ns'[c] == ns[c].(value := ns'[c].value);
      SegmentWidens(log0, log, log0', log', Call(c, x, mo, mv));
      BelowMono(ns, ns', log0, log, log0', log', mappers, c, ns[c].listeners[x], mo, mv);
    }
  }

  lemma BelowMono<V>(ns: seq<Node<V>>, ns': seq<Node<V>>, log0: seq<Call<V>>, log: seq<Call<V>>,
                     log0': seq<Call<V>>, log': seq<Call<V>>, mappers: seq<V -> MapOutcome<V>>,
                     c: NodeId, l: Listener, mo: V, mv: V)
    requires WellFormed(ns, |mappers|) && OnlyValues(ns, ns') && c < |ns|
    requires l.Derived? ==> KeptBelow(ns, ns', l.child)
    requires |log0'| <= |log0| <= |log| <= |log'| && log'[..|log|] == log
    ensures Below(ns, log0, log, mappers, c, l, mo, mv) ==> Below(ns', log0', log', mappers, c, l, mo, mv)
    decreases |ns| - c, 0
  {
    if && l.Derived? && c < l.child < |ns| && l.mapper < |mappers|
       && mappers[l.mapper](mo).Mapped? && mappers[l.mapper](mv).Mapped?
       && Below(ns, log0, log, mappers, c, l, mo, mv)
    {
      CascadesRefl(ns, l.child);
      SpreadMono(ns, ns', log0, log, log0', log', mappers, l.child,
                 mappers[l.mapper](mo).value, mappers[l.mapper](mv).value);
    }
  }

  /** One turn of the walk over `c` extends the spread of the change by the visited handle
      `h`: the turn reached `h`, and it left alone what the earlier turns reached, which lies
      below other listeners of `c`. */
  lemma ReachedStep<V>(ns0: seq<Node<V>>, ns1: seq<Node<V>>, ns2: seq<Node<V>>,
                       log0: seq<Call<V>>, log1: seq<Call<V>>, log2: seq<Call<V>>,
                       react: (ObserverId, V, V) -> Option<Throwable>, mappers: seq<V -> MapOutcome<V>>,
                       c: NodeId, h: Handle, mo: V, mv: V, done: set<Handle>)
    requires WellFormed(ns0, |mappers|) && Evolves(ns0, ns1) && Evolves(ns1, ns2) && (AtRest(ns0) ==> AtRest(ns1))
    requires c < |ns0| && h in ns0[c].listeners && done <= ns0[c].listeners.Keys && mo != mv
    requires LogExtends(log0, log1, c) && LogExtends(log1, log2, c)
    requires AtRest(ns0) && Calm(ns0, log0, log1, react, mappers) ==> OnlyValues(ns0, ns1)
    requires AtRest(ns0) && Calm(ns0, log0, log1, react, mappers) ==>
               forall x :: x in done ==> Reached(ns1, log0, log1, mappers, c, x, mo, mv)
    requires Delivered(ns1, ns2, log1, log2, react, mappers, c, h, Mapped(mo), mv)
    ensures AtRest(ns0) && Calm(ns0, log0, log2, react, mappers) ==>
              forall x :: x in done + {h} ==> Reached(ns2, log0, log2, mappers, c, x, mo, mv)
  {
    if AtRest(ns0) && Calm(ns0, log0, log2, react, mappers) {
      CalmPrefix(ns0, log0, log1, log2, react, mappers);
      CalmSuffix(ns0, ns1, log0, log1, log2, react, mappers);
      EvolvesKeepsWellFormed(ns0, ns1, |mappers|);
      EvolvesKeepsWellFormed(ns1, ns2, |mappers|);
      assert ns1[c] == ns0[c].(value := ns1[c].value);
      assert ns2[c] == ns1[c].(value := ns2[c].value);
      forall x | x in done + {h}
        ensures Reached(ns2, log0, log2, mappers, c, x, mo, mv)
      {
        if x == h {
          OnlyValuesRefl(ns2);
          ReachedMono(ns2, ns2, log1, log2, log0, log2, mappers, c, h, mo, mv);
        } else {
          if ns1[c].listeners[x].Derived? {
            forall k | 0 <= k < |ns1| && Cascades(ns1, ns1[c].listeners[x].child, k)
              ensures ns2[k].value == ns1[k].value
            {
              if ns1[c].listeners[h].Derived? {
                SiblingCascadesApart(ns1, |mappers|, c, x, h, k);
              }
            }
          }
          ReachedMono(ns1, ns2, log0, log1, log0, log2, mappers, c, x, mo, mv);
        }
      }
    }
  }

  /** What the first `i` turns of the handler loop of `close` on `n` have done, from the arena
      `before` (where `n` is still open) and the run log `runs0`: values and the reasons of
      older nodes are untouched, handlers 0..i-1 of `n` ran in order, what they had to do is
      done, every node closed meanwhile is reached from `n` through close handlers and (apart
      from `n`) carries the reason `map` gives, and every listener removed was removed by a
      node that closed meanwhile. */
  ghost predicate HandlerLoop<V>(before: seq<Node<V>>, ns: seq<Node<V>>, runs0: seq<Run>, runs: seq<Run>,
                                 n: NodeId, i: nat) {
    && n < |before| && i <= |before[n].closeHandlers|
    && Evolves(before, ns)
    && (forall k :: 0 <= k < |ns| ==> ns[k].value == before[k].value)
    && (forall k :: 0 <= k < n ==> ns[k].closeReason == before[k].closeReason)
    && RunsGrow(runs0, runs, before, ns)
    && RunsAt(runs[|runs0|..], n) == Upto(i)
    && (forall m :: NewlyClosed(before, ns, m) ==> Cascades(before, n, m))
    && (forall m: NodeId :: NewlyClosed(before, ns, m) && m != n ==> ns[m].closeReason == Some(SourceClosedReason))
    && HandlersDone(ns, before[n].closeHandlers, i)
    && RemovalsExplained(before, ns, {})
    && (forall m: NodeId :: NewlyClosed(before, ns, m) && m != n ==>
          HandlersDone(ns, ns[m].closeHandlers, |ns[m].closeHandlers|))
    && (forall m: NodeId :: NewlyClosed(before, ns, m) && m != n ==>
          RunsAt(runs[|runs0|..], m) == Upto(|ns[m].closeHandlers|))
  }

  lemma HandlerLoopStart<V>(before: seq<Node<V>>, ns: seq<Node<V>>, runs: seq<Run>, n: NodeId)
    requires n < |before| && |ns| == |before| && Evolves(before, ns)
    requires forall k :: 0 <= k < |ns| && k != n ==> ns[k] == before[k]
    requires ns[n] == before[n].(closeReason := ns[n].closeReason)
    ensures HandlerLoop(before, ns, runs, runs, n, 0)
  {
    RunsGrowRefl(runs, before);
    CascadesRefl(before, n);
    assert runs[|runs|..] == [];
  }

  lemma HandlerLoopStep<V>(before: seq<Node<V>>, ns0: seq<Node<V>>, ns1: seq<Node<V>>,
                           runs: seq<Run>, runs0: seq<Run>, runs1: seq<Run>, n: NodeId, i: nat)
    requires HandlerLoop(before, ns0, runs, runs0, n, i) && i < |before[n].closeHandlers|
    requires before[n].closeReason.None? && ns0[n].closeReason.Some?
    requires Evolves(ns0, ns1)
    requires forall k :: 0 <= k < |ns1| ==> ns1[k].value == ns0[k].value
    requires forall k :: 0 <= k <= n ==> ns1[k].closeReason == ns0[k].closeReason
    requires |runs1| > |runs0| && runs1[|runs0|] == Run(n, i)
    requires RunsGrow(runs0 + [Run(n, i)], runs1, ns0, ns1)
    requires forall m :: NewlyClosed(ns0, ns1, m) ==>
               ns0[n].closeHandlers[i].CloseNode? && Cascades(ns0, ns0[n].closeHandlers[i].target, m)
    requires ns0[n].closeHandlers[i].CloseNode? ==>
               ns0[n].closeHandlers[i].target < |ns1| && ns1[ns0[n].closeHandlers[i].target].closeReason.Some?
    requires ns0[n].closeHandlers[i].RemoveListener? ==>
               ns0[n].closeHandlers[i].source < |ns1|
               && ns0[n].closeHandlers[i].handle !in ns1[ns0[n].closeHandlers[i].source].listeners
    requires RemovalsExplained(ns0, ns1, {n})
    requires forall m: NodeId :: NewlyClosed(ns0, ns1, m) ==> ns1[m].closeReason == Some(SourceClosedReason)
    requires ClosesCompleted(ns0, ns1) && RunsComplete(ns0, ns1, runs0 + [Run(n, i)], runs1)
    ensures HandlerLoop(before, ns1, runs, runs1, n, i + 1)
  {
    assert NodeEvolves(before[n], ns0[n]);
    EvolvesTrans(before, ns0, ns1);
    CloseLoopStep(before, ns0, ns1, runs, runs0, runs1, n, i);
    CloseLoopRuns(before, ns0, ns1, runs, runs0, runs1, n, i);
    HandlersDoneStep(ns0, ns1, before[n].closeHandlers, i);
    CascadeStep(before, ns0, ns1, n, i);
    RemovalsExplainedTrans(before, ns0, ns1, {}, {n}, {});
    forall m: NodeId | NewlyClosed(before, ns1, m) && m != n
      ensures ns1[m].closeReason == Some(SourceClosedReason)
    {
      if ns0[m].closeReason.Some? {
        assert NewlyClosed(before, ns0, m);
        assert NodeEvolves(ns0[m], ns1[m]);
      } else {
        assert NewlyClosed(ns0, ns1, m);
      }
    }
    forall m: NodeId | NewlyClosed(before, ns1, m) && m != n
      ensures HandlersDone(ns1, ns1[m].closeHandlers, |ns1[m].closeHandlers|)
    {
      assert NodeEvolves(ns0[m], ns1[m]);
      if ns0[m].closeReason.Some? {
        assert NewlyClosed(before, ns0, m);
        HandlersDoneKept(ns0, ns1, ns0[m].closeHandlers, |ns0[m].closeHandlers|);
      } else {
        assert NewlyClosed(ns0, ns1, m);
      }
    }
  }

  /** Once a source's close handlers have all run, every node `map` derived from it through a
      listener it still had is closed. */
  lemma SourceCloseClosesDerived<V>(ns0: seq<Node<V>>, ns: seq<Node<V>>, mapperCount: nat, n: NodeId, h: Handle)
    requires WellFormed(ns0, mapperCount) && Evolves(ns0, ns)
    requires n < |ns0| && h in ns0[n].listeners && ns0[n].listeners[h].Derived?
    requires HandlersDone(ns, ns[n].closeHandlers, |ns[n].closeHandlers|)
    ensures ns0[n].listeners[h].child < |ns| && ns[ns0[n].listeners[h].child].closeReason.Some?
  {

  }

  /** Once a derived node's close handlers have all run, the listener `map` installed for it
      is gone from its source. */
  lemma DerivedCloseDetaches<V>(ns0: seq<Node<V>>, ns: seq<Node<V>>, mapperCount: nat, n: NodeId, h: Handle)
    requires WellFormed(ns0, mapperCount) && Evolves(ns0, ns)
    requires n < |ns0| && h in ns0[n].listeners && ns0[n].listeners[h].Derived?
    requires var c := ns0[n].listeners[h].child;
             c < |ns| && HandlersDone(ns, ns[c].closeHandlers, |ns[c].closeHandlers|)
    ensures h !in ns[n].listeners
  {

  }

  /** A node closed by running handler `i` of `n` is reached from `n` through close handlers. */
  lemma CascadeStep<V>(ns: seq<Node<V>>, ns0: seq<Node<V>>, ns1: seq<Node<V>>, n: NodeId, i: nat)
    requires n < |ns| && i < |ns[n].closeHandlers| && Evolves(ns, ns0) && Evolves(ns0, ns1)
    requires forall m :: NewlyClosed(ns, ns0, m) ==> Cascades(ns, n, m)
    requires forall m :: NewlyClosed(ns0, ns1, m) ==>
               ns0[n].closeHandlers[i].CloseNode? && Cascades(ns0, ns0[n].closeHandlers[i].target, m)
    ensures forall m :: NewlyClosed(ns, ns1, m) ==> Cascades(ns, n, m)
  {
    assert NodeEvolves(ns[n], ns0[n]);
    forall m: NodeId | NewlyClosed(ns, ns1, m)
      ensures Cascades(ns, n, m)
    {
      if ns0[m].closeReason.None? {
        assert NewlyClosed(ns0, ns1, m);
        var c := ns0[n].closeHandlers[i].target;
        forall k | 0 <= k < |ns|
          ensures ns[k].closeHandlers == ns0[k].closeHandlers
        {
          assert NodeEvolves(ns[k], ns0[k]);
        }
        CascadesSameHandlers(ns0, ns, c, m);
        assert c in CloseTargets(ns[n].closeHandlers);
        CascadesExtend(ns, n, c, m);
      } else {
        assert NewlyClosed(ns, ns0, m);
      }
    }
  }

  /** One turn of the loop in `Close`: what running one handler establishes, added to what the
      earlier turns did. */
  lemma CloseLoopStep<V>(ns: seq<Node<V>>, ns0: seq<Node<V>>, ns1: seq<Node<V>>,
                         runs: seq<Run>, runs0: seq<Run>, runs1: seq<Run>, n: NodeId, i: nat)
    requires n < |ns| && i < |ns[n].closeHandlers|
    requires Evolves(ns, ns0) && Evolves(ns0, ns1) && ns[n].closeReason.None? && ns0[n].closeReason.Some?
    requires RunsGrow(runs, runs0, ns, ns0) && RunsAt(runs0[|runs|..], n) == Upto(i)
    requires |runs1| > |runs0| && runs1[|runs0|] == Run(n, i)
    requires RunsGrow(runs0 + [Run(n, i)], runs1, ns0, ns1)
    ensures RunsGrow(runs, runs1, ns, ns1)
    ensures RunsAt(runs1[|runs|..], n) == Upto(i + 1)
  {
    var mid := runs0 + [Run(n, i)];
    assert runs1[..|mid|] == mid;
    assert runs1[..|runs0|] == runs0 by {
      assert runs1[..|runs0|] == runs1[..|mid|][..|runs0|];
    }
    assert runs1[..|runs|] == runs by {
      assert runs1[..|runs|] == runs1[..|runs0|][..|runs|];
    }
    forall k | |runs| <= k < |runs1|
      ensures runs1[k].node < |ns| && runs1[k].node < |ns1|
              && ns[runs1[k].node].closeReason.None? && ns1[runs1[k].node].closeReason.Some?
    {
      var x := runs1[k].node;
      if k < |runs0| {
        assert runs1[k] == runs0[k];
        assert NodeEvolves(ns0[x], ns1[x]);
      } else if k == |runs0| {
        assert NodeEvolves(ns0[n], ns1[n]);
      } else {
        assert NodeEvolves(ns[x], ns0[x]);
      }
    }
    var tail := runs1[|mid|..];
    assert runs1[|runs|..] == runs0[|runs|..] + [Run(n, i)] + tail by {
      assert runs1[..|mid|] == mid;
    }
    RunsAtConcat(runs0[|runs|..] + [Run(n, i)], tail, n);
    RunsAtConcat(runs0[|runs|..], [Run(n, i)], n);
    assert RunsAt([Run(n, i)], n) == [i] by {
      assert [Run(n, i)][..0] == [];
    }
    forall k | 0 <= k < |tail|
      ensures tail[k].node != n
    {
      assert tail[k] == runs1[|mid| + k];
    }
    RunsAtNone(tail, n);
  }

  /** One turn of the loop in `Close`, for the other nodes: a node that closed during the
      turn ran all its handlers within it, and one that closed earlier runs none in it. */
  lemma CloseLoopRuns<V>(ns: seq<Node<V>>, ns0: seq<Node<V>>, ns1: seq<Node<V>>,
                         runs: seq<Run>, runs0: seq<Run>, runs1: seq<Run>, n: NodeId, i: nat)
    requires n < |ns| && Evolves(ns, ns0) && Evolves(ns0, ns1) && RunsGrow(runs, runs0, ns, ns0)
    requires forall m: NodeId :: NewlyClosed(ns, ns0, m) && m != n ==>
               RunsAt(runs0[|runs|..], m) == Upto(|ns0[m].closeHandlers|)
    requires RunsGrow(runs0 + [Run(n, i)], runs1, ns0, ns1)
    requires RunsComplete(ns0, ns1, runs0 + [Run(n, i)], runs1)
    ensures forall m: NodeId :: NewlyClosed(ns, ns1, m) && m != n ==>
              RunsAt(runs1[|runs|..], m) == Upto(|ns1[m].closeHandlers|)
  {
    var mid := runs0 + [Run(n, i)];
    var tail := runs1[|mid|..];
    assert runs1[|runs|..] == runs0[|runs|..] + [Run(n, i)] + tail by {
      assert runs1[..|mid|] == mid;
    }
    forall m: NodeId | NewlyClosed(ns, ns1, m) && m != n
      ensures RunsAt(runs1[|runs|..], m) == Upto(|ns1[m].closeHandlers|)
    {
      assert NodeEvolves(ns[m], ns0[m]) && NodeEvolves(ns0[m], ns1[m]);
      RunsAtConcat(runs0[|runs|..] + [Run(n, i)], tail, m);
      RunsAtConcat(runs0[|runs|..], [Run(n, i)], m);
      assert RunsAt([Run(n, i)], m) == [] by {
        assert [Run(n, i)][..0] == [];
      }
      if ns0[m].closeReason.Some? {
        assert NewlyClosed(ns, ns0, m);
        ClosedNodeRunsNothing(mid, runs1, ns0, ns1, m);
      } else {
        assert NewlyClosed(ns0, ns1, m);
        OpenNodeRunsNothing(runs, runs0, ns, ns0, m);
      }
    }
  }

  /** The arena after `map` on node `n` derived a node holding `v` with mapper number `m`:
      the listener under `h` and the close handler on `n`, and the new node with its own
      close handler. */
  function WithMapEdge<V>(ns: seq<Node<V>>, n: NodeId, h: Handle, v: V, m: MapperId): (edged: seq<Node<V>>)
    requires n < |ns|
  {
    ns[n := ns[n].(listeners := ns[n].listeners[h := Derived(|ns|, m)],
                   closeHandlers := ns[n].closeHandlers + [CloseNode(|ns|, SourceClosedReason)])]
    + [Node(v, None, map[], [Action.RemoveListener(n, h)])]
  }

  /** Adding the `map` edge to an open source keeps every closed node's close targets closed. */
  lemma MapKeepsTornDown<V>(before: seq<Node<V>>, n: NodeId, h: Handle, v: V, m: MapperId)
    requires n < |before| && before[n].closeReason.None?
    ensures TornDown(before) ==> TornDown(WithMapEdge(before, n, h, v, m))
  {
    var ns := WithMapEdge(before, n, h, v, m);
    assert forall i :: 0 <= i < |before| && i != n ==> ns[i] == before[i];
    TornDownFrame(before, ns);
  }

  /** Adding the `map` edge keeps the arena well formed. */
  lemma MapKeepsWellFormed<V>(before: seq<Node<V>>, n: NodeId, h: Handle, v: V, m: MapperId)
    requires WellFormed(before, m) && n < |before|
    ensures WellFormed(WithMapEdge(before, n, h, v, m), m + 1)
  {
    var c := |before|;
    var ns := WithMapEdge(before, n, h, v, m);
    assert ns[c].closeHandlers == [Action.RemoveListener(n, h)];
    forall i, k | 0 <= i < |ns| && k in ns[i].listeners
      ensures ListenerLinked(ns, m + 1, i, k)
    {
      if i == n && k == h {
        assert CloseNode(c, SourceClosedReason) in ns[n].closeHandlers;
        assert Action.RemoveListener(n, h) in ns[c].closeHandlers;
      } else {
        assert i < c;
        assert ListenerLinked(before, m, i, k);
        match ns[i].listeners[k]
        case External(_) =>
        case Derived(d, _) =>
          assert d < c;
          assert ns[d].closeHandlers == before[d].closeHandlers
              || (d == n && ns[d].closeHandlers == before[d].closeHandlers + [CloseNode(c, SourceClosedReason)]);
      }
    }
    forall i, j | 0 <= i < |ns| && 0 <= j < |ns[i].closeHandlers|
      ensures ActionBounded(ns, i, ns[i].closeHandlers[j])
    {
      if i < c && j < |before[i].closeHandlers| {
        assert ns[i].closeHandlers[j] == before[i].closeHandlers[j];
        assert ActionBounded(before, i, before[i].closeHandlers[j]);
      }
    }
  }
}
