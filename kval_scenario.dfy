/** Small clients of the arena: a derived length, a mapper that fails, and a failing listener
    on a derived node, each checked against the contracts of `KVal.Arena`. */
module KValScenario {
  import opened KValData
  import opened KValInvariants
  import opened KVal

  datatype Val = Str(s: string) | Num(i: int)

  /** A mapper from strings to their length; it throws on numbers. */
  function Length(v: Val): (r: MapOutcome<Val>)
    ensures v.Str? <==> r.Mapped?
  {
    match v
    case Str(s) => Mapped(Num(|s|))
    case Num(_) => Raised(UserException(0))
  }

  /** The identity mapper. */
  function Same(v: Val): (r: MapOutcome<Val>) {
    Mapped(v)
  }

  /** Observer 7 throws `UserException(1)`; every other observer returns normally. */
  function Reacts(o: ObserverId, before: Val, after: Val): (thrown: Option<Throwable>) {
    if o == 7 then Some(UserException(1)) else None
  }

  /** `map` a length over "three", propagate a change to "one", then close the source. */
  method LengthOfString() returns (initial: Result<Val>, updated: Result<Val>, sourceAfter: Result<Val>,
                                   derivedClosed: bool)
    ensures initial == Ok(Num(5))
    ensures updated == Ok(Num(3))
    ensures sourceAfter == Err(ReadAfterClose(CloseReason("done", None)))
    ensures derivedClosed
  {
    var a, h := OneDerived();
    initial := a.Read(1);
    assert Length(Str("one")) == Mapped(Num(3));
    var out := a.InvokeListener(0, h, Str("three"), Str("one"));
    updated := a.Read(1);
    ghost var beforeClose := a.nodes;
    a.Close(0, CloseReason("done", None));
    sourceAfter := a.Read(0);
    SourceCloseClosesDerived(beforeClose, a.nodes, |a.mappers|, 0, h);
    derivedClosed := a.IsClosed(1);
  }

  /** `map` fails when the mapper throws, and on a closed source. */
  method MapFailures() returns (thrown: Result<NodeId>, closed: Result<NodeId>)
    ensures thrown == Err(MapperFailed(UserException(0)))
    ensures closed == Err(MapAfterClose(CloseReason("gone", None)))
  {
    var a := new Arena<Val>(Reacts);
    var n := a.Create(Num(7));
    thrown := a.Map(n, Length);
    var s := a.Create(Str("x"));
    a.Close(s, CloseReason("gone", None));
    closed := a.Map(s, Length);
  }

  /** A source holding "three" and a length derived from it through the source's listener `h`. */
  method OneDerived() returns (a: Arena<Val>, h: Handle)
    ensures fresh(a) && a.Valid() && AtRest(a.nodes) && a.react == Reacts && |a.mappers| == 1 && a.mappers[0] == Length
    ensures a.nodes == [Node(Str("three"), None, map[h := Derived(1, 0)], [CloseNode(1, SourceClosedReason)]),
                        Node(Num(5), None, map[], [Action.RemoveListener(0, h)])]
  {
    a := new Arena<Val>(Reacts);
    var src := a.Create(Str("three"));
    ghost var ns0 := a.nodes;
    var r := a.Map(src, Length);
    ghost var h0 :| h0 !in ns0[src].listeners && a.nodes == WithMapEdge(ns0, src, h0, Num(5), 0);
    assert a.nodes[src].listeners == map[h0 := Derived(1, 0)];
    assert a.nodes[src].closeHandlers == [CloseNode(1, SourceClosedReason)];
    h :| h in a.nodes[src].listeners;
    assert h == h0;
  }

  /** `OneDerived` with observer 7 listening on the derived node under `k`. */
  method ThrowingSetup() returns (a: Arena<Val>, h: Handle, k: Handle)
    ensures fresh(a) && a.Valid() && a.react == Reacts && |a.mappers| == 1 && a.mappers[0] == Length
    ensures a.nodes == [Node(Str("three"), None, map[h := Derived(1, 0)], [CloseNode(1, SourceClosedReason)]),
                        Node(Num(5), None, map[k := External(7)], [Action.RemoveListener(0, h)])]
  {
    a, h := OneDerived();
    k := a.AddListener(1, 7);
    assert a.nodes[1].listeners == map[k := External(7)];
  }

  /** A derived node whose only listener throws is closed while the change propagates. */
  method ThrowingListener() returns (reason: Option<CloseReason>)
    ensures reason.Some? && reason.value.explanation == MapperThrewExplanation
  {
    var a, h, k := ThrowingSetup();
    var out := a.InvokeListener(0, h, Str("three"), Str("one"));
    // Neither node has a close handler that removes `k`, so `k` was still there at its turn.
    assert k in a.nodes[1].listeners;
    reason := a.nodes[1].closeReason;
  }

  /** `OneDerived` with a second node mapped, by `Same`, from the derived one under handle
      `g` of the derived node. */
  method ChainSetup() returns (a: Arena<Val>, h: Handle, g: Handle)
    ensures fresh(a) && a.Valid() && AtRest(a.nodes) && a.react == Reacts
    ensures |a.mappers| == 2 && a.mappers[0] == Length && a.mappers[1] == Same
    ensures a.nodes == [Node(Str("three"), None, map[h := Derived(1, 0)], [CloseNode(1, SourceClosedReason)]),
                        Node(Num(5), None, map[g := Derived(2, 1)],
                             [Action.RemoveListener(0, h), CloseNode(2, SourceClosedReason)]),
                        Node(Num(5), None, map[], [Action.RemoveListener(1, g)])]
  {
    a, h := OneDerived();
    assert AtRest(a.nodes);
    ghost var ns1 := a.nodes;
    var r := a.Map(1, Same);
    ghost var g0 :| g0 !in ns1[1].listeners && a.nodes == WithMapEdge(ns1, 1, g0, Num(5), 1);
    assert a.nodes[1].listeners == map[g0 := Derived(2, 1)];
    g :| g in a.nodes[1].listeners;
    assert g == g0;
    assert a.nodes[1].closeHandlers == [Action.RemoveListener(0, h), CloseNode(2, SourceClosedReason)];
  }

  /** Closing a source tears down the whole chain derived from it: a node mapped from the
      source and a node mapped from that one. */
  method ChainTeardown() returns (derivedClosed: bool, secondClosed: bool)
    ensures derivedClosed && secondClosed
  {
    var a, h, g := ChainSetup();
    ghost var ns := a.nodes;
    assert 1 in CloseTargets(ns[0].closeHandlers) && 2 in CloseTargets(ns[1].closeHandlers);
    CascadesRefl(ns, 2);
    CascadesExtend(ns, 1, 2, 2);
    CascadesExtend(ns, 0, 1, 2);
    CascadesRefl(ns, 1);
    CascadesExtend(ns, 0, 1, 1);
    a.Close(0, CloseReason("done", None));
    derivedClosed := a.IsClosed(1);
    secondClosed := a.IsClosed(2);
  }

  /** A source holding "three" with two length nodes derived from it, under handles `h1`
      and `h2` of the source. */
  method SiblingSetup() returns (a: Arena<Val>, h1: Handle, h2: Handle)
    ensures fresh(a) && a.Valid() && h1 != h2
    ensures a.nodes == [Node(Str("three"), None, map[h1 := Derived(1, 0), h2 := Derived(2, 1)],
                             [CloseNode(1, SourceClosedReason), CloseNode(2, SourceClosedReason)]),
                        Node(Num(5), None, map[], [Action.RemoveListener(0, h1)]),
                        Node(Num(5), None, map[], [Action.RemoveListener(0, h2)])]
  {
    a, h1 := OneDerived();
    ghost var ns1 := a.nodes;
    var r := a.Map(0, Length);
    ghost var g :| g !in ns1[0].listeners && a.nodes == WithMapEdge(ns1, 0, g, Num(5), 1);
    assert g in a.nodes[0].listeners && g != h1;
    h2 :| h2 in a.nodes[0].listeners && h2 != h1;
    assert h2 == g;
    assert a.nodes[0].listeners == map[h1 := Derived(1, 0), h2 := Derived(2, 1)];
    assert a.nodes[0].closeHandlers == [CloseNode(1, SourceClosedReason), CloseNode(2, SourceClosedReason)];
  }

  /** The sibling is not reached from the first derived node, which can close nothing. */
  lemma SiblingFrame(ns: seq<Node<Val>>, ns': seq<Node<Val>>, h1: Handle, h2: Handle)
    requires ns == [Node(Str("three"), None, map[h1 := Derived(1, 0), h2 := Derived(2, 1)],
                         [CloseNode(1, SourceClosedReason), CloseNode(2, SourceClosedReason)]),
                    Node(Num(5), None, map[], [Action.RemoveListener(0, h1)]),
                    Node(Num(5), None, map[], [Action.RemoveListener(0, h2)])]
    requires |ns'| == 3 && Confined(ns, ns', 1)
    ensures ns'[2].value == Num(5) && ns'[2].closeReason.None?
  {
    assert forall x :: x in ns[1].closeHandlers ==> !x.CloseNode?;
    assert CloseTargets(ns[1].closeHandlers) == {};
    CascadesFromLeaf(ns, 1, 2);
  }

  /** Propagating through one derived node leaves a sibling derived from the same source
      alone: its value and its open state do not change. */
  method SiblingsIndependent() returns (sibling: Result<Val>)
    ensures sibling == Ok(Num(5))
  {
    var a, h1, h2 := SiblingSetup();
    ghost var ns := a.nodes;
    assert ns[0].listeners[h1] == Derived(1, 0);
    var out := a.InvokeListener(0, h1, Str("three"), Str("one"));
    SiblingFrame(ns, a.nodes, h1, h2);
    sibling := a.Read(2);
  }

  /** `OneDerived` with observer 3, which returns normally, listening on the derived node
      under `k`. */
  method CalmSetup() returns (a: Arena<Val>, h: Handle, k: Handle)
    ensures fresh(a) && a.Valid() && AtRest(a.nodes) && a.react == Reacts && |a.mappers| == 1 && a.mappers[0] == Length
    ensures a.nodes == [Node(Str("three"), None, map[h := Derived(1, 0)], [CloseNode(1, SourceClosedReason)]),
                        Node(Num(5), None, map[k := External(3)], [Action.RemoveListener(0, h)])]
  {
    a, h := OneDerived();
    k := a.AddListener(1, 3);
    assert a.nodes[1].listeners == map[k := External(3)];
  }

  /** The calls logged while `a` propagates "three" to "one" from `CalmSetup` are calm:
      the only listener on the source is the `map` listener, and observer 3 returns normally. */
  lemma CalmSetupCalm(ns: seq<Node<Val>>, log0: seq<Call<Val>>, log: seq<Call<Val>>,
                      mappers: seq<Val -> MapOutcome<Val>>, h: Handle, k: Handle)
    requires ns == [Node(Str("three"), None, map[h := Derived(1, 0)], [CloseNode(1, SourceClosedReason)]),
                    Node(Num(5), None, map[k := External(3)], [Action.RemoveListener(0, h)])]
    requires |mappers| == 1 && mappers[0] == Length
    requires |log| > |log0| && log[|log0|] == Call(0, h, Str("three"), Str("one"))
    requires forall i :: |log0| < i < |log| ==> log[i].node > 0
    ensures Calm(ns, log0, log, Reacts, mappers)
  {
  }

  /** After a calm propagation from `CalmSetup`, the derived node is open, holds 3, and its
      listener was called with (5, 3). */
  lemma CalmSetupTold(ns: seq<Node<Val>>, ns': seq<Node<Val>>, runs0: seq<Run>, runs: seq<Run>,
                      log0: seq<Call<Val>>, log: seq<Call<Val>>,
                      mappers: seq<Val -> MapOutcome<Val>>, h: Handle, k: Handle, out: Outcome)
    requires ns == [Node(Str("three"), None, map[h := Derived(1, 0)], [CloseNode(1, SourceClosedReason)]),
                    Node(Num(5), None, map[k := External(3)], [Action.RemoveListener(0, h)])]
    requires |mappers| == 1 && mappers[0] == Length
    requires OnlyValues(ns, ns')
    requires Relayed(ns, ns', runs0, runs, log0, log, Reacts, mappers, 0, h, Str("three"), Str("one"), out)
    ensures ns'[1].value == Num(3) && ns'[1].closeReason.None? && Call(1, k, Num(5), Num(3)) in log[|log0|..]
  {
    assert Length(Str("one")) == Mapped(Num(3)) && Length(Str("three")) == Mapped(Num(5));
    assert ns'[1] == ns[1].(value := ns'[1].value);
  }

  /** A listener that returns normally, on a derived node, is told of the change, and the
      derived node stays open with the new length. */
  method CalmListener() returns (derived: Result<Val>, ghost told: bool)
    ensures derived == Ok(Num(3)) && told
  {
    var a, h, k := CalmSetup();
    ghost var ns, calls0, runs0 := a.nodes, a.calls, a.runs;
    var out := a.InvokeListener(0, h, Str("three"), Str("one"));
    assert a.calls[|calls0|] == a.calls[..|calls0| + 1][|calls0|];
    CalmSetupCalm(ns, calls0, a.calls, a.mappers, h, k);
    CalmSetupTold(ns, a.nodes, runs0, a.runs, calls0 + [Call(0, h, Str("three"), Str("one"))], a.calls,
                  a.mappers, h, k, out);
    derived := a.Read(1);
    told := Call(1, k, Num(5), Num(3)) in a.calls;
  }

  /** The calls logged while `a` propagates "three" to "one" from `ChainSetup` are calm: every
      listener is a `map` listener whose mapper maps the values it is called with. */
  lemma ChainCalm(ns: seq<Node<Val>>, log0: seq<Call<Val>>, log: seq<Call<Val>>,
                  mappers: seq<Val -> MapOutcome<Val>>, h: Handle, g: Handle)
    requires ns == [Node(Str("three"), None, map[h := Derived(1, 0)], [CloseNode(1, SourceClosedReason)]),
                    Node(Num(5), None, map[g := Derived(2, 1)],
                         [Action.RemoveListener(0, h), CloseNode(2, SourceClosedReason)]),
                    Node(Num(5), None, map[], [Action.RemoveListener(1, g)])]
    requires |mappers| == 2 && mappers[0] == Length && mappers[1] == Same
    requires |log| > |log0| && log[|log0|] == Call(0, h, Str("three"), Str("one"))
    requires forall i :: |log0| < i < |log| ==> log[i].node > 0
    ensures Calm(ns, log0, log, Reacts, mappers)
  {
    assert Length(Str("one")) == Mapped(Num(3)) && Length(Str("three")) == Mapped(Num(5));
  }

  /** After a calm propagation from `ChainSetup` that reached its first listener, the second
      derived node is open and holds 3, and the `map` listener of the first was called with
      (5, 3). */
  lemma ChainFed(ns: seq<Node<Val>>, ns': seq<Node<Val>>, log0: seq<Call<Val>>, log: seq<Call<Val>>,
                 mappers: seq<Val -> MapOutcome<Val>>, h: Handle, g: Handle)
    requires ns == [Node(Str("three"), None, map[h := Derived(1, 0)], [CloseNode(1, SourceClosedReason)]),
                    Node(Num(5), None, map[g := Derived(2, 1)],
                         [Action.RemoveListener(0, h), CloseNode(2, SourceClosedReason)]),
                    Node(Num(5), None, map[], [Action.RemoveListener(1, g)])]
    requires |mappers| == 2 && mappers[0] == Length && mappers[1] == Same
    requires OnlyValues(ns, ns')
    requires Reached(ns', log0, log, mappers, 0, h, Str("three"), Str("one"))
    ensures ns'[2].value == Num(3) && ns'[2].closeReason.None? && Call(1, g, Num(5), Num(3)) in log[|log0|..]
  {
    assert Length(Str("one")) == Mapped(Num(3)) && Length(Str("three")) == Mapped(Num(5));
    assert ns'[0] == ns[0].(value := ns'[0].value);
    assert ns'[1] == ns[1].(value := ns'[1].value) && ns'[2] == ns[2].(value := ns'[2].value);
    MapStep(ns', log0, log, mappers, 0, h, 1, 0, Str("three"), Str("one"), Num(5), Num(3));
    assert Reached(ns', log0, log, mappers, 1, g, Num(5), Num(3));
    MapStep(ns', log0, log, mappers, 1, g, 2, 1, Num(5), Num(3), Num(5), Num(3));
  }

  /** A change to the source of the chain reaches the end of it: the second derived node
      holds the new length and stays open, and the first derived node called its `map`
      listener. */
  method ChainPropagation() returns (second: Result<Val>, ghost relayed: bool)
    ensures second == Ok(Num(3)) && relayed
  {
    var a, h, g := ChainSetup();
    ghost var ns, calls0 := a.nodes, a.calls;
    Tell(a, 0, h, Str("three"), Str("one"));
    ChainCalm(ns, calls0, a.calls, a.mappers, h, g);
    ChainFed(ns, a.nodes, calls0, a.calls, a.mappers, h, g);
    second := a.Read(2);
    relayed := Call(1, g, Num(5), Num(3)) in a.calls;
  }

  /** Calls listener `h` of `n` with (`oldValue`, `newValue`), keeping of the contract of
      `InvokeListener` what a calm run from an arena at rest promises. */
  method Tell(a: Arena<Val>, n: NodeId, h: Handle, oldValue: Val, newValue: Val)
    requires a.Valid() && n < |a.nodes| && h in a.nodes[n].listeners
    modifies a
    ensures a.Valid() && a.mappers == old(a.mappers)
    ensures |a.calls| > |old(a.calls)| && a.calls[|old(a.calls)|] == Call(n, h, oldValue, newValue)
    ensures forall i :: |old(a.calls)| < i < |a.calls| ==> a.calls[i].node > n
    ensures AtRest(old(a.nodes)) && Calm(old(a.nodes), old(a.calls), a.calls, a.react, a.mappers) ==>
              && OnlyValues(old(a.nodes), a.nodes)
              && (oldValue != newValue ==> Reached(a.nodes, old(a.calls), a.calls, a.mappers, n, h, oldValue, newValue))
  {
    ghost var calls0 := a.calls;
    var out := a.InvokeListener(n, h, oldValue, newValue);
    assert a.calls[|calls0|] == a.calls[..|calls0| + 1][|calls0|];
  }

  /** `ChainSetup` with observer 3 listening on the second derived node under `k`. */
  method ListenedChainSetup() returns (a: Arena<Val>, h: Handle, g: Handle, k: Handle)
    ensures fresh(a) && a.Valid() && AtRest(a.nodes) && a.react == Reacts
    ensures |a.mappers| == 2 && a.mappers[0] == Length && a.mappers[1] == Same
    ensures a.nodes == [Node(Str("three"), None, map[h := Derived(1, 0)], [CloseNode(1, SourceClosedReason)]),
                        Node(Num(5), None, map[g := Derived(2, 1)],
                             [Action.RemoveListener(0, h), CloseNode(2, SourceClosedReason)]),
                        Node(Num(5), None, map[k := External(3)], [Action.RemoveListener(1, g)])]
  {
    a, h, g := ChainSetup();
    k := a.AddListener(2, 3);
    assert a.nodes[2].listeners == map[k := External(3)];
  }

  /** The calls logged while `a` propagates "three" to "one" from `ListenedChainSetup` are
      calm: the `map` listeners map what they are called with and observer 3 returns
      normally. */
  lemma ListenedChainCalm(ns: seq<Node<Val>>, log0: seq<Call<Val>>, log: seq<Call<Val>>,
                          mappers: seq<Val -> MapOutcome<Val>>, h: Handle, g: Handle, k: Handle)
    requires ns == [Node(Str("three"), None, map[h := Derived(1, 0)], [CloseNode(1, SourceClosedReason)]),
                    Node(Num(5), None, map[g := Derived(2, 1)],
                         [Action.RemoveListener(0, h), CloseNode(2, SourceClosedReason)]),
                    Node(Num(5), None, map[k := External(3)], [Action.RemoveListener(1, g)])]
    requires |mappers| == 2 && mappers[0] == Length && mappers[1] == Same
    requires |log| > |log0| && log[|log0|] == Call(0, h, Str("three"), Str("one"))
    requires forall i :: |log0| < i < |log| ==> log[i].node > 0
    ensures Calm(ns, log0, log, Reacts, mappers)
  {
    assert Length(Str("one")) == Mapped(Num(3)) && Length(Str("three")) == Mapped(Num(5));
  }

  /** After a calm propagation from `ListenedChainSetup` that reached the listener of the
      source, both derived nodes hold 3 and the external listener on the second derived node
      was called with (5, 3). */
  lemma ListenedChainTold(ns: seq<Node<Val>>, ns': seq<Node<Val>>, log0: seq<Call<Val>>, log: seq<Call<Val>>,
                          mappers: seq<Val -> MapOutcome<Val>>, h: Handle, g: Handle, k: Handle)
    requires ns == [Node(Str("three"), None, map[h := Derived(1, 0)], [CloseNode(1, SourceClosedReason)]),
                    Node(Num(5), None, map[g := Derived(2, 1)],
                         [Action.RemoveListener(0, h), CloseNode(2, SourceClosedReason)]),
                    Node(Num(5), None, map[k := External(3)], [Action.RemoveListener(1, g)])]
    requires |mappers| == 2 && mappers[0] == Length && mappers[1] == Same
    requires OnlyValues(ns, ns')
    requires Reached(ns', log0, log, mappers, 0, h, Str("three"), Str("one"))
    ensures ns'[1].value == Num(3) && ns'[2].value == Num(3) && ns'[2].closeReason.None?
    ensures Call(2, k, Num(5), Num(3)) in log[|log0|..]
  {
    assert Length(Str("one")) == Mapped(Num(3)) && Length(Str("three")) == Mapped(Num(5));
    assert ns'[0] == ns[0].(value := ns'[0].value) && ns'[1] == ns[1].(value := ns'[1].value);
    assert ns'[2] == ns[2].(value := ns'[2].value);
    MapStep(ns', log0, log, mappers, 0, h, 1, 0, Str("three"), Str("one"), Num(5), Num(3));
    assert Reached(ns', log0, log, mappers, 1, g, Num(5), Num(3));
    MapStep(ns', log0, log, mappers, 1, g, 2, 1, Num(5), Num(3), Num(5), Num(3));
    assert Reached(ns', log0, log, mappers, 2, k, Num(5), Num(3));
  }

  /** A change that reached `map` listener `x` of `c` has stored the mapped value in the
      derived node and spread from there. */
  lemma MapStep(ns: seq<Node<Val>>, log0: seq<Call<Val>>, log: seq<Call<Val>>, mappers: seq<Val -> MapOutcome<Val>>,
                c: NodeId, x: Handle, child: NodeId, m: MapperId, mo: Val, mv: Val, fo: Val, fv: Val)
    requires Reached(ns, log0, log, mappers, c, x, mo, mv) && ns[c].listeners[x] == Derived(child, m)
    requires c < child < |ns| && m < |mappers| && mappers[m](mo) == Mapped(fo) && mappers[m](mv) == Mapped(fv)
    ensures ns[child].value == fv && Spread(ns, log0, log, mappers, child, fo, fv)
  {
  }

  /** A change to the source reaches a listener two levels down: the external listener on
      the second derived node is told that its value went from 5 to 3. */
  method ListenedChainPropagation() returns (second: Result<Val>, ghost told: bool)
    ensures second == Ok(Num(3)) && told
  {
    var a, h, g, k := ListenedChainSetup();
    ghost var ns, calls0 := a.nodes, a.calls;
    Tell(a, 0, h, Str("three"), Str("one"));
    ListenedChainCalm(ns, calls0, a.calls, a.mappers, h, g, k);
    ListenedChainTold(ns, a.nodes, calls0, a.calls, a.mappers, h, g, k);
    second := a.Read(2);
    told := Call(2, k, Num(5), Num(3)) in a.calls;
  }

  /** In the chain with the user close handlers 8 on the source and 9 on the first derived
      node, a close that closed all three nodes ran their handlers as listed. */
  lemma ChainRuns(ns: seq<Node<Val>>, ns': seq<Node<Val>>, runs0: seq<Run>, runs: seq<Run>, h: Handle, g: Handle)
    requires ns == [Node(Str("three"), None, map[h := Derived(1, 0)],
                         [CloseNode(1, SourceClosedReason), Opaque(8)]),
                    Node(Num(5), None, map[g := Derived(2, 1)],
                         [Action.RemoveListener(0, h), CloseNode(2, SourceClosedReason), Opaque(9)]),
                    Node(Num(5), None, map[], [Action.RemoveListener(1, g)])]
    requires Evolves(ns, ns') && RunsComplete(ns, ns', runs0, runs)
    requires forall m: NodeId :: Cascades(ns, 0, m) ==> m < |ns'| && ns'[m].closeReason.Some?
    ensures RunsAt(runs[|runs0|..], 0) == [0, 1] && RunsAt(runs[|runs0|..], 1) == [0, 1, 2]
    ensures RunsAt(runs[|runs0|..], 2) == [0]
  {
    assert 1 in CloseTargets(ns[0].closeHandlers) && 2 in CloseTargets(ns[1].closeHandlers);
    CascadesRefl(ns, 2);
    CascadesExtend(ns, 1, 2, 2);
    CascadesExtend(ns, 0, 1, 2);
    CascadesRefl(ns, 1);
    CascadesExtend(ns, 0, 1, 1);
    CascadesRefl(ns, 0);
    assert NewlyClosed(ns, ns', 0) && NewlyClosed(ns, ns', 1) && NewlyClosed(ns, ns', 2);
    assert NodeEvolves(ns[0], ns'[0]) && NodeEvolves(ns[1], ns'[1]) && NodeEvolves(ns[2], ns'[2]);
    assert Upto(2) == [0, 1] && Upto(3) == [0, 1, 2] && Upto(1) == [0];
  }

  /** `ChainSetup` with the user close handler 9 on the first derived node and 8 on the
      source. */
  method HandlerChainSetup() returns (a: Arena<Val>, h: Handle, g: Handle)
    ensures fresh(a) && a.Valid() && AtRest(a.nodes)
    ensures a.nodes == [Node(Str("three"), None, map[h := Derived(1, 0)],
                             [CloseNode(1, SourceClosedReason), Opaque(8)]),
                        Node(Num(5), None, map[g := Derived(2, 1)],
                             [Action.RemoveListener(0, h), CloseNode(2, SourceClosedReason), Opaque(9)]),
                        Node(Num(5), None, map[], [Action.RemoveListener(1, g)])]
  {
    a, h, g := ChainSetup();
    a.OnClose(1, 9);
    assert a.nodes[1].closeHandlers == [Action.RemoveListener(0, h), CloseNode(2, SourceClosedReason), Opaque(9)];
    a.OnClose(0, 8);
    assert a.nodes[0].closeHandlers == [CloseNode(1, SourceClosedReason), Opaque(8)];
  }

  /** Closing the source of the chain, each node having a user close handler besides those
      `map` installed, runs every close handler of every node in the chain once, in order. */
  method ChainHandlers() returns (ghost sourceRuns: seq<nat>, ghost derivedRuns: seq<nat>, ghost secondRuns: seq<nat>)
    ensures sourceRuns == [0, 1] && derivedRuns == [0, 1, 2] && secondRuns == [0]
  {
    var a, h, g := HandlerChainSetup();
    ghost var ns, runs0 := a.nodes, a.runs;
    a.Close(0, CloseReason("done", None));
    ChainRuns(ns, a.nodes, runs0, a.runs, h, g);
    sourceRuns := RunsAt(a.runs[|runs0|..], 0);
    derivedRuns := RunsAt(a.runs[|runs0|..], 1);
    secondRuns := RunsAt(a.runs[|runs0|..], 2);
  }
}
