/** Structural invariants of the node arena and the facts about them that the
    operations of `KVal.Arena` rely on. */
module KValInvariants {
  import opened KValData

  /** Node ids of the `CloseNode` handlers in `hs`. */
  function CloseTargets(hs: seq<Action>): (ts: set<NodeId>)
    ensures forall j :: 0 <= j < |hs| && hs[j].CloseNode? ==> hs[j].target in ts
  {
    set a | a in hs && a.CloseNode? :: a.target
  }

  /** A close handler of node `n` only closes a node created after `n`, with the reason `map`
      gives, and only removes a listener from a node created before `n` (`map` registers both,
      and the derived node is always the newer one). The node it closes was derived from `n`:
      its first close handler, registered by `map`, removes a listener from `n`. */
  ghost predicate ActionBounded<V>(ns: seq<Node<V>>, n: nat, a: Action) {
    match a
    case RemoveListener(s, _) => s < n
    case CloseNode(c, r) =>
      && n < c < |ns| && r == SourceClosedReason
      && |ns[c].closeHandlers| > 0 && ns[c].closeHandlers[0].RemoveListener? && ns[c].closeHandlers[0].source == n
    case Opaque(_) => true
  }

  /** A listener that `map` installed on `n` under `h` comes with its two close handlers:
      `n` closes the derived node, and the derived node removes `h` from `n`, as its first
      close handler. */
  ghost predicate ListenerLinked<V>(ns: seq<Node<V>>, mapperCount: nat, n: nat, h: Handle)
    requires n < |ns| && h in ns[n].listeners
  {
    match ns[n].listeners[h]
    case External(_) => true
    case Derived(c, m) =>
      && n < c < |ns|
      && m < mapperCount
      && CloseNode(c, SourceClosedReason) in ns[n].closeHandlers
      && RemoveListener(n, h) in ns[c].closeHandlers
      && |ns[c].closeHandlers| > 0 && ns[c].closeHandlers[0] == RemoveListener(n, h)
  }

  ghost predicate WellFormed<V>(ns: seq<Node<V>>, mapperCount: nat) {
    && (forall n, h :: 0 <= n < |ns| && h in ns[n].listeners ==> ListenerLinked(ns, mapperCount, n, h))
    && (forall n, i :: 0 <= n < |ns| && 0 <= i < |ns[n].closeHandlers| ==>
          ActionBounded(ns, n, ns[n].closeHandlers[i]))
  }

  /** How a node may change while changes propagate and nodes close: its close handlers stay,
      a recorded close reason stays, and listeners are only removed. */
  ghost predicate NodeEvolves<V>(a: Node<V>, b: Node<V>) {
    && b.closeHandlers == a.closeHandlers
    && (a.closeReason.Some? ==> b.closeReason == a.closeReason)
    && b.listeners.Keys <= a.listeners.Keys
    && (forall h :: h in b.listeners ==> b.listeners[h] == a.listeners[h])
  }

  ghost predicate Evolves<V>(ns: seq<Node<V>>, ns': seq<Node<V>>) {
    |ns'| == |ns| && forall i :: 0 <= i < |ns| ==> NodeEvolves(ns[i], ns'[i])
  }

  lemma EvolvesTrans<V>(a: seq<Node<V>>, b: seq<Node<V>>, c: seq<Node<V>>)
    requires Evolves(a, b) && Evolves(b, c)
    ensures Evolves(a, c)
  {
    forall i | 0 <= i < |a|
      ensures NodeEvolves(a[i], c[i])
    {
      assert NodeEvolves(a[i], b[i]) && NodeEvolves(b[i], c[i]);
    }
  }

  /** Propagation and closing keep the arena well formed. */
  lemma EvolvesKeepsWellFormed<V>(ns: seq<Node<V>>, ns': seq<Node<V>>, mapperCount: nat)
    requires WellFormed(ns, mapperCount) && Evolves(ns, ns')
    ensures WellFormed(ns', mapperCount)
  {
    forall n, h | 0 <= n < |ns'| && h in ns'[n].listeners
      ensures ListenerLinked(ns', mapperCount, n, h)
    {
      assert NodeEvolves(ns[n], ns'[n]);
      assert ListenerLinked(ns, mapperCount, n, h);
      match ns'[n].listeners[h]
      case External(_) =>
      case Derived(c, m) =>
        assert NodeEvolves(ns[c], ns'[c]);
    }
    forall n, i | 0 <= n < |ns'| && 0 <= i < |ns'[n].closeHandlers|
      ensures ActionBounded(ns', n, ns'[n].closeHandlers[i])
    {
      assert NodeEvolves(ns[n], ns'[n]);
      assert ActionBounded(ns, n, ns[n].closeHandlers[i]);
      if ns[n].closeHandlers[i].CloseNode? {
        assert NodeEvolves(ns[ns[n].closeHandlers[i].target], ns'[ns[n].closeHandlers[i].target]);
      }
    }
  }

  /** Node `c` accounts for the removal of listener `h` from node `n` between `ns0` and `ns`:
      it closed in between (or is excused in `extra`) and has a close handler removing `h`. */
  ghost predicate RemovedBy<V>(ns0: seq<Node<V>>, ns: seq<Node<V>>, extra: set<NodeId>,
                               n: NodeId, h: Handle, c: NodeId) {
    && c < |ns0| && c < |ns|
    && (ns0[c].closeReason.None? || c in extra)
    && ns[c].closeReason.Some?
    && RemoveListener(n, h) in ns[c].closeHandlers
  }

  /** Every listener entry gone between `ns0` and `ns` was removed by the close handler of a
      node that closed in between (or of a node in `extra`). */
  ghost predicate RemovalsExplained<V>(ns0: seq<Node<V>>, ns: seq<Node<V>>, extra: set<NodeId>) {
    forall n: NodeId, h :: n < |ns0| && n < |ns| && h in ns0[n].listeners && h !in ns[n].listeners ==>
      exists c :: RemovedBy(ns0, ns, extra, n, h, c)
  }

  lemma RemovalsExplainedWiden<V>(ns0: seq<Node<V>>, ns: seq<Node<V>>, e1: set<NodeId>, e2: set<NodeId>)
    requires RemovalsExplained(ns0, ns, e1) && e1 <= e2
    ensures RemovalsExplained(ns0, ns, e2)
  {
    forall n: NodeId, h | n < |ns0| && n < |ns| && h in ns0[n].listeners && h !in ns[n].listeners
      ensures exists c :: RemovedBy(ns0, ns, e2, n, h, c)
    {
      var c :| RemovedBy(ns0, ns, e1, n, h, c);
      assert RemovedBy(ns0, ns, e2, n, h, c);
    }
  }

  lemma RemovalsExplainedTrans<V>(a: seq<Node<V>>, b: seq<Node<V>>, c: seq<Node<V>>,
                                  e1: set<NodeId>, e2: set<NodeId>, e: set<NodeId>)
    requires Evolves(a, b) && Evolves(b, c)
    requires RemovalsExplained(a, b, e1) && RemovalsExplained(b, c, e2)
    requires e1 <= e && forall x :: x in e2 ==> x in e || (x < |a| && a[x].closeReason.None?)
    ensures RemovalsExplained(a, c, e)
  {
    forall n: NodeId, h | n < |a| && n < |c| && h in a[n].listeners && h !in c[n].listeners
      ensures exists x :: RemovedBy(a, c, e, n, h, x)
    {
      assert NodeEvolves(a[n], b[n]);
      if h !in b[n].listeners {
        var x: NodeId :| RemovedBy(a, b, e1, n, h, x);
        assert NodeEvolves(a[x], b[x]) && NodeEvolves(b[x], c[x]);
        assert RemovedBy(a, c, e, n, h, x);
      } else {
        var x: NodeId :| RemovedBy(b, c, e2, n, h, x);
        assert NodeEvolves(a[x], b[x]);
        assert RemovedBy(a, c, e, n, h, x);
      }
    }
  }

  /** The ids of the open nodes: the measure that makes cascading close terminate. */
  ghost function OpenIds<V>(ns: seq<Node<V>>): (open: set<nat>) {
    set i | 0 <= i < |ns| && ns[i].closeReason.None?
  }

  lemma EvolvesShrinksOpen<V>(ns: seq<Node<V>>, ns': seq<Node<V>>)
    requires Evolves(ns, ns')
    ensures OpenIds(ns') <= OpenIds(ns)
  {
    forall i | i in OpenIds(ns')
      ensures i in OpenIds(ns)
    {
      assert NodeEvolves(ns[i], ns'[i]);
    }
  }

  /** Closing an open node takes exactly that node out of the open set. */
  lemma CloseRemovesFromOpen<V>(ns: seq<Node<V>>, n: nat, r: CloseReason)
    requires n < |ns| && ns[n].closeReason.None?
    ensures OpenIds(ns[n := ns[n].(closeReason := Some(r))]) == OpenIds(ns) - {n}
    ensures n in OpenIds(ns)
  {
  }

  /** `path` follows close handlers: each node on it has a `CloseNode` handler for the next. */
  ghost predicate CascadePath<V>(ns: seq<Node<V>>, path: seq<nat>) {
    && |path| > 0
    && (forall i :: 0 <= i < |path| ==> path[i] < |ns|)
    && (forall i :: 0 < i < |path| ==> path[i] in CloseTargets(ns[path[i - 1]].closeHandlers))
  }

  /** Closing `from` can close `to`: `to` is `from` or is reached from it through close handlers. */
  ghost predicate Cascades<V>(ns: seq<Node<V>>, from: nat, to: nat) {
    exists path :: CascadePath(ns, path) && path[0] == from && path[|path| - 1] == to
  }

  lemma CascadesRefl<V>(ns: seq<Node<V>>, n: nat)
    requires n < |ns|
    ensures Cascades(ns, n, n)
  {
    assert CascadePath(ns, [n]);
  }

  /** The converse of `CascadesExtend`: a cascade from `n` to another node starts with one of
      the `CloseNode` handlers of `n`. */
  lemma CascadesFirstStep<V>(ns: seq<Node<V>>, n: nat, m: nat)
    requires Cascades(ns, n, m) && m != n
    ensures n < |ns| && exists c :: c in CloseTargets(ns[n].closeHandlers) && Cascades(ns, c, m)
  {
    var path :| CascadePath(ns, path) && path[0] == n && path[|path| - 1] == m;
    var rest := path[1..];
    assert path[1] in CloseTargets(ns[path[0]].closeHandlers);
    assert CascadePath(ns, rest) by {
      forall i | 0 < i < |rest|
        ensures rest[i] in CloseTargets(ns[rest[i - 1]].closeHandlers)
      {
        assert rest[i] == path[i + 1] && rest[i - 1] == path[i];
      }
    }
    assert rest[|rest| - 1] == m;
  }

  /** Closing a node without `CloseNode` handlers closes nothing else. */
  lemma CascadesFromLeaf<V>(ns: seq<Node<V>>, n: nat, m: nat)
    requires n < |ns| && CloseTargets(ns[n].closeHandlers) == {}
    ensures Cascades(ns, n, m) ==> m == n
  {
    if Cascades(ns, n, m) && m != n {
      CascadesFirstStep(ns, n, m);
    }
  }

  /** A close handler of `n` that closes `c` extends every cascade from `c` to one from `n`. */
  lemma CascadesExtend<V>(ns: seq<Node<V>>, n: nat, c: nat, m: nat)
    requires n < |ns| && c in CloseTargets(ns[n].closeHandlers) && Cascades(ns, c, m)
    ensures Cascades(ns, n, m)
  {
    var path :| CascadePath(ns, path) && path[0] == c && path[|path| - 1] == m;
    var path' := [n] + path;
    assert forall i :: 0 < i < |path'| ==> path'[i] == path[i - 1];
    assert CascadePath(ns, path');
  }

  /** The converse of `CascadesExtend` at the far end: a cascade into `g` from another node
      passes through the node whose `CloseNode` handler closes `g`; in a well-formed arena
      that is the node `g` was derived from. */
  lemma CascadesIntoParent<V>(ns: seq<Node<V>>, mapperCount: nat, from: nat, g: nat, p: NodeId)
    requires WellFormed(ns, mapperCount) && Cascades(ns, from, g) && from != g
    requires p < |ns| && g in CloseTargets(ns[p].closeHandlers)
    ensures Cascades(ns, from, p)
  {
    var path :| CascadePath(ns, path) && path[0] == from && path[|path| - 1] == g;
    var q := path[|path| - 2];
    var front := path[..|path| - 1];
    assert CascadePath(ns, front) by {
      forall i | 0 < i < |front|
        ensures front[i] in CloseTargets(ns[front[i - 1]].closeHandlers)
      {
        assert front[i] == path[i] && front[i - 1] == path[i - 1];
      }
    }
    assert front[|front| - 1] == q;
    ParentOfTarget(ns, mapperCount, q, g);
    ParentOfTarget(ns, mapperCount, p, g);
  }

  /** A node with a `CloseNode` handler for `g` is the source of `g`'s first close handler. */
  lemma ParentOfTarget<V>(ns: seq<Node<V>>, mapperCount: nat, p: NodeId, g: nat)
    requires WellFormed(ns, mapperCount) && p < |ns| && g in CloseTargets(ns[p].closeHandlers)
    ensures g < |ns| && |ns[g].closeHandlers| > 0 && ns[g].closeHandlers[0].RemoveListener?
    ensures ns[g].closeHandlers[0].source == p
  {
    var hs := ns[p].closeHandlers;
    var a :| a in hs && a.CloseNode? && a.target == g;
    var j :| 0 <= j < |hs| && hs[j] == a;
    assert ActionBounded(ns, p, hs[j]);
  }

  /** Two listeners that `map` installed on the same node lead to different derived nodes,
      and closing one of them never reaches the other. */
  lemma SiblingsApart<V>(ns: seq<Node<V>>, mapperCount: nat, c: NodeId, x: Handle, h: Handle)
    requires WellFormed(ns, mapperCount) && c < |ns| && x in ns[c].listeners && h in ns[c].listeners && x != h
    requires ns[c].listeners[x].Derived? && ns[c].listeners[h].Derived?
    ensures ns[c].listeners[h].child != ns[c].listeners[x].child
    ensures !Cascades(ns, ns[c].listeners[h].child, ns[c].listeners[x].child)
  {
    var g, g' := ns[c].listeners[x].child, ns[c].listeners[h].child;
    assert ListenerLinked(ns, mapperCount, c, x) && ListenerLinked(ns, mapperCount, c, h);
    if Cascades(ns, g', g) {
      assert g in CloseTargets(ns[c].closeHandlers);
      CascadesIntoParent(ns, mapperCount, g', g, c);
      CascadesForward(ns, mapperCount, g', c);
    }
  }

  /** A cascade into `g` from another node ends with a step from a node created before `g`
      whose `CloseNode` handler closes `g`. */
  lemma CascadesLastStep<V>(ns: seq<Node<V>>, mapperCount: nat, from: nat, g: nat)
    requires WellFormed(ns, mapperCount) && Cascades(ns, from, g) && from != g
    ensures exists p: NodeId :: p < g && p < |ns| && g in CloseTargets(ns[p].closeHandlers) && Cascades(ns, from, p)
  {
    var path :| CascadePath(ns, path) && path[0] == from && path[|path| - 1] == g;
    var q := path[|path| - 2];
    var front := path[..|path| - 1];
    assert CascadePath(ns, front) by {
      forall i | 0 < i < |front|
        ensures front[i] in CloseTargets(ns[front[i - 1]].closeHandlers)
      {
        assert front[i] == path[i] && front[i - 1] == path[i - 1];
      }
    }
    assert front[|front| - 1] == q;
    var hs := ns[q].closeHandlers;
    assert g in CloseTargets(hs);
    var a :| a in hs && a.CloseNode? && a.target == g;
    var j :| 0 <= j < |hs| && hs[j] == a;
    assert ActionBounded(ns, q, hs[j]);
  }

  /** Two cascades that reach the same node lie on one line: one start reaches the other. */
  lemma {:induction false} CascadesMeet<V>(ns: seq<Node<V>>, mapperCount: nat, a: nat, b: nat, k: nat)
    requires WellFormed(ns, mapperCount) && Cascades(ns, a, k) && Cascades(ns, b, k)
    ensures Cascades(ns, a, b) || Cascades(ns, b, a)
    decreases k
  {
    if a != k && b != k {
      CascadesLastStep(ns, mapperCount, a, k);
      var p: NodeId :| p < k && p < |ns| && k in CloseTargets(ns[p].closeHandlers) && Cascades(ns, a, p);
      CascadesIntoParent(ns, mapperCount, b, k, p);
      CascadesMeet(ns, mapperCount, a, b, p);
    }
  }

  /** No node is reached both from the derived nodes of two `map` listeners of one node. */
  lemma SiblingCascadesApart<V>(ns: seq<Node<V>>, mapperCount: nat, c: NodeId, x: Handle, h: Handle, k: nat)
    requires WellFormed(ns, mapperCount) && c < |ns| && x in ns[c].listeners && h in ns[c].listeners && x != h
    requires ns[c].listeners[x].Derived? && ns[c].listeners[h].Derived?
    ensures Cascades(ns, ns[c].listeners[x].child, k) ==> !Cascades(ns, ns[c].listeners[h].child, k)
  {
    if Cascades(ns, ns[c].listeners[x].child, k) && Cascades(ns, ns[c].listeners[h].child, k) {
      SiblingsApart(ns, mapperCount, c, x, h);
      SiblingsApart(ns, mapperCount, c, h, x);
      CascadesMeet(ns, mapperCount, ns[c].listeners[x].child, ns[c].listeners[h].child, k);
    }
  }

  /** Cascades depend on nothing but the close handlers. */
  lemma CascadesSameHandlers<V>(ns: seq<Node<V>>, ns': seq<Node<V>>, from: nat, to: nat)
    requires |ns'| == |ns| && Cascades(ns, from, to)
    requires forall i :: 0 <= i < |ns| ==> ns'[i].closeHandlers == ns[i].closeHandlers
    ensures Cascades(ns', from, to)
  {
    var path :| CascadePath(ns, path) && path[0] == from && path[|path| - 1] == to;
    assert CascadePath(ns', path);
  }

  /** Evolving the arena keeps the close handlers, so it adds no cascade. */
  lemma CascadesBack<V>(ns0: seq<Node<V>>, ns: seq<Node<V>>, from: nat, to: nat)
    requires Evolves(ns0, ns)
    ensures Cascades(ns, from, to) ==> Cascades(ns0, from, to)
  {
    if Cascades(ns, from, to) {
      forall i | 0 <= i < |ns|
        ensures ns0[i].closeHandlers == ns[i].closeHandlers
      {
        assert NodeEvolves(ns0[i], ns[i]);
      }
      CascadesSameHandlers(ns, ns0, from, to);
    }
  }

  /** Along a cascade the node ids grow: closing a node never closes the node it was mapped
      from, nor any other node created before it. */
  lemma {:induction false} CascadesForward<V>(ns: seq<Node<V>>, mapperCount: nat, from: nat, to: nat)
    requires WellFormed(ns, mapperCount) && Cascades(ns, from, to)
    ensures from <= to
  {
    var path :| CascadePath(ns, path) && path[0] == from && path[|path| - 1] == to;
    PathForward(ns, mapperCount, path, |path| - 1);
  }

  lemma {:induction false} PathForward<V>(ns: seq<Node<V>>, mapperCount: nat, path: seq<nat>, k: nat)
    requires WellFormed(ns, mapperCount) && CascadePath(ns, path) && k < |path|
    ensures path[0] <= path[k]
  {
    if k > 0 {
      PathForward(ns, mapperCount, path, k - 1);
      var hs := ns[path[k - 1]].closeHandlers;
      assert path[k] in CloseTargets(hs);
      var a :| a in hs && a.CloseNode? && a.target == path[k];
      var j :| 0 <= j < |hs| && hs[j] == a;
      assert ActionBounded(ns, path[k - 1], hs[j]);
    }
  }

  /** [0, 1, ..., k - 1]: the order in which a node's close handlers run. */
  function Upto(k: nat): (s: seq<nat>)
    ensures |s| == k && forall i :: 0 <= i < k ==> s[i] == i
  {
    if k == 0 then [] else Upto(k - 1) + [k - 1]
  }

  /** The indices of the close handlers of node `n` that `log` records, in the order they ran. */
  function RunsAt(log: seq<Run>, n: nat): (indices: seq<nat>) {
    if log == [] then []
    else RunsAt(log[..|log| - 1], n) + (if log[|log| - 1].node == n then [log[|log| - 1].index] else [])
  }

  lemma {:induction false} RunsAtConcat(a: seq<Run>, b: seq<Run>, n: nat)
    ensures RunsAt(a + b, n) == RunsAt(a, n) + RunsAt(b, n)
  {
    if b == [] {
      assert a + b == a;
    } else {
      var b' := b[..|b| - 1];
      assert (a + b)[..|a + b| - 1] == a + b';
      RunsAtConcat(a, b', n);
    }
  }

  lemma {:induction false} RunsAtNone(log: seq<Run>, n: nat)
    requires forall k :: 0 <= k < |log| ==> log[k].node != n
    ensures RunsAt(log, n) == []
  {
    if log != [] {
      RunsAtNone(log[..|log| - 1], n);
    }
  }

  /** `log` grew from `log0` only by runs of handlers of nodes that were open in `ns0` and
      are closed in `ns`. */
  ghost predicate RunsGrow<V>(log0: seq<Run>, log: seq<Run>, ns0: seq<Node<V>>, ns: seq<Node<V>>) {
    && |log0| <= |log| && log[..|log0|] == log0
    && forall k :: |log0| <= k < |log| ==>
         && log[k].node < |ns0| && log[k].node < |ns|
         && ns0[log[k].node].closeReason.None? && ns[log[k].node].closeReason.Some?
  }

  lemma RunsGrowRefl<V>(log: seq<Run>, ns: seq<Node<V>>)
    ensures RunsGrow(log, log, ns, ns)
  {
  }

  lemma RunsGrowTrans<V>(l0: seq<Run>, l1: seq<Run>, l2: seq<Run>,
                         n0: seq<Node<V>>, n1: seq<Node<V>>, n2: seq<Node<V>>)
    requires Evolves(n0, n1) && Evolves(n1, n2)
    requires RunsGrow(l0, l1, n0, n1) && RunsGrow(l1, l2, n1, n2)
    ensures RunsGrow(l0, l2, n0, n2)
  {
    assert l2[..|l0|] == l2[..|l1|][..|l0|];
    forall k | |l0| <= k < |l2|
      ensures && l2[k].node < |n0| && l2[k].node < |n2|
              && n0[l2[k].node].closeReason.None? && n2[l2[k].node].closeReason.Some?
    {
      var x := l2[k].node;
      if k < |l1| {
        assert l2[k] == l1[k];
        assert NodeEvolves(n1[x], n2[x]);
      } else {
        assert NodeEvolves(n0[x], n1[x]);
      }
    }
  }

  /** A node already closed when a log of handler runs starts gets no run in it: a handler
      `onClose` adds to a closed node never runs. */
  lemma ClosedNodeRunsNothing<V>(log0: seq<Run>, log: seq<Run>, ns0: seq<Node<V>>, ns: seq<Node<V>>, n: NodeId)
    requires RunsGrow(log0, log, ns0, ns) && n < |ns0| && ns0[n].closeReason.Some?
    ensures RunsAt(log[|log0|..], n) == []
  {
    forall k | 0 <= k < |log[|log0|..]|
      ensures log[|log0|..][k].node != n
    {
      assert log[|log0|..][k] == log[|log0| + k];
    }
    RunsAtNone(log[|log0|..], n);
  }

  /** A node still open when a log of handler runs ends got no run in it. */
  lemma OpenNodeRunsNothing<V>(log0: seq<Run>, log: seq<Run>, ns0: seq<Node<V>>, ns: seq<Node<V>>, n: NodeId)
    requires RunsGrow(log0, log, ns0, ns) && n < |ns| && ns[n].closeReason.None?
    ensures RunsAt(log[|log0|..], n) == []
  {
    forall k | 0 <= k < |log[|log0|..]|
      ensures log[|log0|..][k].node != n
    {
      assert log[|log0|..][k] == log[|log0| + k];
    }
    RunsAtNone(log[|log0|..], n);
  }

  /** Node `m` closed between `ns0` and `ns`: open before, closed now. */
  ghost predicate NewlyClosed<V>(ns0: seq<Node<V>>, ns: seq<Node<V>>, m: NodeId) {
    m < |ns0| && m < |ns| && ns0[m].closeReason.None? && ns[m].closeReason.Some?
  }

  /** The first `i` handlers of `hs` have done their work in `ns`: the nodes they close are
      closed and the listeners they remove are gone. */
  ghost predicate HandlersDone<V>(ns: seq<Node<V>>, hs: seq<Action>, i: nat)
    requires i <= |hs|
  {
    && (forall j :: 0 <= j < i && hs[j].CloseNode? ==>
          hs[j].target < |ns| && ns[hs[j].target].closeReason.Some?)
    && (forall j :: 0 <= j < i && hs[j].RemoveListener? ==>
          hs[j].source < |ns| && hs[j].handle !in ns[hs[j].source].listeners)
  }

  /** Work done by close handlers stays done while the arena evolves. */
  lemma HandlersDoneKept<V>(ns0: seq<Node<V>>, ns1: seq<Node<V>>, hs: seq<Action>, i: nat)
    requires i <= |hs| && Evolves(ns0, ns1) && HandlersDone(ns0, hs, i)
    ensures HandlersDone(ns1, hs, i)
  {
    forall j | 0 <= j < i
      ensures hs[j].CloseNode? ==> ns1[hs[j].target].closeReason.Some?
      ensures hs[j].RemoveListener? ==> hs[j].handle !in ns1[hs[j].source].listeners
    {
      match hs[j]
      case CloseNode(c, _) => assert NodeEvolves(ns0[c], ns1[c]);
      case RemoveListener(src, _) => assert NodeEvolves(ns0[src], ns1[src]);
      case Opaque(_) =>
    }
  }

  lemma HandlersDoneStep<V>(ns0: seq<Node<V>>, ns1: seq<Node<V>>, hs: seq<Action>, i: nat)
    requires i < |hs| && Evolves(ns0, ns1) && HandlersDone(ns0, hs, i)
    requires hs[i].CloseNode? ==> hs[i].target < |ns1| && ns1[hs[i].target].closeReason.Some?
    requires hs[i].RemoveListener? ==> hs[i].source < |ns1| && hs[i].handle !in ns1[hs[i].source].listeners
    ensures HandlersDone(ns1, hs, i + 1)
  {
    HandlersDoneKept(ns0, ns1, hs, i);
  }

  /** Every node that closed between `ns0` and `ns` has run all its close handlers, so what
      they had to do is done. */
  ghost predicate ClosesCompleted<V>(ns0: seq<Node<V>>, ns: seq<Node<V>>) {
    forall m: NodeId :: NewlyClosed(ns0, ns, m) ==> HandlersDone(ns, ns[m].closeHandlers, |ns[m].closeHandlers|)
  }

  lemma ClosesCompletedTrans<V>(a: seq<Node<V>>, b: seq<Node<V>>, c: seq<Node<V>>)
    requires Evolves(a, b) && Evolves(b, c) && ClosesCompleted(a, b) && ClosesCompleted(b, c)
    ensures ClosesCompleted(a, c)
  {
    forall m: NodeId | NewlyClosed(a, c, m)
      ensures HandlersDone(c, c[m].closeHandlers, |c[m].closeHandlers|)
    {
      assert NodeEvolves(a[m], b[m]) && NodeEvolves(b[m], c[m]);
      if b[m].closeReason.Some? {
        assert NewlyClosed(a, b, m);
        HandlersDoneKept(b, c, b[m].closeHandlers, |b[m].closeHandlers|);
      } else {
        assert NewlyClosed(b, c, m);
      }
    }
  }

  /** Every node that closed between `ns0` and `ns` ran each of its close handlers exactly
      once, in registration order, among the runs logged after `runs0`. */
  ghost predicate RunsComplete<V>(ns0: seq<Node<V>>, ns: seq<Node<V>>, runs0: seq<Run>, runs: seq<Run>) {
    && |runs0| <= |runs|
    && forall m: NodeId :: NewlyClosed(ns0, ns, m) ==> RunsAt(runs[|runs0|..], m) == Upto(|ns[m].closeHandlers|)
  }

  lemma RunsCompleteTrans<V>(a: seq<Node<V>>, b: seq<Node<V>>, c: seq<Node<V>>,
                             r0: seq<Run>, r1: seq<Run>, r2: seq<Run>)
    requires Evolves(a, b) && Evolves(b, c) && RunsGrow(r0, r1, a, b) && RunsGrow(r1, r2, b, c)
    requires RunsComplete(a, b, r0, r1) && RunsComplete(b, c, r1, r2)
    ensures RunsComplete(a, c, r0, r2)
  {
    assert r2[|r0|..] == r1[|r0|..] + r2[|r1|..] by {
      assert r2[..|r1|] == r1;
    }
    forall m: NodeId | NewlyClosed(a, c, m)
      ensures RunsAt(r2[|r0|..], m) == Upto(|c[m].closeHandlers|)
    {
      assert NodeEvolves(a[m], b[m]) && NodeEvolves(b[m], c[m]);
      RunsAtConcat(r1[|r0|..], r2[|r1|..], m);
      if b[m].closeReason.Some? {
        assert NewlyClosed(a, b, m);
        ClosedNodeRunsNothing(r1, r2, b, c, m);
      } else {
        assert NewlyClosed(b, c, m);
        OpenNodeRunsNothing(r0, r1, a, b, m);
      }
    }
  }

  /** No teardown is left half done: every `CloseNode` target of a closed node is closed. */
  ghost predicate TornDown<V>(ns: seq<Node<V>>) {
    forall m, j :: 0 <= m < |ns| && 0 <= j < |ns[m].closeHandlers| && ns[m].closeReason.Some? &&
                   ns[m].closeHandlers[j].CloseNode? ==>
      ns[m].closeHandlers[j].target < |ns| && ns[ns[m].closeHandlers[j].target].closeReason.Some?
  }

  lemma TornDownAt<V>(ns: seq<Node<V>>, m: NodeId, t: NodeId)
    requires TornDown(ns) && m < |ns| && ns[m].closeReason.Some? && t in CloseTargets(ns[m].closeHandlers)
    ensures t < |ns| && ns[t].closeReason.Some?
  {
    var hs := ns[m].closeHandlers;
    var a :| a in hs && a.CloseNode? && a.target == t;
    var j :| 0 <= j < |hs| && hs[j] == a;
    assert ns[m].closeHandlers[j] == a;
  }

  /** Evolving the arena by closes that all ran to completion keeps `TornDown`. */
  lemma TornDownKept<V>(ns0: seq<Node<V>>, ns: seq<Node<V>>)
    requires Evolves(ns0, ns) && ClosesCompleted(ns0, ns)
    ensures TornDown(ns0) ==> TornDown(ns)
  {
    if TornDown(ns0) {
      forall m, j | 0 <= m < |ns| && 0 <= j < |ns[m].closeHandlers| && ns[m].closeReason.Some? &&
                    ns[m].closeHandlers[j].CloseNode?
        ensures ns[m].closeHandlers[j].target < |ns| && ns[ns[m].closeHandlers[j].target].closeReason.Some?
      {
        assert NodeEvolves(ns0[m], ns[m]);
        var hs := ns[m].closeHandlers;
        var t := hs[j].target;
        if ns0[m].closeReason.Some? {
          assert ns0[m].closeHandlers[j] == hs[j];
          assert NodeEvolves(ns0[t], ns[t]);
        } else {
          assert NewlyClosed(ns0, ns, m);
          assert HandlersDone(ns, hs, |hs|);
        }
      }
    }
  }

  /** Edits that close nothing, open only new nodes and give closed nodes no new `CloseNode`
      target keep `TornDown`. */
  lemma TornDownFrame<V>(ns0: seq<Node<V>>, ns: seq<Node<V>>)
    requires |ns0| <= |ns|
    requires forall m :: 0 <= m < |ns0| ==> ns[m].closeReason == ns0[m].closeReason
    requires forall m :: |ns0| <= m < |ns| ==> ns[m].closeReason.None?
    requires forall m :: 0 <= m < |ns0| && ns[m].closeReason.Some? ==>
               CloseTargets(ns[m].closeHandlers) <= CloseTargets(ns0[m].closeHandlers)
    ensures TornDown(ns0) ==> TornDown(ns)
  {
    if TornDown(ns0) {
      forall m, j | 0 <= m < |ns| && 0 <= j < |ns[m].closeHandlers| && ns[m].closeReason.Some? &&
                    ns[m].closeHandlers[j].CloseNode?
        ensures ns[m].closeHandlers[j].target < |ns| && ns[ns[m].closeHandlers[j].target].closeReason.Some?
      {
        assert m < |ns0|;
        var t := ns[m].closeHandlers[j].target;
        assert t in CloseTargets(ns[m].closeHandlers);
        TornDownAt(ns0, m, t);
      }
    }
  }

  lemma {:induction false} PathClosed<V>(ns: seq<Node<V>>, path: seq<nat>, k: nat)
    requires TornDown(ns) && CascadePath(ns, path) && ns[path[0]].closeReason.Some? && k < |path|
    ensures ns[path[k]].closeReason.Some?
  {
    if k > 0 {
      PathClosed(ns, path, k - 1);
      TornDownAt(ns, path[k - 1], path[k]);
    }
  }

  /** In a torn-down arena, everything reached from a closed node through close handlers is closed. */
  lemma TornDownReaches<V>(ns: seq<Node<V>>, n: NodeId, m: nat)
    requires TornDown(ns) && n < |ns| && ns[n].closeReason.Some? && Cascades(ns, n, m)
    ensures m < |ns| && ns[m].closeReason.Some?
  {
    var path :| CascadePath(ns, path) && path[0] == n && path[|path| - 1] == m;
    PathClosed(ns, path, |path| - 1);
  }

  /** Closing `n` from a torn-down arena, with every close run to completion, leaves the arena
      torn down and closes every node reached from `n`. */
  lemma TeardownComplete<V>(ns0: seq<Node<V>>, ns: seq<Node<V>>, n: NodeId)
    requires Evolves(ns0, ns) && ClosesCompleted(ns0, ns) && n < |ns| && ns[n].closeReason.Some?
    ensures TornDown(ns0) ==>
              && TornDown(ns)
              && forall m: NodeId :: Cascades(ns0, n, m) ==> m < |ns| && ns[m].closeReason.Some?
  {
    TornDownKept(ns0, ns);
    if TornDown(ns0) {
      forall m: NodeId | Cascades(ns0, n, m)
        ensures m < |ns| && ns[m].closeReason.Some?
      {
        forall i | 0 <= i < |ns0|
          ensures ns[i].closeHandlers == ns0[i].closeHandlers
        {
          assert NodeEvolves(ns0[i], ns[i]);
        }
        CascadesSameHandlers(ns0, ns, n, m);
        TornDownReaches(ns, n, m);
      }
    }
  }

  /** Every listener `map` installed leads to an open derived node: a derived node that has
      closed and run its handlers has taken its listener off the source. */
  ghost predicate Attached<V>(ns: seq<Node<V>>) {
    forall n, h :: 0 <= n < |ns| && h in ns[n].listeners && ns[n].listeners[h].Derived? ==>
      ns[n].listeners[h].child < |ns| && ns[ns[n].listeners[h].child].closeReason.None?
  }

  /** No close is half done: what holds between the public operations, while it does not in
      the middle of a `close`. */
  ghost predicate AtRest<V>(ns: seq<Node<V>>) {
    TornDown(ns) && Attached(ns)
  }

  /** Evolving the arena by closes that all ran to completion keeps `Attached`. */
  lemma AttachedKept<V>(ns0: seq<Node<V>>, ns: seq<Node<V>>, mapperCount: nat)
    requires WellFormed(ns0, mapperCount) && Evolves(ns0, ns) && ClosesCompleted(ns0, ns)
    ensures Attached(ns0) ==> Attached(ns)
  {
    if Attached(ns0) {
      forall n, h | 0 <= n < |ns| && h in ns[n].listeners && ns[n].listeners[h].Derived?
        ensures ns[n].listeners[h].child < |ns| && ns[ns[n].listeners[h].child].closeReason.None?
      {
        assert NodeEvolves(ns0[n], ns[n]);
        var g := ns[n].listeners[h].child;
        assert ListenerLinked(ns0, mapperCount, n, h);
        assert NodeEvolves(ns0[g], ns[g]);
      }
    }
  }

  lemma AtRestKept<V>(ns0: seq<Node<V>>, ns: seq<Node<V>>, mapperCount: nat)
    requires WellFormed(ns0, mapperCount) && Evolves(ns0, ns) && ClosesCompleted(ns0, ns)
    ensures AtRest(ns0) ==> AtRest(ns)
  {
    TornDownKept(ns0, ns);
    AttachedKept(ns0, ns, mapperCount);
  }

  /** Edits that close nothing, open only new nodes and add only listeners to new nodes keep
      `Attached`. */
  lemma AttachedFrame<V>(ns0: seq<Node<V>>, ns: seq<Node<V>>)
    requires |ns0| <= |ns|
    requires forall m :: 0 <= m < |ns0| ==> ns[m].closeReason == ns0[m].closeReason
    requires forall m :: |ns0| <= m < |ns| ==> ns[m].closeReason.None?
    requires forall n, h :: 0 <= n < |ns| && h in ns[n].listeners && ns[n].listeners[h].Derived? ==>
               || (n < |ns0| && h in ns0[n].listeners && ns0[n].listeners[h] == ns[n].listeners[h])
               || |ns0| <= ns[n].listeners[h].child < |ns|
    ensures Attached(ns0) ==> Attached(ns)
  {
  }

  /** The arena `ns` differs from `ns0` in node values at most. */
  ghost predicate OnlyValues<V>(ns0: seq<Node<V>>, ns: seq<Node<V>>) {
    |ns| == |ns0| && forall k :: 0 <= k < |ns0| ==> ns[k] == ns0[k].(value := ns[k].value)
  }

  lemma OnlyValuesRefl<V>(ns: seq<Node<V>>)
    ensures OnlyValues(ns, ns)
  {
    forall k | 0 <= k < |ns|
      ensures ns[k] == ns[k].(value := ns[k].value)
    {
    }
  }

  lemma OnlyValuesTrans<V>(a: seq<Node<V>>, b: seq<Node<V>>, c: seq<Node<V>>)
    requires OnlyValues(a, b) && OnlyValues(b, c)
    ensures OnlyValues(a, c)
  {
    forall k | 0 <= k < |a|
      ensures c[k] == a[k].(value := c[k].value)
    {
      assert b[k] == a[k].(value := b[k].value);
    }
  }

  /** Changing values keeps `AtRest` either way. */
  lemma AtRestValues<V>(ns0: seq<Node<V>>, ns: seq<Node<V>>)
    requires OnlyValues(ns0, ns)
    ensures AtRest(ns0) <==> AtRest(ns)
  {
    assert forall k :: 0 <= k < |ns0| ==>
      ns[k].closeReason == ns0[k].closeReason && ns[k].closeHandlers == ns0[k].closeHandlers &&
      ns[k].listeners == ns0[k].listeners;
  }

  /** In an arena at rest, a listener `map` installed connects two open nodes. */
  lemma LiveEdge<V>(ns: seq<Node<V>>, mapperCount: nat, n: NodeId, h: Handle)
    requires WellFormed(ns, mapperCount) && AtRest(ns) && n < |ns| && h in ns[n].listeners
    requires ns[n].listeners[h].Derived?
    ensures ns[n].listeners[h].child < |ns| && ns[ns[n].listeners[h].child].closeReason.None?
    ensures ns[n].closeReason.None?
  {
    var g := ns[n].listeners[h].child;
    assert ListenerLinked(ns, mapperCount, n, h);
    assert g in CloseTargets(ns[n].closeHandlers);
    if ns[n].closeReason.Some? {
      TornDownAt(ns, n, g);
    }
  }

  /** A step that closes nothing changes node values at most. */
  lemma NoCloseOnlyValues<V>(ns0: seq<Node<V>>, ns: seq<Node<V>>)
    requires Evolves(ns0, ns) && RemovalsExplained(ns0, ns, {})
    requires forall k :: 0 <= k < |ns0| ==> ns[k].closeReason == ns0[k].closeReason
    ensures OnlyValues(ns0, ns)
  {
    forall k | 0 <= k < |ns0|
      ensures ns[k] == ns0[k].(value := ns[k].value)
    {
      assert NodeEvolves(ns0[k], ns[k]);
      forall x | x in ns0[k].listeners
        ensures x in ns[k].listeners
      {
        assert forall y: NodeId :: !RemovedBy(ns0, ns, {}, k, x, y);
      }
      assert ns[k].listeners.Keys == ns0[k].listeners.Keys;
      assert forall x :: x in ns0[k].listeners ==> ns[k].listeners[x] == ns0[k].listeners[x];
      assert ns[k].listeners == ns0[k].listeners;
    }
  }

  /** Only nodes reached from `c` through close handlers (with `ListenerLinked`, every node
      derived from `c`, directly or not) changed value or close reason between `ns0` and `ns`;
      in particular every node that closed is reached from `c`. */
  ghost predicate Confined<V>(ns0: seq<Node<V>>, ns: seq<Node<V>>, c: NodeId) {
    forall k: NodeId :: k < |ns0| && k < |ns| && !Cascades(ns0, c, k) ==>
      ns[k].value == ns0[k].value && ns[k].closeReason == ns0[k].closeReason
  }

  lemma ConfinedTrans<V>(a: seq<Node<V>>, b: seq<Node<V>>, d: seq<Node<V>>, c: NodeId)
    requires Evolves(a, b) && Confined(a, b, c) && Confined(b, d, c)
    ensures Confined(a, d, c)
  {
    forall k: NodeId | k < |a| && k < |d| && !Cascades(a, c, k)
      ensures d[k].value == a[k].value && d[k].closeReason == a[k].closeReason
    {
      if Cascades(b, c, k) {
        forall i | 0 <= i < |b|
          ensures a[i].closeHandlers == b[i].closeHandlers
        {
          assert NodeEvolves(a[i], b[i]);
        }
        CascadesSameHandlers(b, a, c, k);
      }
    }
  }

  /** A change confined to `g` is confined to any node with a `CloseNode` handler for `g`. */
  lemma ConfinedWiden<V>(a: seq<Node<V>>, b: seq<Node<V>>, c: NodeId, g: NodeId)
    requires c < |a| && g in CloseTargets(a[c].closeHandlers) && Confined(a, b, g)
    ensures Confined(a, b, c)
  {
    forall k: NodeId | k < |a| && k < |b| && !Cascades(a, c, k)
      ensures b[k].value == a[k].value && b[k].closeReason == a[k].closeReason
    {
      if Cascades(a, g, k) {
        CascadesExtend(a, c, g, k);
      }
    }
  }

  /** A step that changes no value and closes only nodes reached from `c` is confined to `c`. */
  lemma ConfinedByCascade<V>(ns0: seq<Node<V>>, ns: seq<Node<V>>, c: NodeId)
    requires Evolves(ns0, ns)
    requires forall k :: 0 <= k < |ns0| ==> ns[k].value == ns0[k].value
    requires forall m :: NewlyClosed(ns0, ns, m) ==> Cascades(ns0, c, m)
    ensures Confined(ns0, ns, c)
  {
    forall k: NodeId | k < |ns0| && k < |ns| && !Cascades(ns0, c, k)
      ensures ns[k].closeReason == ns0[k].closeReason
    {
      assert NodeEvolves(ns0[k], ns[k]);
      assert !NewlyClosed(ns0, ns, k);
    }
  }

  /** What closing and propagating leave alone between arena `ns0` with run log `runs0` and
      arena `ns` with log `runs`: nodes only evolve, values of nodes below `valuesBelow` and
      close reasons of nodes below `reasonsBelow` stay, handlers ran only on nodes that closed
      in between, listeners were removed only by the close handlers of such nodes, and each of
      those nodes ran each of its close handlers once, in order, and their work is done. */
  ghost predicate Settled<V>(ns0: seq<Node<V>>, ns: seq<Node<V>>, runs0: seq<Run>, runs: seq<Run>,
                             valuesBelow: nat, reasonsBelow: nat) {
    && Evolves(ns0, ns)
    && (forall k :: 0 <= k < valuesBelow && k < |ns0| ==> ns[k].value == ns0[k].value)
    && (forall k :: 0 <= k < reasonsBelow && k < |ns0| ==> ns[k].closeReason == ns0[k].closeReason)
    && RunsGrow(runs0, runs, ns0, ns)
    && RemovalsExplained(ns0, ns, {})
    && ClosesCompleted(ns0, ns)
    && RunsComplete(ns0, ns, runs0, runs)
  }

  lemma SettledRefl<V>(ns: seq<Node<V>>, runs: seq<Run>, valuesBelow: nat, reasonsBelow: nat)
    ensures Settled(ns, ns, runs, runs, valuesBelow, reasonsBelow)
  {
    RunsGrowRefl(runs, ns);
  }

  lemma SettledTrans<V>(a: seq<Node<V>>, b: seq<Node<V>>, c: seq<Node<V>>,
                        r0: seq<Run>, r1: seq<Run>, r2: seq<Run>,
                        v1: nat, q1: nat, v2: nat, q2: nat, v: nat, q: nat)
    requires Settled(a, b, r0, r1, v1, q1) && Settled(b, c, r1, r2, v2, q2)
    requires v <= v1 && v <= v2 && q <= q1 && q <= q2
    ensures Settled(a, c, r0, r2, v, q)
  {
    EvolvesTrans(a, b, c);
    RunsGrowTrans(r0, r1, r2, a, b, c);
    RemovalsExplainedTrans(a, b, c, {}, {}, {});
    ClosesCompletedTrans(a, b, c);
    RunsCompleteTrans(a, b, c, r0, r1, r2);
  }

  /** Some element of a non-empty set. */
  ghost function PickElement<T>(s: set<T>): (y: T)
    requires s != {}
    ensures y in s
  {
    var y :| y in s; y
  }

  /** An integer above every element of `s`. */
  ghost function Above(s: set<int>): (b: int)
    ensures forall x :: x in s ==> x < b
    decreases s
  {
    if s == {} then 0
    else
      var y := PickElement(s);
      var r := Above(s - {y});
      assert forall x :: x in s ==> x == y || x in s - {y};
      if y < r then r else y + 1
  }

  /** A key not yet used as a handle: there always is one, which is all the random 64-bit
      handle of `addListener` in KVal.kt relies on. */
  lemma FreshHandleExists(used: set<Handle>)
    ensures exists h: Handle :: h !in used
  {
    assert Above(used) !in used;
  }
}
