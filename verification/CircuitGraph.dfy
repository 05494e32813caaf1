/** The flattened node graph of a circuit, its validation, and the depth-first check
    that only registers close cycles. */
module CircuitGraph {
  import opened Fsm
  import opened Ops

  datatype CombOperator =
    | CombAdd | CombSub | CombMul | DivUnsigned | DivSigned | ModUnsigned | ModSigned
    | CombAnd | CombOr | CombXor | ShiftLeft | ShiftRightSigned | ShiftRightUnsigned

  datatype Operation =
    | ConstantOp(spelling: string)
    | CombOp(operator: CombOperator)
    | CompareOp(comparison: Comparison, signed: bool)
    | MuxOp
    | UnionExtractOp(offset: nat)
    | BitcastOp
    | JoinOp // concatenation, and creation of arrays
    | ReplicateOp
    | ExtractOp(offset: nat)
    | ArrayGetOp(size: nat, elementWidth: nat)
    | ArrayInjectOp(size: nat, elementWidth: nat)
    | ToClockOp
    | RegisterOp(preset: Option<string>)

  datatype NodeDriver = Pending | External | Alias(other: nat) | Computed(operation: Operation, args: seq<nat>)

  datatype Node = Node(width: nat, driver: NodeDriver) {
    predicate Register() {
      driver.Computed? && driver.operation.RegisterOp?
    }
  }

  type Graph = seq<Node>

  /** What a node is computed from within a cycle. */
  function Sources(node: Node): seq<nat> {
    match node.driver
    case Alias(other) => [other]
    case Computed(_, args) => args
    case _ => []
  }

  predicate EdgesInRange(graph: Graph) {
    forall id, k :: 0 <= id < |graph| && 0 <= k < |Sources(graph[id])| ==> Sources(graph[id])[k] < |graph|
  }

  // ----- cycles -----

  /** A combinational edge: `from` needs `to` in the same cycle. */
  predicate Needs(graph: Graph, from: nat, to: nat) {
    && from < |graph| && to < |graph|
    && !graph[from].Register() && !graph[to].Register()
    && to in Sources(graph[from])
  }

  ghost predicate Path(graph: Graph, path: seq<nat>) {
    forall k {:trigger path[k]} :: 0 < k < |path| ==> Needs(graph, path[k - 1], path[k])
  }

  ghost predicate CycleExists(graph: Graph) {
    exists path: seq<nat> :: |path| > 1 && Path(graph, path) && path[0] == path[|path| - 1]
  }

  ghost predicate Unresolved(graph: Graph) {
    exists id :: 0 <= id < |graph| && graph[id].driver.Pending?
  }

  /** Nodes listed after everything they need. */
  ghost predicate Topological(graph: Graph, order: seq<nat>) {
    && (forall k :: 0 <= k < |order| ==> order[k] < |graph|)
    && (forall j, k :: 0 <= j < k < |order| ==> order[j] != order[k])
    && (forall k :: 0 <= k < |order| ==> !graph[order[k]].Register() && !graph[order[k]].driver.Pending?)
    && (forall k, to :: 0 <= k < |order| && Needs(graph, order[k], to) ==> to in order[..k])
  }

  ghost function IndexIn(order: seq<nat>, id: nat): (k: nat)
    requires id in order
    ensures k < |order| && order[k] == id
  {
    var k :| 0 <= k < |order| && order[k] == id;
    k
  }

  lemma PathPrefix(graph: Graph, path: seq<nat>, n: nat)
    requires Path(graph, path) && n <= |path|
    ensures Path(graph, path[..n])
  {
    var shorter := path[..n];
    forall k {:trigger shorter[k]} | 0 < k < |shorter|
      ensures Needs(graph, shorter[k - 1], shorter[k])
    {
      assert shorter[k] == path[k] && shorter[k - 1] == path[k - 1];
    }
  }

  lemma NeededEarlier(graph: Graph, order: seq<nat>, from: nat, to: nat)
    requires Topological(graph, order) && from in order && Needs(graph, from, to)
    ensures to in order && IndexIn(order, to) < IndexIn(order, from)
  {
    var k := IndexIn(order, from);
    assert to in order[..k];
    var j :| 0 <= j < k && order[j] == to;
    assert order[IndexIn(order, to)] == order[j];
  }

  /** Along a path of listed nodes positions fall, so no path returns to its start. */
  lemma {:induction false} PositionsFall(graph: Graph, order: seq<nat>, path: seq<nat>)
    requires Topological(graph, order) && |path| > 1 && Path(graph, path) && path[0] in order
    ensures path[|path| - 1] in order && IndexIn(order, path[|path| - 1]) < IndexIn(order, path[0])
    decreases |path|
  {
    hide Topological;
    hide Needs;
    var last := |path| - 1;
    PathPrefix(graph, path, last);
    if last > 1 {
      PositionsFall(graph, order, path[..last]);
    }
    assert path[last] == path[last];
    NeededEarlier(graph, order, path[last - 1], path[last]);
  }

  lemma TopologicalHasNoCycle(graph: Graph, order: seq<nat>)
    requires Topological(graph, order)
    requires forall id :: 0 <= id < |graph| && !graph[id].Register() ==> id in order
    ensures !CycleExists(graph) && !exists id :: 0 <= id < |graph| && graph[id].driver.Pending?
  {
    if CycleExists(graph) {
      var path: seq<nat> :| |path| > 1 && Path(graph, path) && path[0] == path[|path| - 1];
      assert path[1] == path[1] && Needs(graph, path[0], path[1]);
      PositionsFall(graph, order, path);
    }
  }

  // ----- the check -----

  const WHITE: nat := 0
  const GREY: nat := 1
  const BLACK: nat := 2

  /** Colours during the search: the grey nodes are the path to the current one, the
      black ones are finished. */
  ghost predicate Coloured(graph: Graph, visits: seq<nat>, path: seq<nat>, finished: seq<nat>) {
    && |visits| == |graph|
    && Path(graph, path) && Topological(graph, finished)
    && (forall id :: 0 <= id < |graph| ==> visits[id] == WHITE || visits[id] == GREY || visits[id] == BLACK)
    && (forall id :: 0 <= id < |graph| ==> (visits[id] == GREY <==> id in path))
    && (forall id :: 0 <= id < |graph| ==> (visits[id] == BLACK <==> id in finished))
    && (forall k :: 0 <= k < |path| ==> path[k] < |graph| && !graph[path[k]].Register())
  }

  function Whites(visits: seq<nat>): set<nat> {
    set id: nat | 0 <= id < |visits| && visits[id] == WHITE
  }

  /** Depth-first search from a node that is reached along the grey path. */
  method Visit(graph: Graph, id: nat, visits: array<nat>, ghost path: seq<nat>, ghost finished: seq<nat>)
    returns (ok: bool, ghost finished': seq<nat>)
    requires EdgesInRange(graph) && id < |graph| && Coloured(graph, visits[..], path, finished)
    requires path != [] ==> graph[id].Register() || Needs(graph, path[|path| - 1], id)
    modifies visits
    ensures ok ==> Coloured(graph, visits[..], path, finished') && finished <= finished'
    ensures ok ==> graph[id].Register() || id in finished'
    ensures ok ==> Whites(visits[..]) <= Whites(old(visits[..]))
    ensures !ok ==> CycleExists(graph) || Unresolved(graph)
    decreases |Whites(visits[..])|, 1
  {
    hide Coloured;
    hide CycleExists;
    hide Whites;
    hide Needs;
    finished' := finished;
    ColourOf(graph, visits[..], path, finished, id);
    if visits[id] == BLACK || graph[id].Register() {
      return true, finished;
    }
    if visits[id] == GREY {
      CycleFound(graph, path, id);
      return false, finished;
    }
    ghost var before := visits[..];
    visits[id] := GREY;
    assert visits[..] == before[id := GREY];
    PathGrows(graph, path, id);
    WhitesShrink(before, visits[..], id);
    WhitesFewer(visits[..], before);
    GreyColoured(graph, before, path, finished, id);
    if graph[id].driver.Pending? {
      return false, finished;
    }
    ok, finished' := VisitSources(graph, id, visits, path, finished);
    if !ok {
      return false, finished';
    }
    ghost var last := visits[..];
    visits[id] := BLACK;
    assert visits[..] == last[id := BLACK];
    BlackColoured(graph, last, path, finished', id);
    WhitesKept(last, visits[..], id);
    finished' := finished' + [id];
  }

  /** Visits everything that a grey node needs. */
  method VisitSources(graph: Graph, id: nat, visits: array<nat>, ghost path: seq<nat>, ghost finished: seq<nat>)
    returns (ok: bool, ghost finished': seq<nat>)
    requires EdgesInRange(graph) && id < |graph| && Coloured(graph, visits[..], path + [id], finished)
    requires !graph[id].Register()
    modifies visits
    ensures ok ==> Coloured(graph, visits[..], path + [id], finished') && finished <= finished'
    ensures ok ==> forall k :: 0 <= k < |Sources(graph[id])| ==>
      graph[Sources(graph[id])[k]].Register() || Sources(graph[id])[k] in finished'
    ensures ok ==> Whites(visits[..]) <= Whites(old(visits[..]))
    ensures !ok ==> CycleExists(graph) || Unresolved(graph)
    decreases |Whites(visits[..])|, 2
  {
    hide Coloured;
    hide CycleExists;
    hide Whites;
    hide Unresolved;
    ghost var before := visits[..];
    var sources := Sources(graph[id]);
    finished' := finished;
    for k := 0 to |sources|
      invariant Coloured(graph, visits[..], path + [id], finished') && finished <= finished'
      invariant Whites(visits[..]) <= Whites(before)
      invariant forall j :: 0 <= j < k ==> graph[sources[j]].Register() || sources[j] in finished'
    {
      ghost var earlier := finished';
      SubsetCount(Whites(visits[..]), Whites(before));
      assert (path + [id])[|path + [id]| - 1] == id;
      ok, finished' := Visit(graph, sources[k], visits, path + [id], finished');
      if !ok {
        return false, finished';
      }
      PrefixMembers(earlier, finished');
    }
    ok := true;
  }

  lemma ColourOf(graph: Graph, visits: seq<nat>, path: seq<nat>, finished: seq<nat>, id: nat)
    requires Coloured(graph, visits, path, finished) && id < |graph|
    ensures |visits| == |graph| && Path(graph, path)
    ensures visits[id] == WHITE || visits[id] == GREY || visits[id] == BLACK
    ensures visits[id] == GREY <==> id in path
    ensures visits[id] == BLACK <==> id in finished
  {
  }

  lemma WhitesKept(before: seq<nat>, after: seq<nat>, id: nat)
    requires id < |before| && after == before[id := BLACK]
    ensures Whites(after) <= Whites(before)
  {
  }

  lemma PrefixMembers(a: seq<nat>, b: seq<nat>)
    requires a <= b
    ensures forall x :: x in a ==> x in b
  {
    assert forall k :: 0 <= k < |a| ==> b[k] == a[k];
  }

  lemma WhitesShrink(before: seq<nat>, after: seq<nat>, id: nat)
    requires id < |before| && before[id] == WHITE && after == before[id := GREY]
    ensures Whites(after) < Whites(before)
  {
    assert id in Whites(before);
  }

  lemma {:induction false} Smaller(a: set<nat>, b: set<nat>)
    requires a < b
    ensures |a| < |b|
    decreases a
  {
    var x :| x in b && x !in a;
    SubsetCount(a, b - {x});
  }

  lemma {:induction false} SubsetCount(a: set<nat>, b: set<nat>)
    requires a <= b
    ensures |a| <= |b|
    decreases a
  {
    if a != {} {
      var x :| x in a;
      SubsetCount(a - {x}, b - {x});
    }
  }

  lemma WhitesFewer(a: seq<nat>, b: seq<nat>)
    requires Whites(a) < Whites(b)
    ensures |Whites(a)| < |Whites(b)|
  {
    Smaller(Whites(a), Whites(b));
  }

  lemma PathGrows(graph: Graph, path: seq<nat>, id: nat)
    requires Path(graph, path) && (path != [] ==> Needs(graph, path[|path| - 1], id))
    ensures Path(graph, path + [id])
  {
    var longer := path + [id];
    forall k {:trigger longer[k]} | 0 < k < |longer|
      ensures Needs(graph, longer[k - 1], longer[k])
    {
      assert k < |path| ==> longer[k] == path[k] && longer[k - 1] == path[k - 1];
    }
  }

  /** Reaching a grey node closes the path from it. */
  lemma CycleFound(graph: Graph, path: seq<nat>, id: nat)
    requires Path(graph, path) && id in path && path != [] && Needs(graph, path[|path| - 1], id)
    ensures CycleExists(graph)
  {
    var i :| 0 <= i < |path| && path[i] == id;
    var tail := path[i..];
    assert Path(graph, tail) by {
      forall k {:trigger tail[k]} | 0 < k < |tail|
        ensures Needs(graph, tail[k - 1], tail[k])
      {
        assert tail[k] == path[i + k] && tail[k - 1] == path[i + k - 1];
      }
    }
    assert tail[|tail| - 1] == path[|path| - 1];
    PathGrows(graph, tail, id);
    var cycle := tail + [id];
    assert cycle[0] == id && cycle[|cycle| - 1] == id;
  }

  lemma GreyColoured(graph: Graph, visits: seq<nat>, path: seq<nat>, finished: seq<nat>, id: nat)
    requires Coloured(graph, visits, path, finished) && id < |graph| && visits[id] == WHITE
    requires !graph[id].Register() && Path(graph, path + [id])
    ensures Coloured(graph, visits[id := GREY], path + [id], finished)
  {
  }

  lemma BlackColoured(graph: Graph, visits: seq<nat>, path: seq<nat>, finished: seq<nat>, id: nat)
    requires Coloured(graph, visits, path + [id], finished) && id < |graph| && id !in path
    requires !graph[id].driver.Pending?
    requires forall k :: 0 <= k < |Sources(graph[id])| ==>
      Sources(graph[id])[k] < |graph| && (graph[Sources(graph[id])[k]].Register() || Sources(graph[id])[k] in finished)
    ensures Coloured(graph, visits[id := BLACK], path, finished + [id])
  {
    var longer, more := path + [id], finished + [id];
    assert longer[|path|] == id;
    assert visits[id] == GREY;
    PathPrefix(graph, longer, |path|);
    assert longer[..|path|] == path;
    assert forall k :: 0 <= k < |path| ==> path[k] == longer[k];
    FinishedOneMore(graph, finished, id);
    hide Topological;
    hide Path;
  }

  lemma FinishedOneMore(graph: Graph, finished: seq<nat>, id: nat)
    requires Topological(graph, finished) && id < |graph| && id !in finished && !graph[id].Register()
    requires !graph[id].driver.Pending?
    requires forall k :: 0 <= k < |Sources(graph[id])| ==>
      Sources(graph[id])[k] < |graph| && (graph[Sources(graph[id])[k]].Register() || Sources(graph[id])[k] in finished)
    ensures Topological(graph, finished + [id])
  {
    var more := finished + [id];
    forall k, to | 0 <= k < |more| && Needs(graph, more[k], to)
      ensures to in more[..k]
    {
      assert more[..k] == if k < |finished| then finished[..k] else finished;
    }
  }

  /** Visits every node. Success gives an order in which every node comes after what it
      needs; failure means a combinational cycle or an unresolved node. */
  method CheckCycles(graph: Graph) returns (ok: bool, ghost order: seq<nat>)
    requires EdgesInRange(graph)
    ensures ok ==> Topological(graph, order)
    ensures ok ==> forall id :: 0 <= id < |graph| && !graph[id].Register() ==> id in order
    ensures ok <==> !CycleExists(graph) && !Unresolved(graph)
  {
    var visits := new nat[|graph|](_ => WHITE);
    order := [];
    assert forall id :: 0 <= id < |graph| ==> visits[..][id] == WHITE;
    for id := 0 to |graph|
      invariant Coloured(graph, visits[..], [], order)
      invariant forall k :: 0 <= k < id && !graph[k].Register() ==> k in order
    {
      ghost var earlier := order;
      ok, order := Visit(graph, id, visits, [], order);
      if !ok {
        return false, order;
      }
      PrefixMembers(earlier, order);
    }
    TopologicalHasNoCycle(graph, order);
    ok := true;
  }
}
