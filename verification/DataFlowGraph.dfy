/** The dataflow graph and its two adjacency representations: hash maps of lists
    while the graph is being built, compressed sparse rows once it is frozen. */
module DataFlowGraphs {
  import opened Wrappers

  type NodeId = nat
  type EdgeId = nat

  datatype MemoryLocation = MemoryLocation(base: string, offset: Option<int>, size: Option<nat>)

  datatype ValueType =
    | Variable(name: string)
    | Temporary(id: nat)
    | Constant(text: string)
    | Memory(location: MemoryLocation)
    | Parameter(index: nat)
    | ReturnValue

  datatype EdgeType =
    | Assignment
    | ParameterPassing(index: nat)
    | Return
    | FieldAccess(field: string)
    | ArrayIndex
    | Deref
    | AddressOf
    | Call

  datatype DataNode = DataNode(
    id: NodeId,
    valueType: ValueType,
    incoming: seq<EdgeId>,
    outgoing: seq<EdgeId>,
    metadata: map<string, string>)

  datatype DataEdge = DataEdge(id: EdgeId, from: NodeId, to: NodeId, edgeType: EdgeType)

  type Adjacency = map<NodeId, seq<NodeId>>

  /** The neighbour list an adjacency map gives to a node. */
  function Neighbours(adj: Adjacency, id: NodeId): seq<NodeId> {
    if id in adj then adj[id] else []
  }

  /** One direction of the frozen form: row `i` is `targets[offsets[i]..offsets[i + 1]]`. */
  datatype Csr = Csr(offsets: seq<nat>, targets: seq<NodeId>)

  const EMPTY_CSR := Csr([], [])

  predicate WellFormedCsr(c: Csr) {
    && (forall i, j :: 0 <= i <= j < |c.offsets| ==> c.offsets[i] <= c.offsets[j])
    && (forall i :: 0 <= i < |c.offsets| ==> c.offsets[i] <= |c.targets|)
  }

  /** The slice of row `id`, and no neighbours beyond the last row. A row whose slice is
      out of range does not occur in a well-formed pair of arrays. */
  function Row(c: Csr, id: NodeId): seq<NodeId> {
    if id + 1 < |c.offsets| && c.offsets[id] <= c.offsets[id + 1] <= |c.targets|
    then c.targets[c.offsets[id]..c.offsets[id + 1]]
    else []
  }

  /** `c` is the frozen form of `adj` for node ids up to `maxId`: every row, in range
      or not, is the neighbour list in the same order and with the same repetitions. */
  ghost predicate Freezes(c: Csr, adj: Adjacency, maxId: nat) {
    && WellFormedCsr(c)
    && |c.offsets| == maxId + 2
    && c.offsets[0] == 0
    && c.offsets[maxId + 1] == |c.targets|
    && forall id: NodeId :: Row(c, id) == Neighbours(adj, id)
  }

  /** Counts row lengths and turns them into prefix sums. */
  method PrefixSums(adj: Adjacency, maxId: nat) returns (prefix: seq<nat>)
    requires forall k :: k in adj ==> k <= maxId
    ensures |prefix| == maxId + 2
    ensures prefix[0] == 0
    ensures forall i :: 0 <= i <= maxId ==> prefix[i + 1] == prefix[i] + |Neighbours(adj, i)|
  {
    var counts := new nat[maxId + 1](_ => 0);
    var remaining := adj.Keys;
    while remaining != {}
      invariant remaining <= adj.Keys
      invariant forall i :: 0 <= i <= maxId ==>
        counts[i] == if i in remaining then 0 else |Neighbours(adj, i)|
      decreases remaining
    {
      var src :| src in remaining;
      counts[src] := |adj[src]|;
      remaining := remaining - {src};
    }
    var offsets := new nat[maxId + 2](_ => 0);
    for i := 0 to maxId + 1
      invariant forall j :: 0 <= j <= maxId ==> counts[j] == |Neighbours(adj, j)|
      invariant offsets[0] == 0
      invariant forall j :: 0 <= j < i ==> offsets[j + 1] == offsets[j] + |Neighbours(adj, j)|
    {
      offsets[i + 1] := offsets[i] + counts[i];
    }
    prefix := offsets[..];
  }

  /** Prefix sums are non-decreasing. */
  lemma {:induction false} PrefixSumsAscend(offsets: seq<nat>, adj: Adjacency, i: nat, j: nat)
    requires forall k :: 0 <= k < |offsets| - 1 ==> offsets[k + 1] == offsets[k] + |Neighbours(adj, k)|
    requires i <= j < |offsets|
    ensures offsets[i] <= offsets[j]
    decreases j - i
  {
    if i < j {
      PrefixSumsAscend(offsets, adj, i + 1, j);
      assert offsets[i + 1] == offsets[i] + |Neighbours(adj, i)|;
    }
  }

  /** Writes one neighbour list from the cursor `start` on, and returns the moved cursor. */
  method CopyRow(targets: array<NodeId>, start: nat, neighbours: seq<NodeId>) returns (cursor: nat)
    requires start + |neighbours| <= targets.Length
    modifies targets
    ensures cursor == start + |neighbours|
    ensures targets[..] == old(targets[..start]) + neighbours + old(targets[cursor..])
  {
    cursor := start;
    for k := 0 to |neighbours|
      invariant cursor == start + k
      invariant targets[..] == old(targets[..])[..start] + neighbours[..k] + old(targets[..])[cursor..]
    {
      targets[cursor] := neighbours[k];
      cursor := cursor + 1;
    }
  }

  /** Every row outside `todo` holds its neighbour list. */
  ghost predicate RowsFilled(targets: seq<NodeId>, offsets: seq<nat>, adj: Adjacency, todo: set<NodeId>) {
    && WellFormedCsr(Csr(offsets, targets))
    && forall i :: 0 <= i < |offsets| - 1 && i !in todo ==> targets[offsets[i]..offsets[i + 1]] == Neighbours(adj, i)
  }

  /** Overwriting the row of `src` fills that row and leaves every other row as it was. */
  lemma RowFilled(before: seq<NodeId>, after: seq<NodeId>, offsets: seq<nat>, adj: Adjacency, todo: set<NodeId>, src: NodeId)
    requires RowsFilled(before, offsets, adj, todo)
    requires src in adj && src < |offsets| - 1 && offsets[src + 1] == offsets[src] + |adj[src]|
    requires after == before[..offsets[src]] + adj[src] + before[offsets[src + 1]..]
    ensures RowsFilled(after, offsets, adj, todo - {src})
  {
    forall i | 0 <= i < |offsets| - 1 && i !in todo - {src}
      ensures after[offsets[i]..offsets[i + 1]] == Neighbours(adj, i)
    {
      if i == src {
        assert after[offsets[src]..offsets[src + 1]] == adj[src];
      } else {
        assert i < src ==> offsets[i + 1] <= offsets[src];
        assert src < i ==> offsets[src + 1] <= offsets[i];
        SliceKept(before, adj[src], after, offsets[src], offsets[i], offsets[i + 1]);
      }
    }
  }

  /** Replacing a stretch by one of the same length keeps the slices beside it. */
  lemma SliceKept(before: seq<NodeId>, mid: seq<NodeId>, after: seq<NodeId>, lo: nat, a: nat, b: nat)
    requires lo + |mid| <= |before| && after == before[..lo] + mid + before[lo + |mid|..]
    requires a <= b <= |before| && (b <= lo || lo + |mid| <= a)
    ensures after[a..b] == before[a..b]
  {
  }

  /** `offsets` are the prefix sums of the neighbour-list lengths. */
  ghost predicate PrefixesOf(offsets: seq<nat>, adj: Adjacency) {
    && 0 < |offsets| && offsets[0] == 0
    && (forall i, j :: 0 <= i <= j < |offsets| ==> offsets[i] <= offsets[j])
    && (forall i :: 0 <= i < |offsets| - 1 ==> offsets[i + 1] == offsets[i] + |Neighbours(adj, i)|)
  }

  /** Copies every neighbour list into its row with one moving cursor per row. The
      adjacency map is traversed in an arbitrary order. */
  method FillRows(adj: Adjacency, offsets: seq<nat>) returns (filled: seq<NodeId>)
    requires PrefixesOf(offsets, adj)
    requires forall k :: k in adj ==> k < |offsets| - 1
    ensures |filled| == offsets[|offsets| - 1]
    ensures RowsFilled(filled, offsets, adj, {})
  {
    var targets := new NodeId[offsets[|offsets| - 1]](_ => 0);
    var pos := offsets;
    var remaining := adj.Keys;
    while remaining != {}
      invariant remaining <= adj.Keys
      invariant |pos| == |offsets| && forall i :: i in remaining ==> pos[i] == offsets[i]
      invariant RowsFilled(targets[..], offsets, adj, remaining)
      decreases remaining
    {
      var src :| src in remaining;
      ghost var before := targets[..];
      assert offsets[src + 1] == offsets[src] + |Neighbours(adj, src)|;
      var cursor := CopyRow(targets, pos[src], adj[src]);
      pos := pos[src := cursor];
      RowFilled(before, targets[..], offsets, adj, remaining, src);
      remaining := remaining - {src};
    }
    filled := targets[..];
  }

  method BuildCsr(adj: Adjacency, maxId: nat) returns (c: Csr)
    requires forall k :: k in adj ==> k <= maxId
    ensures Freezes(c, adj, maxId)
  {
    var offsets := PrefixSums(adj, maxId);
    forall i, j | 0 <= i <= j < |offsets| ensures offsets[i] <= offsets[j] {
      PrefixSumsAscend(offsets, adj, i, j);
    }
    var targets := FillRows(adj, offsets);
    c := Csr(offsets, targets);
  }

  type Lists = map<NodeId, seq<NodeId>>

  /** The answer of a neighbour query: the frozen rows if there are any, the map otherwise. */
  function Lookup(c: Csr, adj: Adjacency, id: NodeId): seq<NodeId> {
    if |c.offsets| != 0 then Row(c, id) else Neighbours(adj, id)
  }

  ghost function ListsOf(ids: set<NodeId>, c: Csr, adj: Adjacency): Lists {
    map id | id in ids :: Lookup(c, adj, id)
  }

  /** Freezing refines the hash maps: every neighbour query keeps its answer. */
  lemma FreezingRefines(ids: set<NodeId>, c: Csr, adj: Adjacency, maxId: nat, unfrozen: Csr)
    requires Freezes(c, adj, maxId) && |unfrozen.offsets| == 0
    ensures forall id: NodeId :: Lookup(c, map[], id) == Lookup(unfrozen, adj, id)
    ensures ListsOf(ids, c, map[]) == ListsOf(ids, unfrozen, adj)
  {
  }

  /** Freezing empty maps answers every query with the empty list. */
  lemma FreezingNothing(ids: set<NodeId>, c: Csr, maxId: nat)
    requires Freezes(c, map[], maxId)
    ensures forall id: NodeId :: Lookup(c, map[], id) == []
    ensures ListsOf(ids, c, map[]) == map id | id in ids :: []
  {
  }

  /** Ids from `n` on have no neighbours. */
  ghost predicate NothingBeyond(c: Csr, adj: Adjacency, n: nat) {
    forall id: NodeId :: n <= id ==> Lookup(c, adj, id) == []
  }

  lemma NothingBeyondPush(c: Csr, adj: Adjacency, n: nat, u: NodeId, v: NodeId)
    requires |c.offsets| == 0 && u < n && NothingBeyond(c, adj, n)
    ensures NothingBeyond(c, adj[u := Neighbours(adj, u) + [v]], n)
  {
    var adj' := adj[u := Neighbours(adj, u) + [v]];
    forall id: NodeId | n <= id ensures Lookup(c, adj', id) == [] {
      assert Lookup(c, adj, id) == [];
    }
  }

  lemma ListsOfPush(ids: set<NodeId>, c: Csr, adj: Adjacency, u: NodeId, v: NodeId)
    requires |c.offsets| == 0 && u in ids
    ensures ListsOf(ids, c, adj[u := Neighbours(adj, u) + [v]])
         == ListsOf(ids, c, adj)[u := ListsOf(ids, c, adj)[u] + [v]]
  {
  }

  /** `adj` holds the rows below `n` and nothing else. */
  ghost predicate Thaws(adj: Adjacency, c: Csr, n: nat) {
    && (forall id :: id in adj ==> id < n)
    && (forall id: NodeId :: Neighbours(adj, id) == if id < n then Row(c, id) else [])
  }

  /** Thawing refines the frozen rows: every neighbour query keeps its answer. */
  lemma ThawingRefines(ids: set<NodeId>, c: Csr, adj: Adjacency, n: nat)
    requires Thaws(adj, c, n) && |c.offsets| != 0 && NothingBeyond(c, map[], n)
    ensures forall id: NodeId :: Lookup(EMPTY_CSR, adj, id) == Lookup(c, map[], id)
    ensures ListsOf(ids, EMPTY_CSR, adj) == ListsOf(ids, c, map[])
    ensures NothingBeyond(EMPTY_CSR, adj, n)
  {
    forall id: NodeId ensures Lookup(EMPTY_CSR, adj, id) == Lookup(c, map[], id) {
      assert n <= id ==> Lookup(c, map[], id) == [];
    }
  }

  lemma ThawStep(adj: Adjacency, c: Csr, i: nat)
    requires Thaws(adj, c, i)
    ensures Row(c, i) == [] ==> Thaws(adj, c, i + 1)
    ensures Row(c, i) != [] ==> Thaws(adj[i := Row(c, i)], c, i + 1)
  {
  }

  /** `adj` answers every query like the rows. */
  ghost predicate HoldsRows(adj: Adjacency, c: Csr) {
    forall id: NodeId :: Neighbours(adj, id) == Row(c, id)
  }

  lemma AllRowsThawed(adj: Adjacency, c: Csr, n: nat)
    requires Thaws(adj, c, n) && |c.offsets| <= n + 1
    ensures HoldsRows(adj, c)
  {
  }

  /** While there are frozen rows the maps are not consulted. */
  lemma RowsHideMaps(ids: set<NodeId>, c: Csr, adj: Adjacency, adj': Adjacency)
    requires |c.offsets| != 0
    ensures ListsOf(ids, c, adj) == ListsOf(ids, c, adj')
  {
  }

  /** Collects the non-empty rows below `maxId` of both directions. It stops with `ok` false,
      where the program would panic, at the first row whose end offset does not exist; all rows
      have been collected by then. */
  method ThawRows(forward: Csr, reverse: Csr, maxId: nat) returns (ok: bool, forwardAdj: Adjacency, reverseAdj: Adjacency)
    requires WellFormedCsr(forward) && WellFormedCsr(reverse) && 0 < |forward.offsets| == |reverse.offsets|
    ensures ok <==> maxId < |forward.offsets|
    ensures ok ==> Thaws(forwardAdj, forward, maxId) && Thaws(reverseAdj, reverse, maxId)
    ensures !ok ==> HoldsRows(forwardAdj, forward) && HoldsRows(reverseAdj, reverse)
  {
    forwardAdj, reverseAdj := map[], map[];
    for i := 0 to maxId
      invariant i < |forward.offsets|
      invariant Thaws(forwardAdj, forward, i) && Thaws(reverseAdj, reverse, i)
    {
      if i + 1 >= |forward.offsets| {
        AllRowsThawed(forwardAdj, forward, i);
        AllRowsThawed(reverseAdj, reverse, i);
        ok := false;
        return;
      }
      ThawStep(forwardAdj, forward, i);
      ThawStep(reverseAdj, reverse, i);
      var start, end := forward.offsets[i], forward.offsets[i + 1];
      if start < end {
        forwardAdj := forwardAdj[i := forward.targets[start..end]];
      }
      var rStart, rEnd := reverse.offsets[i], reverse.offsets[i + 1];
      if rStart < rEnd {
        reverseAdj := reverseAdj[i := reverse.targets[rStart..rEnd]];
      }
    }
    ok := true;
  }

  lemma ListsOfMore(ids: set<NodeId>, id: NodeId, c: Csr, adj: Adjacency)
    requires Lookup(c, adj, id) == []
    ensures ListsOf(ids + {id}, c, adj) == ListsOf(ids, c, adj)[id := []]
  {
  }

  /** What the analyses see of a graph: its nodes and both adjacency directions. */
  datatype GraphView = GraphView(
    nodes: map<NodeId, DataNode>,
    preds: Lists,
    succs: Lists,
    entry: Option<NodeId>,
    exit: Option<NodeId>)

  /** `v` is as often a successor of `u` as `u` is a predecessor of `v`. */
  ghost predicate LinkedEqually(succs: Lists, preds: Lists, u: NodeId, v: NodeId)
    requires u in succs && v in preds
  {
    multiset(succs[u])[v] == multiset(preds[v])[u]
  }

  /** The predecessor lists are the exact multigraph transpose of the successor lists. */
  ghost predicate IsTranspose(succs: Lists, preds: Lists) {
    && succs.Keys == preds.Keys
    && (forall u, v {:trigger LinkedEqually(succs, preds, u, v)} :: u in succs && v in preds ==> LinkedEqually(succs, preds, u, v))
    && (forall u, v :: u in succs && v in succs[u] ==> v in succs)
    && (forall v, u :: v in preds && u in preds[v] ==> u in preds)
  }

  ghost predicate ValidView(g: GraphView) {
    && g.succs.Keys == g.nodes.Keys
    && (forall id :: id in g.nodes ==> g.nodes[id].id == id)
    && IsTranspose(g.succs, g.preds)
  }

  /** `ends` is read off the edge ids `ids` leaving `id`: in order, without repetition and
      without omission. */
  ghost predicate OutgoingAgrees(edges: map<EdgeId, DataEdge>, ids: seq<EdgeId>, ends: seq<NodeId>, id: NodeId) {
    && |ids| == |ends|
    && (forall i :: 0 <= i < |ids| ==> ids[i] in edges && edges[ids[i]].from == id && edges[ids[i]].to == ends[i])
    && (forall i, j :: 0 <= i < j < |ids| ==> ids[i] < ids[j])
    && (forall e :: e in edges && edges[e].from == id ==> e in ids)
  }

  ghost predicate IncomingAgrees(edges: map<EdgeId, DataEdge>, ids: seq<EdgeId>, ends: seq<NodeId>, id: NodeId) {
    && |ids| == |ends|
    && (forall i :: 0 <= i < |ids| ==> ids[i] in edges && edges[ids[i]].to == id && edges[ids[i]].from == ends[i])
    && (forall i, j :: 0 <= i < j < |ids| ==> ids[i] < ids[j])
    && (forall e :: e in edges && edges[e].to == id ==> e in ids)
  }

  /** Successor and predecessor lists are the far ends of the nodes' edge-id lists, in order,
      and each edge id occurs exactly once, in the lists of its two endpoints. */
  ghost predicate EdgeListsAgree(g: GraphView, edges: map<EdgeId, DataEdge>) {
    && g.succs.Keys == g.preds.Keys == g.nodes.Keys
    && forall id :: id in g.nodes ==> NodeListsAgree(edges, g.nodes[id], g.succs[id], g.preds[id], id)
  }

  ghost predicate NodeListsAgree(edges: map<EdgeId, DataEdge>, node: DataNode, succs: seq<NodeId>, preds: seq<NodeId>, id: NodeId) {
    OutgoingAgrees(edges, node.outgoing, succs, id) && IncomingAgrees(edges, node.incoming, preds, id)
  }

  ghost predicate DenseIds(nodes: map<NodeId, DataNode>, n: nat) {
    forall id: NodeId :: id in nodes <==> id < n
  }

  ghost predicate ValidEdges(g: GraphView, edges: map<EdgeId, DataEdge>, n: nat) {
    && (forall e: EdgeId :: e in edges <==> e < n)
    && (forall e :: e in edges ==> edges[e].id == e && edges[e].from in g.nodes && edges[e].to in g.nodes)
  }

  /** The view after adding a node with a fresh id. */
  ghost function WithNode(g: GraphView, node: DataNode): GraphView {
    g.(nodes := g.nodes[node.id := node], succs := g.succs[node.id := []], preds := g.preds[node.id := []])
  }

  lemma NodeKeepsView(g: GraphView, edges: map<EdgeId, DataEdge>, n: nat, node: DataNode)
    requires ValidView(g) && ValidEdges(g, edges, n) && node.id !in g.nodes
    ensures ValidView(WithNode(g, node)) && ValidEdges(WithNode(g, node), edges, n)
  {
    var g' := WithNode(g, node);
    forall u, v | u in g'.succs && v in g'.preds ensures LinkedEqually(g'.succs, g'.preds, u, v) {
      assert u != node.id && v != node.id ==> LinkedEqually(g.succs, g.preds, u, v);
    }
  }

  /** A new node keeps the edge-id lists in agreement exactly when its own lists are empty. */
  lemma NodeExtendsLists(g: GraphView, edges: map<EdgeId, DataEdge>, n: nat, node: DataNode)
    requires ValidEdges(g, edges, n) && node.id !in g.nodes && EdgeListsAgree(g, edges)
    ensures EdgeListsAgree(WithNode(g, node), edges) <==> node.incoming == [] && node.outgoing == []
  {
    FreshNodeLists(g, edges, n, node);
    OtherListsStay(g, edges, node);
  }

  lemma OtherListsStay(g: GraphView, edges: map<EdgeId, DataEdge>, node: DataNode)
    requires node.id !in g.nodes && EdgeListsAgree(g, edges)
    ensures EdgeListsAgree(WithNode(g, node), edges) <==> NodeListsAgree(edges, node, [], [], node.id)
  {
    var g' := WithNode(g, node);
    assert g'.succs.Keys == g'.preds.Keys == g'.nodes.Keys;
    assert node.id in g'.nodes && g'.nodes[node.id] == node && g'.succs[node.id] == [] && g'.preds[node.id] == [];
    forall id | id in g.nodes ensures NodeListsAgree(edges, g'.nodes[id], g'.succs[id], g'.preds[id], id) {
      assert NodeListsAgree(edges, g.nodes[id], g.succs[id], g.preds[id], id);
      assert g'.nodes[id] == g.nodes[id] && g'.succs[id] == g.succs[id] && g'.preds[id] == g.preds[id];
    }
  }

  /** No edge touches an id that is not in use. */
  lemma FreshNodeLists(g: GraphView, edges: map<EdgeId, DataEdge>, n: nat, node: DataNode)
    requires ValidEdges(g, edges, n) && node.id !in g.nodes
    ensures NodeListsAgree(edges, node, [], [], node.id) <==> node.incoming == [] && node.outgoing == []
  {
    if node.outgoing == [] { assert OutgoingAgrees(edges, [], [], node.id); }
  }

  /** The view after adding edge `id`: the target joins the source's successors, the source
      joins the target's predecessors, and both end nodes record the edge. */
  ghost function WithEdge(g: GraphView, edge: DataEdge): GraphView
    requires edge.from in g.nodes && edge.to in g.nodes && edge.from in g.succs && edge.to in g.preds
  {
    var source := g.nodes[edge.from];
    var nodes := g.nodes[edge.from := source.(outgoing := source.outgoing + [edge.id])];
    var target := nodes[edge.to];
    g.(nodes := nodes[edge.to := target.(incoming := target.incoming + [edge.id])],
       succs := g.succs[edge.from := g.succs[edge.from] + [edge.to]],
       preds := g.preds[edge.to := g.preds[edge.to] + [edge.from]])
  }

  /** The view over hash maps to which an edge has been added. */
  lemma LinkedView(nodes: map<NodeId, DataNode>, forward: Csr, forwardAdj: Adjacency, reverse: Csr, reverseAdj: Adjacency,
                   entry: Option<NodeId>, exit: Option<NodeId>, edge: DataEdge)
    requires |forward.offsets| == 0 && |reverse.offsets| == 0 && edge.from in nodes && edge.to in nodes
    ensures var g := GraphView(nodes, ListsOf(nodes.Keys, reverse, reverseAdj), ListsOf(nodes.Keys, forward, forwardAdj), entry, exit);
      var first := nodes[edge.from := nodes[edge.from].(outgoing := nodes[edge.from].outgoing + [edge.id])];
      var both := first[edge.to := first[edge.to].(incoming := first[edge.to].incoming + [edge.id])];
      WithEdge(g, edge) == GraphView(both,
        ListsOf(both.Keys, reverse, reverseAdj[edge.to := Neighbours(reverseAdj, edge.to) + [edge.from]]),
        ListsOf(both.Keys, forward, forwardAdj[edge.from := Neighbours(forwardAdj, edge.from) + [edge.to]]), entry, exit)
  {
    var first := nodes[edge.from := nodes[edge.from].(outgoing := nodes[edge.from].outgoing + [edge.id])];
    var both := first[edge.to := first[edge.to].(incoming := first[edge.to].incoming + [edge.id])];
    assert both.Keys == nodes.Keys;
    ListsOfPush(nodes.Keys, forward, forwardAdj, edge.from, edge.to);
    ListsOfPush(nodes.Keys, reverse, reverseAdj, edge.to, edge.from);
  }

  /** Linking `u` to `v` in both directions keeps the lists transposed. */
  lemma LinkKeepsTranspose(succs: Lists, preds: Lists, u: NodeId, v: NodeId)
    requires IsTranspose(succs, preds) && u in succs && v in preds
    ensures IsTranspose(succs[u := succs[u] + [v]], preds[v := preds[v] + [u]])
  {
    var succs', preds' := succs[u := succs[u] + [v]], preds[v := preds[v] + [u]];
    forall a, b | a in succs' && b in preds' ensures LinkedEqually(succs', preds', a, b) {
      assert LinkedEqually(succs, preds, a, b);
    }
    assert forall w :: w in succs'[u] ==> w in succs[u] || w == v;
    assert forall w :: w in preds'[v] ==> w in preds[v] || w == u;
  }

  lemma KeysStay(g: GraphView, edge: DataEdge)
    requires edge.from in g.nodes && edge.to in g.nodes && edge.from in g.succs && edge.to in g.preds
    ensures WithEdge(g, edge).nodes.Keys == g.nodes.Keys
  {
  }

  lemma EdgeKeepsView(g: GraphView, edges: map<EdgeId, DataEdge>, n: nat, edge: DataEdge)
    requires ValidView(g) && ValidEdges(g, edges, n) && edge.id == n
    requires edge.from in g.nodes && edge.to in g.nodes
    ensures ValidView(WithEdge(g, edge)) && ValidEdges(WithEdge(g, edge), edges[n := edge], n + 1)
  {
    LinkKeepsTranspose(g.succs, g.preds, edge.from, edge.to);
  }

  lemma OutgoingExtends(edges: map<EdgeId, DataEdge>, n: nat, edge: DataEdge, ids: seq<EdgeId>, ends: seq<NodeId>, id: NodeId)
    requires (forall e: EdgeId :: e in edges <==> e < n) && OutgoingAgrees(edges, ids, ends, id)
    ensures id == edge.from ==> OutgoingAgrees(edges[n := edge], ids + [n], ends + [edge.to], id)
    ensures id != edge.from ==> OutgoingAgrees(edges[n := edge], ids, ends, id)
  {
    assert (ids + [n])[|ids|] == n;
    assert forall e :: e in ids ==> e in ids + [n];
  }

  lemma IncomingExtends(edges: map<EdgeId, DataEdge>, n: nat, edge: DataEdge, ids: seq<EdgeId>, ends: seq<NodeId>, id: NodeId)
    requires (forall e: EdgeId :: e in edges <==> e < n) && IncomingAgrees(edges, ids, ends, id)
    ensures id == edge.to ==> IncomingAgrees(edges[n := edge], ids + [n], ends + [edge.from], id)
    ensures id != edge.to ==> IncomingAgrees(edges[n := edge], ids, ends, id)
  {
    assert (ids + [n])[|ids|] == n;
    assert forall e :: e in ids ==> e in ids + [n];
  }

  lemma EdgeExtendsLists(g: GraphView, edges: map<EdgeId, DataEdge>, n: nat, edge: DataEdge)
    requires ValidView(g) && ValidEdges(g, edges, n) && edge.id == n && EdgeListsAgree(g, edges)
    requires edge.from in g.nodes && edge.to in g.nodes
    ensures EdgeListsAgree(WithEdge(g, edge), edges[n := edge])
  {
    var g', edges' := WithEdge(g, edge), edges[n := edge];
    assert g'.succs.Keys == g'.preds.Keys == g'.nodes.Keys;
    forall id | id in g'.nodes ensures NodeListsAgree(edges', g'.nodes[id], g'.succs[id], g'.preds[id], id) {
      assert NodeListsAgree(edges, g.nodes[id], g.succs[id], g.preds[id], id);
      OutgoingExtends(edges, n, edge, g.nodes[id].outgoing, g.succs[id], id);
      IncomingExtends(edges, n, edge, g.nodes[id].incoming, g.preds[id], id);
    }
  }

  // ----- Every reachable graph -----

  datatype Change = NodeAdded(node: DataNode) | EdgeAdded(edge: DataEdge)

  datatype Content = Content(view: GraphView, edges: map<EdgeId, DataEdge>, nextEdge: nat)

  const EMPTY := Content(GraphView(map[], map[], map[], None, None), map[], 0)

  /** New nodes come without edges; new edges join existing nodes. */
  ghost predicate Possible(c: Content, change: Change) {
    match change
    case NodeAdded(node) => node.id !in c.view.nodes && node.incoming == [] && node.outgoing == []
    case EdgeAdded(edge) =>
      edge.id == c.nextEdge && edge.from in c.view.nodes && edge.to in c.view.nodes
      && edge.from in c.view.succs && edge.to in c.view.preds
  }

  /** What `AddNode` and `AddEdge` do to the graph's content, frozen or not. */
  ghost function Apply(c: Content, change: Change): Content
    requires Possible(c, change)
  {
    match change
    case NodeAdded(node) => c.(view := WithNode(c.view, node))
    case EdgeAdded(edge) => Content(WithEdge(c.view, edge), c.edges[edge.id := edge], c.nextEdge + 1)
  }

  /** The content after a history of changes, if each was possible. */
  ghost function Grown(history: seq<Change>): Option<Content> {
    if history == [] then Some(EMPTY)
    else
      match Grown(history[..|history| - 1])
      case None => None
      case Some(c) => if Possible(c, history[|history| - 1]) then Some(Apply(c, history[|history| - 1])) else None
  }

  /** In every reachable graph the predecessor lists are the transpose of the successor lists,
      and both are the far ends of the nodes' edge-id lists, in order. */
  lemma {:induction false} EveryGraphAgrees(history: seq<Change>)
    requires Grown(history).Some?
    ensures var c := Grown(history).value;
      ValidView(c.view) && ValidEdges(c.view, c.edges, c.nextEdge) && EdgeListsAgree(c.view, c.edges)
  {
    if history != [] {
      EveryGraphAgrees(history[..|history| - 1]);
      var c, change := Grown(history[..|history| - 1]).value, history[|history| - 1];
      match change
      case NodeAdded(node) =>
        NodeKeepsView(c.view, c.edges, c.nextEdge, node);
        NodeExtendsLists(c.view, c.edges, c.nextEdge, node);
      case EdgeAdded(edge) =>
        EdgeKeepsView(c.view, c.edges, c.nextEdge, edge);
        EdgeExtendsLists(c.view, c.edges, c.nextEdge, edge);
    }
  }

  /** `order` lists every node of the map exactly once. */
  ghost predicate Enumerates(order: seq<DataNode>, nodes: map<NodeId, DataNode>) {
    && (forall i :: 0 <= i < |order| ==> order[i].id in nodes && nodes[order[i].id] == order[i])
    && (forall i, j :: 0 <= i < j < |order| ==> order[i].id != order[j].id)
    && (forall id :: id in nodes ==> nodes[id] in order)
  }

  /** The values of the node map, in an arbitrary order. */
  method Values(nodes: map<NodeId, DataNode>) returns (order: seq<DataNode>)
    requires forall id :: id in nodes ==> nodes[id].id == id
    ensures Enumerates(order, nodes) && |order| == |nodes.Keys|
  {
    order := [];
    var remaining := nodes.Keys;
    while remaining != {}
      invariant remaining <= nodes.Keys
      invariant forall i :: 0 <= i < |order| ==>
        order[i].id in nodes && order[i].id !in remaining && nodes[order[i].id] == order[i]
      invariant forall i, j :: 0 <= i < j < |order| ==> order[i].id != order[j].id
      invariant forall id :: id in nodes && id !in remaining ==> nodes[id] in order
      invariant |order| + |remaining| == |nodes.Keys|
      decreases remaining
    {
      var id :| id in remaining;
      order := order + [nodes[id]];
      remaining := remaining - {id};
    }
  }

  /** The view with every adjacency list lost. */
  ghost function Emptied(g: GraphView): GraphView {
    g.(succs := map id | id in g.nodes :: [], preds := map id | id in g.nodes :: [])
  }

  /** Losing the lists goes unnoticed exactly when there are none. */
  lemma EmptiedIsSame(g: GraphView)
    requires ValidView(g)
    ensures Emptied(g) == g <==> forall id :: id in g.nodes ==> g.succs[id] == [] && g.preds[id] == []
  {
    if Emptied(g) == g {
      forall id | id in g.nodes ensures g.succs[id] == [] && g.preds[id] == [] {
        assert Emptied(g).succs[id] == [] && Emptied(g).preds[id] == [];
      }
    }
  }

  lemma EmptiedIsValid(g: GraphView, edges: map<EdgeId, DataEdge>, n: nat)
    requires ValidView(g) && ValidEdges(g, edges, n)
    ensures ValidView(Emptied(g)) && ValidEdges(Emptied(g), edges, n)
  {
    var e := Emptied(g);
    assert forall u, v :: u in e.succs && v in e.preds ==> LinkedEqually(e.succs, e.preds, u, v);
  }

  class DataFlowGraph {
    var nodes: map<NodeId, DataNode>
    var edges: map<EdgeId, DataEdge>
    var entryNode: Option<NodeId>
    var exitNode: Option<NodeId>
    var nextNodeId: nat
    var nextEdgeId: nat
    var forwardAdj: Adjacency
    var reverseAdj: Adjacency
    var forwardCsr: Csr
    var reverseCsr: Csr

    predicate IsFrozen()
      reads this`forwardCsr
    {
      |forwardCsr.offsets| != 0
    }

    function Successors(id: NodeId): seq<NodeId>
      reads this`forwardCsr, this`forwardAdj
    {
      Lookup(forwardCsr, forwardAdj, id)
    }

    function Predecessors(id: NodeId): seq<NodeId>
      reads this`reverseCsr, this`reverseAdj
    {
      Lookup(reverseCsr, reverseAdj, id)
    }

    /** The nodes with the lists the two queries return for them. */
    ghost function View(): GraphView
      reads this
    {
      GraphView(
        nodes,
        ListsOf(nodes.Keys, reverseCsr, reverseAdj),
        ListsOf(nodes.Keys, forwardCsr, forwardAdj),
        entryNode,
        exitNode)
    }

    /** Of the two adjacency representations at most one is in use, and neither mentions a
        node that does not exist. */
    ghost predicate ValidRepresentation()
      reads this
    {
      && WellFormedCsr(forwardCsr) && WellFormedCsr(reverseCsr)
      && |forwardCsr.offsets| == |reverseCsr.offsets| <= nextNodeId + 2
      && (IsFrozen() ==> forwardAdj == map[] && reverseAdj == map[] && 2 <= |forwardCsr.offsets|)
      && (forall id :: id in forwardAdj ==> id < nextNodeId)
      && (forall id :: id in reverseAdj ==> id < nextNodeId)
      && NothingBeyond(forwardCsr, forwardAdj, nextNodeId) && NothingBeyond(reverseCsr, reverseAdj, nextNodeId)
    }

    /** The invariant of every reachable state. */
    ghost predicate Valid()
      reads this
    {
      && ValidRepresentation()
      && DenseIds(nodes, nextNodeId)
      && ValidView(View())
      && ValidEdges(View(), edges, nextEdgeId)
    }

    constructor ()
      ensures Valid() && !IsFrozen() && EdgeListsAgree(View(), edges)
      ensures nodes == map[] && edges == map[] && nextNodeId == nextEdgeId == 0 && entryNode == exitNode == None
    {
      nodes, edges := map[], map[];
      entryNode, exitNode := None, None;
      nextNodeId, nextEdgeId := 0, 0;
      forwardAdj, reverseAdj := map[], map[];
      forwardCsr, reverseCsr := EMPTY_CSR, EMPTY_CSR;
    }

    /** Adds a node under the next id, frozen or not. */
    method AddNode(node: DataNode) returns (id: NodeId)
      requires Valid()
      modifies this`nodes, this`nextNodeId
      ensures Valid() && IsFrozen() == old(IsFrozen())
      ensures id == old(nextNodeId) && nextNodeId == id + 1
      ensures nodes == old(nodes)[id := node.(id := id)]
      ensures View() == WithNode(old(View()), node.(id := id))
    {
      ghost var before := View();
      id := nextNodeId;
      assert Successors(id) == [] && Predecessors(id) == [];
      nextNodeId := nextNodeId + 1;
      nodes := nodes[id := node.(id := id)];
      ListsOfMore(before.nodes.Keys, id, forwardCsr, forwardAdj);
      ListsOfMore(before.nodes.Keys, id, reverseCsr, reverseAdj);
      assert nodes.Keys == before.nodes.Keys + {id};
      assert View() == WithNode(before, node.(id := id));
      NodeKeepsView(before, edges, nextEdgeId, node.(id := id));
    }

    method SetEntry(id: NodeId)
      requires Valid()
      modifies this`entryNode
      ensures Valid() && View() == old(View()).(entry := Some(id))
    {
      entryNode := Some(id);
      assert View() == old(View()).(entry := Some(id));
    }

    method SetExit(id: NodeId)
      requires Valid()
      modifies this`exitNode
      ensures Valid() && View() == old(View()).(exit := Some(id))
    {
      exitNode := Some(id);
      assert View() == old(View()).(exit := Some(id));
    }

    /** All nodes, in the arbitrary order of the hash map. */
    method AllNodes() returns (order: seq<DataNode>)
      requires Valid()
      ensures Enumerates(order, nodes) && |order| == nextNodeId
    {
      DenseKeys(nodes.Keys, nextNodeId);
      order := Values(nodes);
    }

    /** Freezes the hash maps and clears them. On a graph that is not frozen this preserves
        every successor and predecessor list, of existing and of unknown nodes. A graph that
        is already frozen has empty maps, so freezing it again empties its lists. */
    method Freeze()
      requires Valid()
      modifies this`forwardCsr, this`reverseCsr, this`forwardAdj, this`reverseAdj
      ensures Valid() && IsFrozen() && |forwardCsr.offsets| == nextNodeId + 2
      ensures View() == if old(IsFrozen()) then Emptied(old(View())) else old(View())
      ensures !old(IsFrozen()) ==>
        forall id: NodeId :: Successors(id) == old(Successors(id)) && Predecessors(id) == old(Predecessors(id))
    {
      var maxId := nextNodeId;
      var forward := BuildCsr(forwardAdj, maxId);
      var reverse := BuildCsr(reverseAdj, maxId);
      if IsFrozen() {
        FreezingNothing(nodes.Keys, forward, maxId);
        FreezingNothing(nodes.Keys, reverse, maxId);
      } else {
        FreezingRefines(nodes.Keys, forward, forwardAdj, maxId, forwardCsr);
        FreezingRefines(nodes.Keys, reverse, reverseAdj, maxId, reverseCsr);
      }
      ghost var before := View();
      EmptiedIsValid(before, edges, nextEdgeId);
      forwardCsr, reverseCsr := forward, reverse;
      forwardAdj, reverseAdj := map[], map[];
      ghost var after := View();
      assert after == if old(IsFrozen()) then Emptied(before) else before;
      assert ValidView(after) && ValidEdges(after, edges, nextEdgeId);
    }

    /** Rebuilds the hash maps from the frozen rows of the current node ids, empty rows left
        out, and drops the frozen arrays. The loop runs to the current number of nodes, so it
        reads past the offsets exactly when two or more nodes were added since the freeze. The
        program panics there: `ok` is false, the arrays are still in use, and the maps hold all
        their rows, so every query keeps its answer. */
    method InvalidateCsr() returns (ok: bool)
      requires Valid()
      modifies this`forwardCsr, this`reverseCsr, this`forwardAdj, this`reverseAdj
      ensures ok <==> !old(IsFrozen()) || nextNodeId < |old(forwardCsr).offsets|
      ensures ok ==> Valid() && !IsFrozen() && View() == old(View())
      ensures !ok ==>
        && forwardCsr == old(forwardCsr) && reverseCsr == old(reverseCsr) && View() == old(View())
        && HoldsRows(forwardAdj, forwardCsr) && HoldsRows(reverseAdj, reverseCsr)
    {
      if !IsFrozen() {
        return true;
      }
      ok := RebuildMaps();
      if ok {
        DropRows();
      }
    }

    /** The loop of the thawing: it fills the maps, while the rows still answer the queries. */
    method RebuildMaps() returns (ok: bool)
      requires ValidRepresentation() && IsFrozen()
      modifies this`forwardAdj, this`reverseAdj
      ensures View() == old(View())
      ensures ok <==> nextNodeId < |forwardCsr.offsets|
      ensures ok ==> Thaws(forwardAdj, forwardCsr, nextNodeId) && Thaws(reverseAdj, reverseCsr, nextNodeId)
      ensures !ok ==> HoldsRows(forwardAdj, forwardCsr) && HoldsRows(reverseAdj, reverseCsr)
    {
      var forward, reverse;
      ok, forward, reverse := ThawRows(forwardCsr, reverseCsr, nextNodeId);
      RowsHideMaps(nodes.Keys, forwardCsr, forwardAdj, forward);
      RowsHideMaps(nodes.Keys, reverseCsr, reverseAdj, reverse);
      forwardAdj, reverseAdj := forward, reverse;
    }

    /** Clears the rows once the maps hold them. */
    method DropRows()
      requires IsFrozen() && Thaws(forwardAdj, forwardCsr, nextNodeId) && Thaws(reverseAdj, reverseCsr, nextNodeId)
      requires |reverseCsr.offsets| == |forwardCsr.offsets|
      requires NothingBeyond(forwardCsr, map[], nextNodeId) && NothingBeyond(reverseCsr, map[], nextNodeId)
      modifies this`forwardCsr, this`reverseCsr
      ensures ValidRepresentation() && !IsFrozen() && View() == old(View())
    {
      RowsHideMaps(nodes.Keys, forwardCsr, map[], forwardAdj);
      RowsHideMaps(nodes.Keys, reverseCsr, map[], reverseAdj);
      ThawingRefines(nodes.Keys, forwardCsr, forwardAdj, nextNodeId);
      ThawingRefines(nodes.Keys, reverseCsr, reverseAdj, nextNodeId);
      forwardCsr, reverseCsr := EMPTY_CSR, EMPTY_CSR;
    }

    /** Records an edge in a graph that is not frozen. */
    method Connect(edge: DataEdge)
      requires !IsFrozen() && ValidRepresentation()
      requires edge.from in nodes && edge.to in nodes && edge.from < nextNodeId && edge.to < nextNodeId
      modifies this`nodes, this`edges, this`nextEdgeId, this`forwardAdj, this`reverseAdj
      ensures ValidRepresentation() && nextEdgeId == old(nextEdgeId) + 1
      ensures View() == WithEdge(old(View()), edge)
      ensures edges == old(edges)[edge.id := edge]
    {
      NothingBeyondPush(forwardCsr, forwardAdj, nextNodeId, edge.from, edge.to);
      NothingBeyondPush(reverseCsr, reverseAdj, nextNodeId, edge.to, edge.from);
      LinkedView(nodes, forwardCsr, forwardAdj, reverseCsr, reverseAdj, entryNode, exitNode, edge);
      nextEdgeId := nextEdgeId + 1;
      nodes := nodes[edge.from := nodes[edge.from].(outgoing := nodes[edge.from].outgoing + [edge.id])];
      nodes := nodes[edge.to := nodes[edge.to].(incoming := nodes[edge.to].incoming + [edge.id])];
      forwardAdj := forwardAdj[edge.from := Neighbours(forwardAdj, edge.from) + [edge.to]];
      reverseAdj := reverseAdj[edge.to := Neighbours(reverseAdj, edge.to) + [edge.from]];
      edges := edges[edge.id := edge];
    }

    /** Adds an edge between existing nodes. A frozen graph is thawed first, so the lists end
        up as on the graph that was never frozen. `None` stands for a panic of the program in
        the thawing loop, which strikes exactly when the graph is frozen and two or more nodes
        were added since; nodes, edges and frozen arrays are then untouched. */
    method AddEdge(edge: DataEdge) returns (id: Option<EdgeId>)
      requires Valid() && edge.from in nodes && edge.to in nodes
      modifies this`nodes, this`edges, this`nextEdgeId
      modifies this`forwardCsr, this`reverseCsr, this`forwardAdj, this`reverseAdj
      ensures nextEdgeId == old(nextEdgeId) + 1
      ensures id.Some? <==> !old(IsFrozen()) || nextNodeId < |old(forwardCsr).offsets|
      ensures id.Some? ==>
        && Valid() && !IsFrozen()
        && id.value == old(nextEdgeId)
        && View() == WithEdge(old(View()), edge.(id := id.value))
        && edges == old(edges)[id.value := edge.(id := id.value)]
      ensures id.None? ==>
        nodes == old(nodes) && edges == old(edges) && forwardCsr == old(forwardCsr) && reverseCsr == old(reverseCsr)
    {
      var e := nextEdgeId;
      var ok := InvalidateCsr();
      if !ok {
        nextEdgeId := nextEdgeId + 1;
        return None;
      }
      AddToThawed(edge.(id := e));
      id := Some(e);
    }

    /** Adds an edge that carries its id to a graph that is not frozen. */
    method AddToThawed(edge: DataEdge)
      requires Valid() && !IsFrozen() && edge.id == nextEdgeId && edge.from in nodes && edge.to in nodes
      modifies this`nodes, this`edges, this`nextEdgeId, this`forwardAdj, this`reverseAdj
      ensures Valid() && nextEdgeId == old(nextEdgeId) + 1
      ensures View() == WithEdge(old(View()), edge)
      ensures edges == old(edges)[edge.id := edge]
    {
      ghost var before := View();
      EdgeKeepsView(before, edges, nextEdgeId, edge);
      KeysStay(before, edge);
      Connect(edge);
    }
  }

  /** Freezing twice: the one edge of this graph, a loop on its only node, is gone after the
      second freeze. */
  method RefreezingLosesEdges(node: DataNode, edgeType: EdgeType) returns (once: seq<NodeId>, twice: seq<NodeId>)
    ensures once == [0] && twice == []
  {
    var g, u := SelfLoop(node, edgeType);
    g.Freeze();
    assert g.View().succs[u] == [u];
    once := g.Successors(u);
    g.Freeze();
    assert g.View().succs[u] == [];
    twice := g.Successors(u);
  }

  /** A graph of one node that links to itself. */
  method SelfLoop(node: DataNode, edgeType: EdgeType) returns (g: DataFlowGraph, u: NodeId)
    ensures fresh(g) && g.Valid() && !g.IsFrozen()
    ensures u == 0 && u in g.View().nodes && g.View().succs[u] == [u] && g.View().preds[u] == [u]
  {
    g := new DataFlowGraph();
    u := g.AddNode(node);
    var e := g.AddEdge(DataEdge(0, u, u, edgeType));
  }

  /** Adding a node to a frozen graph leaves the number of frozen rows as it was. */
  method AddToFrozen(g: DataFlowGraph, node: DataNode) returns (id: NodeId)
    requires g.Valid() && g.IsFrozen()
    modifies g`nodes, g`nextNodeId
    ensures g.Valid() && g.IsFrozen() && g.nextNodeId == old(g.nextNodeId) + 1
    ensures id in g.nodes && old(g.nodes).Keys <= g.nodes.Keys
  {
    id := g.AddNode(node);
  }

  method FreezeAndAddTwo(g: DataFlowGraph, node: DataNode) returns (u: NodeId, v: NodeId)
    requires g.Valid()
    modifies g
    ensures g.Valid() && g.IsFrozen() && u in g.nodes && v in g.nodes && g.nextNodeId == |g.forwardCsr.offsets|
  {
    g.Freeze();
    u := AddToFrozen(g, node);
    v := AddToFrozen(g, node);
  }

  /** Adding two nodes to any graph that was just frozen makes the next edge fail. */
  method TwoNewNodesPreventThawing(g: DataFlowGraph, node: DataNode, edgeType: EdgeType) returns (e: Option<EdgeId>)
    requires g.Valid()
    modifies g
    ensures e == None
  {
    var u, v := FreezeAndAddTwo(g, node);
    e := g.AddEdge(DataEdge(0, u, v, edgeType));
  }

  /** A set that holds exactly the numbers below `n` has `n` elements. */
  lemma {:induction false} DenseKeys(s: set<nat>, n: nat)
    requires forall k: nat :: k in s <==> k < n
    ensures |s| == n
  {
    if n == 0 {
      assert s == {};
    } else {
      DenseKeys(s - {n - 1}, n - 1);
    }
  }
}
