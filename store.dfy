/**
 * The state of the hybrid knowledge store (`AuraBrain`) as a value, and each
 * of its operations as a function from the old state to the new one.
 *
 * The factual graph is a map from node id to node data plus one labelled edge
 * per ordered pair of nodes; `edgeOrder` lists the pairs in the order they
 * were first inserted, which is the order in which the graph library
 * enumerates a node's predecessors and successors. The vector index is
 * abstracted to the set of ids it holds. Ids come from the counter `nextId`.
 *
 * Node ids in every reachable store are exactly 0 .. nextId-1 (a fresh store
 * is empty, loading relabels the nodes 0 .. n-1 and sets the counter to n,
 * and adding a node uses the counter and increments it), so the graph's
 * node order, which is insertion order, is ascending id order.
 */
module KnowledgeStore {
  import opened Wrappers
  import Text

  type NodeId = int
  type Pair = (NodeId, NodeId)

  /** An embedding vector; its numbers play no part in the model. */
  type Embedding = seq<real>

  /** The embedding provider: a vector for the text, or None when the call fails. */
  type Embedder = string -> Option<Embedding>

  /**
   * The approximate nearest-neighbour search over the vector index, given
   * as the set of ids it holds: up to `k` ids for a query vector.
   */
  type AnnSearch = (set<NodeId>, Embedding, nat) -> seq<int>

  /** A search that only returns ids held by the index searched, or the padding id -1. */
  ghost predicate FromIndex(ann: AnnSearch)
  {
    forall ix, v, k, x :: x in ann(ix, v, k) ==> x in ix || x == -1
  }

  /** The attributes of a node the core reads; a loaded node may lack either. */
  datatype NodeData = NodeData(content: Option<string>, nodeType: Option<string>)

  datatype Store = Store(
    nodes: map<NodeId, NodeData>,
    labels: map<Pair, string>,
    edgeOrder: seq<Pair>,
    index: set<NodeId>,
    nextId: nat)

  function Empty(): Store
  {
    Store(map[], map[], [], {}, 0)
  }

  ghost predicate DistinctPairs(ps: seq<Pair>)
  {
    forall i, j :: 0 <= i < j < |ps| ==> ps[i] != ps[j]
  }

  /**
   * The store invariant: the node ids are exactly 0 .. nextId-1, `edgeOrder`
   * lists every edge once, and both ends of every edge are nodes.
   */
  ghost predicate Valid(s: Store)
  {
    && (forall id :: id in s.nodes <==> 0 <= id < s.nextId)
    && (forall p :: p in s.labels <==> p in s.edgeOrder)
    && DistinctPairs(s.edgeOrder)
    && (forall p :: p in s.labels ==> p.0 in s.nodes && p.1 in s.nodes)
  }

  /** The vector index holds exactly the ids of the graph's nodes. */
  ghost predicate Synced(s: Store)
  {
    s.index == s.nodes.Keys
  }

  lemma EmptyValid()
    ensures Valid(Empty()) && Synced(Empty())
  {
  }

  /** Every node id is below the counter. */
  lemma IdsBelowCounter(s: Store, id: NodeId)
    requires Valid(s) && id in s.nodes
    ensures 0 <= id < s.nextId
  {
  }

  // ---------------------------------------------------------------------------
  // Embedding
  // ---------------------------------------------------------------------------

  /**
   * `get_embedding`: the provider is asked for the text with every newline
   * turned into a space, so text without a newline reaches it as it is.
   */
  function GetEmbedding(embed: Embedder, text: string): (r: Option<Embedding>)
    ensures r == embed(Text.Swap(text, '\n', ' '))
    ensures Text.Lacks(text, '\n') ==> r == embed(text)
  {
    var asked := Text.ReplaceAll(text, "\n", " ");
    assert asked == Text.Swap(text, '\n', ' ') by {
      Text.ReplaceOneChar(text, '\n', ' ');
    }
    assert Text.Lacks(text, '\n') ==> asked == text by {
      if Text.Lacks(text, '\n') {
        Text.AbsentWhenFirstLacking(text, "\n");
        Text.ReplaceAbsent(text, "\n", " ");
      }
    }
    embed(asked)
  }

  // ---------------------------------------------------------------------------
  // add_node
  // ---------------------------------------------------------------------------

  datatype Added = Added(store: Store, id: Option<NodeId>)

  /**
   * `add_node`: commits a node only once its embedding was obtained. On
   * failure nothing changes and no id is consumed; on success the old counter
   * is the new id, a fresh one, and it enters both the graph and the index.
   */
  function AddNode(s: Store, content: string, nodeType: string, embed: Embedder): (r: Added)
    ensures r.id.None? <==> GetEmbedding(embed, content).None?
    ensures r.id.None? ==> r.store == s
    ensures r.id.Some? ==>
      && r.id.value == s.nextId
      && r.store.nextId == s.nextId + 1
      && r.store.nodes == s.nodes[s.nextId := NodeData(Some(content), Some(nodeType))]
      && r.store.index == s.index + {s.nextId}
      && r.store.labels == s.labels && r.store.edgeOrder == s.edgeOrder
    ensures Valid(s) ==> Valid(r.store) && (r.id.Some? ==> r.id.value !in s.nodes)
    ensures Synced(s) && Valid(s) ==> Synced(r.store)
  {
    var nodeId := s.nextId;
    match GetEmbedding(embed, content)
    case None => Added(s, None)
    case Some(_) =>
      Added(Store(s.nodes[nodeId := NodeData(Some(content), Some(nodeType))],
                  s.labels, s.edgeOrder, s.index + {nodeId}, s.nextId + 1),
            Some(nodeId))
  }

  /** One `add_node` call: its content and type, and how the provider answers that call. */
  datatype AddCall = AddCall(content: string, nodeType: string, embed: Embedder)

  /**
   * Adds nodes one after another, as a caller making repeated `add_node`
   * calls does. Each call has its own provider, so a text the provider
   * failed on once may embed on a later call.
   */
  function AddAll(s: Store, calls: seq<AddCall>): Store
    decreases |calls|
  {
    if |calls| == 0 then s
    else AddAll(AddNode(s, calls[0].content, calls[0].nodeType, calls[0].embed).store, calls[1..])
  }

  /** How many of the calls the provider answers with an embedding. */
  function Successes(calls: seq<AddCall>): nat
    decreases |calls|
  {
    if |calls| == 0 then 0
    else (if GetEmbedding(calls[0].embed, calls[0].content).Some? then 1 else 0) + Successes(calls[1..])
  }

  /**
   * Id monotonicity: after any run of `add_node` calls on a fresh store,
   * some of them failing, the ids in use are exactly 0 .. n-1 for the n
   * calls that succeeded, and the index holds the same ids.
   */
  lemma {:induction false} AddAllDense(calls: seq<AddCall>)
    ensures AddAll(Empty(), calls).nextId == Successes(calls)
    ensures forall id :: id in AddAll(Empty(), calls).nodes <==> 0 <= id < Successes(calls)
    ensures Synced(AddAll(Empty(), calls))
  {
    AddAllFrom(Empty(), calls);
  }

  lemma {:induction false} AddAllFrom(s: Store, calls: seq<AddCall>)
    requires Valid(s) && Synced(s)
    ensures Valid(AddAll(s, calls)) && Synced(AddAll(s, calls))
    ensures AddAll(s, calls).nextId == s.nextId + Successes(calls)
    decreases |calls|
  {
    if |calls| > 0 {
      AddAllFrom(AddNode(s, calls[0].content, calls[0].nodeType, calls[0].embed).store, calls[1..]);
    }
  }

  // ---------------------------------------------------------------------------
  // get_node_by_content
  // ---------------------------------------------------------------------------

  predicate HasContent(nodes: map<NodeId, NodeData>, id: NodeId, content: string)
  {
    id in nodes && nodes[id].content == Some(content)
  }

  /** The first id in `i .. n-1` whose node has exactly this content. */
  function FirstFrom(nodes: map<NodeId, NodeData>, content: string, i: nat, n: nat): (r: Option<NodeId>)
    ensures r.Some? ==>
      && i <= r.value < n && HasContent(nodes, r.value, content)
      && (forall j :: i <= j < r.value ==> !HasContent(nodes, j, content))
    ensures r.None? ==> forall j :: i <= j < n ==> !HasContent(nodes, j, content)
    decreases n - i
  {
    if i >= n then None
    else if HasContent(nodes, i, content) then Some(i)
    else FirstFrom(nodes, content, i + 1, n)
  }

  /**
   * `get_node_by_content`: scans the nodes in order and returns the first
   * whose content equals the argument exactly, or None when there is none.
   */
  function FindContent(s: Store, content: string): (r: Option<NodeId>)
    ensures r.Some? ==> HasContent(s.nodes, r.value, content)
    ensures r.Some? ==> forall j :: 0 <= j < r.value ==> !HasContent(s.nodes, j, content)
    ensures Valid(s) ==> (r.None? <==> forall id :: !HasContent(s.nodes, id, content))
  {
    FirstFrom(s.nodes, content, 0, s.nextId)
  }

  // ---------------------------------------------------------------------------
  // find_or_create_node
  // ---------------------------------------------------------------------------

  /**
   * `find_or_create_node`: the existing node with this content, or else a
   * new one as `add_node` makes it. Whatever id it returns is afterwards the
   * one exact-content lookup finds.
   */
  function FindOrCreate(s: Store, content: string, nodeType: string, embed: Embedder): (r: Added)
    ensures FindContent(s, content).Some? ==> r == Added(s, FindContent(s, content))
    ensures FindContent(s, content).None? ==> r == AddNode(s, content, nodeType, embed)
    ensures Valid(s) ==> Valid(r.store)
    ensures Valid(s) && Synced(s) ==> Synced(r.store)
    ensures r.store.labels == s.labels && r.store.edgeOrder == s.edgeOrder
  {
    match FindContent(s, content)
    case Some(id) => Added(s, Some(id))
    case None => AddNode(s, content, nodeType, embed)
  }

  /**
   * What exact-content lookup finds after `find_or_create_node(c, ...)`: the
   * returned id for `c` itself, and for every other content what it found
   * before.
   */
  lemma FindOrCreateLookup(s: Store, c: string, t: string, embed: Embedder, d: string)
    requires Valid(s)
    ensures FindContent(FindOrCreate(s, c, t, embed).store, d) ==
      if d == c then FindOrCreate(s, c, t, embed).id else FindContent(s, d)
  {
    var r := FindOrCreate(s, c, t, embed);
    if FindContent(s, c).None? && r.id.Some? {
      var n := s.nextId;
      assert forall j :: 0 <= j < n ==> (HasContent(r.store.nodes, j, d) <==> HasContent(s.nodes, j, d));
      assert r.store.nextId == n + 1;
      if d == c {
        assert HasContent(r.store.nodes, n, d);
      } else {
        assert !HasContent(r.store.nodes, n, d);
      }
    }
  }

  /**
   * `find_or_create_node` is idempotent: once a call returned an id, calling
   * it again with the same content (whatever the type or the provider's
   * answer) returns the same id and changes nothing, so the two calls
   * together create at most one node.
   */
  lemma FindOrCreateIdempotent(s: Store, c: string, t1: string, t2: string, e1: Embedder, e2: Embedder)
    requires Valid(s)
    ensures var first := FindOrCreate(s, c, t1, e1);
      first.id.Some? ==> FindOrCreate(first.store, c, t2, e2) == first
    ensures var first := FindOrCreate(s, c, t1, e1);
      FindOrCreate(first.store, c, t2, e2).store.nextId <= s.nextId + 1
  {
    var first := FindOrCreate(s, c, t1, e1);
    FindOrCreateLookup(s, c, t1, e1, c);
    if first.id.None? {
      assert first.store == s;
    }
  }

  // ---------------------------------------------------------------------------
  // add_edge
  // ---------------------------------------------------------------------------

  /**
   * `add_edge`: when both endpoints are nodes, the pair gets this label (a
   * pair already present keeps its place in the edge order); otherwise the
   * store is left as it is, without an error.
   */
  function AddEdge(s: Store, source: NodeId, target: NodeId, relationship: string): (r: Store)
    ensures r.nodes == s.nodes && r.index == s.index && r.nextId == s.nextId
    ensures source in s.nodes && target in s.nodes ==>
      && r.labels == s.labels[(source, target) := relationship]
      && r.edgeOrder == (if (source, target) in s.labels then s.edgeOrder else s.edgeOrder + [(source, target)])
    ensures !(source in s.nodes && target in s.nodes) ==> r == s
    ensures Valid(s) ==> Valid(r)
  {
    if source in s.nodes && target in s.nodes then
      var p := (source, target);
      s.(labels := s.labels[p := relationship],
         edgeOrder := if p in s.labels then s.edgeOrder else s.edgeOrder + [p])
    else s
  }

  // ---------------------------------------------------------------------------
  // hybrid_search: neighbourhoods
  // ---------------------------------------------------------------------------

  /** The sources of the edges into `n`, in edge order. */
  function Predecessors(ps: seq<Pair>, n: NodeId): (r: seq<NodeId>)
    ensures forall u :: u in r <==> (u, n) in ps
    ensures DistinctPairs(ps) ==> forall i, j :: 0 <= i < j < |r| ==> r[i] != r[j]
    decreases |ps|
  {
    if |ps| == 0 then []
    else
      var rest := Predecessors(ps[1..], n);
      assert forall u :: (u, n) in ps <==> (u, n) == ps[0] || (u, n) in ps[1..];
      if ps[0].1 == n then [ps[0].0] + rest else rest
  }

  /** The targets of the edges out of `n`, in edge order. */
  function Successors(ps: seq<Pair>, n: NodeId): (r: seq<NodeId>)
    ensures forall v :: v in r <==> (n, v) in ps
    ensures DistinctPairs(ps) ==> forall i, j :: 0 <= i < j < |r| ==> r[i] != r[j]
    decreases |ps|
  {
    if |ps| == 0 then []
    else
      var rest := Successors(ps[1..], n);
      assert forall v :: (n, v) in ps <==> (n, v) == ps[0] || (n, v) in ps[1..];
      if ps[0].0 == n then [ps[0].1] + rest else rest
  }

  /**
   * `all_neighbors`: every predecessor, then every successor; a node that is
   * both is listed twice.
   */
  function AllNeighbors(s: Store, n: NodeId): (r: seq<NodeId>)
    ensures Valid(s) ==> forall m :: m in r <==> (m, n) in s.labels || (n, m) in s.labels
  {
    Predecessors(s.edgeOrder, n) + Successors(s.edgeOrder, n)
  }

  /** The label `hybrid_search` reports between `n` and a neighbour `m`: that of the edge out of `n` when there is one, else that of the edge into it. */
  function Relationship(s: Store, n: NodeId, m: NodeId): string
    requires (n, m) in s.labels || (m, n) in s.labels
  {
    if (n, m) in s.labels then s.labels[(n, m)] else s.labels[(m, n)]
  }

  datatype Neighbor = Neighbor(id: NodeId, content: Option<string>, nodeType: Option<string>, relationship: string)

  /** The ids of a neighbourhood's entries, in order. */
  function NeighborIds(hood: seq<Neighbor>): seq<NodeId>
  {
    seq(|hood|, i requires 0 <= i < |hood| => hood[i].id)
  }

  /** One entry of a neighbourhood: the neighbour's id, content, type and the relationship. */
  function NeighborOf(s: Store, n: NodeId, m: NodeId): Neighbor
    requires Valid(s) && ((n, m) in s.labels || (m, n) in s.labels)
  {
    assert m in s.nodes;
    Neighbor(m, s.nodes[m].content, s.nodes[m].nodeType, Relationship(s, n, m))
  }

  /**
   * The neighbourhood of `n` in `hybrid_search`: one entry per predecessor and
   * per successor. Every entry is a node joined to `n` by an edge, with that
   * node's content and type and the relationship taken from the outgoing edge
   * when there is one, else from the incoming edge; and every node joined to
   * `n` by an edge in either direction has an entry.
   */
  function Neighborhood(s: Store, n: NodeId): (r: seq<Neighbor>)
    requires Valid(s)
    ensures NeighborIds(r) == AllNeighbors(s, n)
    ensures forall m :: m in NeighborIds(r) <==> (m, n) in s.labels || (n, m) in s.labels
    ensures forall i :: 0 <= i < |r| ==>
      && ((n, r[i].id) in s.labels || (r[i].id, n) in s.labels)
      && r[i].id in s.nodes
      && r[i].content == s.nodes[r[i].id].content
      && r[i].nodeType == s.nodes[r[i].id].nodeType
      && r[i].relationship == (if (n, r[i].id) in s.labels then s.labels[(n, r[i].id)] else s.labels[(r[i].id, n)])
  {
    var ns := AllNeighbors(s, n);
    assert forall i :: 0 <= i < |ns| ==> ns[i] in ns;
    var r := seq(|ns|, i requires 0 <= i < |ns| => NeighborOf(s, n, ns[i]));
    assert NeighborIds(r) == ns;
    r
  }

  // ---------------------------------------------------------------------------
  // hybrid_search: seeds
  // ---------------------------------------------------------------------------

  /**
   * The keys of the `results` dict `hybrid_search` fills: the hits that are
   * nodes, each once, in the order of its first hit.
   */
  function SeedOrder(hits: seq<int>, nodes: map<NodeId, NodeData>): (r: seq<NodeId>)
    ensures |r| <= |hits|
    ensures forall x :: x in r <==> x in hits && x in nodes
    ensures forall i, j :: 0 <= i < j < |r| ==> r[i] != r[j]
    ensures forall i, j, k :: 0 <= i < j < |r| && 0 <= k < |hits| && hits[k] == r[j] ==> r[i] in hits[..k]
    decreases |hits|
  {
    if |hits| == 0 then []
    else
      var prefix := hits[..|hits| - 1];
      var h := hits[|hits| - 1];
      var p := SeedOrder(prefix, nodes);
      assert hits == prefix + [h];
      assert forall k :: 0 <= k < |hits| - 1 ==> hits[..k] == prefix[..k];
      if h in nodes && h !in p then p + [h] else p
  }

  datatype Seed = Seed(id: NodeId, content: Option<string>, nodeType: Option<string>, neighborhood: seq<Neighbor>)

  function SeedOf(s: Store, id: NodeId): Seed
    requires Valid(s) && id in s.nodes
  {
    Seed(id, s.nodes[id].content, s.nodes[id].nodeType, Neighborhood(s, id))
  }

  /**
   * `hybrid_search(query, k)`: empty when the query cannot be embedded;
   * otherwise one entry per distinct hit of the nearest-neighbour search that
   * is still a node (padding and absent ids are skipped), in hit order, each
   * with that node's content, type and full neighbourhood. When the search
   * returns at most `k` ids, at most `k` seeds come back.
   */
  function HybridSearch(s: Store, query: string, k: nat, embed: Embedder, ann: AnnSearch): (r: seq<Seed>)
    requires Valid(s)
    ensures GetEmbedding(embed, query).None? ==> r == []
    ensures GetEmbedding(embed, query).Some? ==>
      var ids := SeedOrder(ann(s.index, GetEmbedding(embed, query).value, k), s.nodes);
      |r| == |ids| && forall i :: 0 <= i < |r| ==> r[i].id == ids[i]
    ensures (forall v :: |ann(s.index, v, k)| <= k) ==> |r| <= k
    ensures forall i :: 0 <= i < |r| ==> r[i].id in s.nodes && r[i] == SeedOf(s, r[i].id)
    ensures forall i, j :: 0 <= i < j < |r| ==> r[i].id != r[j].id
    ensures |s.nodes| == 0 ==> r == []
  {
    match GetEmbedding(embed, query)
    case None => []
    case Some(v) =>
      var hits := ann(s.index, v, k);
      if |hits| == 0 then []
      else
        var ids := SeedOrder(hits, s.nodes);
        assert forall i :: 0 <= i < |ids| ==> ids[i] in ids;
        var r := seq(|ids|, i requires 0 <= i < |ids| => SeedOf(s, ids[i]));
        assert |ids| > 0 ==> ids[0] in s.nodes;
        r
  }

  /**
   * With a search that only returns what the index holds, every seed is an
   * indexed node; when the index is aligned with the graph, every hit that
   * is not padding is a seed.
   */
  lemma HybridSearchIndexed(s: Store, query: string, k: nat, embed: Embedder, ann: AnnSearch)
    requires Valid(s) && FromIndex(ann)
    ensures var r := HybridSearch(s, query, k, embed, ann);
      && (forall i :: 0 <= i < |r| ==> r[i].id in s.index)
      && (Synced(s) && GetEmbedding(embed, query).Some? ==>
            forall x :: x in ann(s.index, GetEmbedding(embed, query).value, k) && x != -1 ==>
              exists i :: 0 <= i < |r| && r[i].id == x)
  {
    var r := HybridSearch(s, query, k, embed, ann);
    if GetEmbedding(embed, query).Some? {
      var hits := ann(s.index, GetEmbedding(embed, query).value, k);
      var ids := SeedOrder(hits, s.nodes);
      forall i | 0 <= i < |r| ensures r[i].id in s.index {
        assert r[i].id == ids[i] && ids[i] in ids;
      }
      if Synced(s) {
        forall x | x in hits && x != -1 ensures exists i :: 0 <= i < |r| && r[i].id == x {
          assert x in ids;
          var i :| 0 <= i < |ids| && ids[i] == x;
          assert r[i].id == x;
        }
      }
    }
  }

  // ---------------------------------------------------------------------------
  // _rebuild_index_from_graph
  // ---------------------------------------------------------------------------

  /** `if embedding:` in the rebuild: a vector that is present and not empty. */
  predicate Embeds(embed: Embedder, text: string)
  {
    var e := GetEmbedding(embed, text);
    e.Some? && |e.value| > 0
  }

  /** The nodes the rebuild indexes: those that have content the provider embeds. */
  function Embeddable(s: Store, embed: Embedder): (r: set<NodeId>)
    ensures forall id :: id in r <==>
      id in s.nodes && s.nodes[id].content.Some? && Embeds(embed, s.nodes[id].content.value)
  {
    set id | id in s.nodes && s.nodes[id].content.Some? && Embeds(embed, s.nodes[id].content.value)
  }

  /** `_rebuild_index_from_graph`: adds every embeddable node to the index; the graph is untouched. */
  function RebuildIndex(s: Store, embed: Embedder): (r: Store)
    ensures r.nodes == s.nodes && r.labels == s.labels && r.edgeOrder == s.edgeOrder && r.nextId == s.nextId
    ensures r.index == s.index + Embeddable(s, embed)
    ensures Valid(s) ==> Valid(r)
  {
    s.(index := s.index + Embeddable(s, embed))
  }

  /**
   * A rebuild into an empty index indexes exactly the nodes with content and
   * a successful embedding, so it restores alignment with the graph iff
   * every node has content and every content embeds.
   */
  lemma RebuildSynced(s: Store, embed: Embedder)
    requires s.index == {}
    ensures RebuildIndex(s, embed).index <= s.nodes.Keys
    ensures Synced(RebuildIndex(s, embed)) <==>
      forall id :: id in s.nodes ==> s.nodes[id].content.Some? && Embeds(embed, s.nodes[id].content.value)
  {
    var r := RebuildIndex(s, embed);
    if forall id :: id in s.nodes ==> s.nodes[id].content.Some? && Embeds(embed, s.nodes[id].content.value) {
      assert r.index == s.nodes.Keys;
    }
  }

  // ---------------------------------------------------------------------------
  // Persistence: the graph and index files as values
  // ---------------------------------------------------------------------------

  /** An edge of a graph file, by the positions of its endpoints in the node list. */
  datatype FileEdge = FileEdge(source: nat, target: nat, relationship: string)

  /** A graph file as the graph library reads it: its nodes in order and its edges in enumeration order. */
  datatype GraphFile = GraphFile(nodes: seq<NodeData>, edges: seq<FileEdge>)

  function FilePairs(es: seq<FileEdge>): (r: seq<Pair>)
    ensures |r| == |es| && forall i :: 0 <= i < |es| ==> r[i] == (es[i].source as int, es[i].target as int)
  {
    seq(|es|, i requires 0 <= i < |es| => (es[i].source as int, es[i].target as int))
  }

  /**
   * A directed graph as the library reads it: edge endpoints are nodes, no
   * ordered pair has two edges, and the edges come grouped by source node
   * in node order, which is how the library enumerates them.
   */
  ghost predicate WellFormed(g: GraphFile)
  {
    && (forall i :: 0 <= i < |g.edges| ==> g.edges[i].source < |g.nodes| && g.edges[i].target < |g.nodes|)
    && DistinctPairs(FilePairs(g.edges))
    && SourceOrdered(g.edges)
  }

  /** Edges listed by source node in node order, as the library enumerates them. */
  ghost predicate SourceOrdered(es: seq<FileEdge>)
  {
    forall i, j :: 0 <= i < j < |es| ==> es[i].source <= es[j].source
  }

  /** The labels of a file's edges, keyed by pair. */
  function FileLabels(es: seq<FileEdge>): (r: map<Pair, string>)
    ensures forall p :: p in r <==> p in FilePairs(es)
    ensures DistinctPairs(FilePairs(es)) ==>
      forall i :: 0 <= i < |es| ==> r[(es[i].source as int, es[i].target as int)] == es[i].relationship
    decreases |es|
  {
    if |es| == 0 then map[]
    else
      var init := es[..|es| - 1];
      var e := es[|es| - 1];
      var pe := (e.source as int, e.target as int);
      var ps := FilePairs(es);
      assert ps == FilePairs(init) + [pe];
      var r := FileLabels(init)[pe := e.relationship];
      assert DistinctPairs(ps) ==>
        forall i :: 0 <= i < |es| ==> r[(es[i].source as int, es[i].target as int)] == es[i].relationship
      by {
        if DistinctPairs(ps) {
          assert DistinctPairs(FilePairs(init)) by {
            assert forall i :: 0 <= i < |init| ==> FilePairs(init)[i] == ps[i];
          }
          forall i | 0 <= i < |es| - 1
            ensures r[(es[i].source as int, es[i].target as int)] == es[i].relationship
          {
            assert ps[i] != ps[|es| - 1] && init[i] == es[i];
          }
        }
      }
      r
  }

  /** `[0, 1, ..., n-1]`, the node ids after relabelling. */
  function Range(n: nat): (r: seq<NodeId>)
    ensures |r| == n && forall i :: 0 <= i < n ==> r[i] == i
  {
    seq(n, i requires 0 <= i < n => i)
  }

  /** `max(ids)`. */
  function MaxOf(ids: seq<int>): (m: int)
    requires |ids| > 0
    ensures m in ids && forall x :: x in ids ==> x <= m
    decreases |ids|
  {
    if |ids| == 1 then ids[0]
    else
      var rest := MaxOf(ids[1..]);
      assert forall x :: x in ids ==> x == ids[0] || x in ids[1..];
      if ids[0] >= rest then ids[0] else rest
  }

  /** `max(self.graph.nodes) + 1 if self.graph.nodes else 0`. */
  function LoadedNextId(ids: seq<NodeId>): int
  {
    if |ids| == 0 then 0 else MaxOf(ids) + 1
  }

  /** After relabelling n nodes to 0 .. n-1 the counter is n. */
  lemma LoadedNextIdIsCount(n: nat)
    ensures LoadedNextId(Range(n)) == n
  {
    if n > 0 {
      assert Range(n)[n - 1] == n - 1;
      assert n - 1 in Range(n);
    }
  }

  /** The graph read from a file and relabelled to integers 0 .. n-1; the index is left empty. */
  function Relabel(g: GraphFile): (r: Store)
    requires WellFormed(g)
    ensures Valid(r) && r.nextId == |g.nodes| && r.index == {}
    ensures forall i :: 0 <= i < |g.nodes| ==> r.nodes[i] == g.nodes[i]
    ensures r.labels == FileLabels(g.edges) && r.edgeOrder == FilePairs(g.edges)
  {
    var n := |g.nodes|;
    LoadedNextIdIsCount(n);
    var nodes := map i | 0 <= i < n :: g.nodes[i];
    var r := Store(nodes, FileLabels(g.edges), FilePairs(g.edges), {}, LoadedNextId(Range(n)) as nat);
    assert forall p :: p in r.labels ==> p.0 in nodes && p.1 in nodes by {
      forall p | p in r.labels ensures p.0 in nodes && p.1 in nodes {
        var i :| 0 <= i < |g.edges| && FilePairs(g.edges)[i] == p;
      }
    }
    r
  }

  /**
   * Constructing the store: the graph file relabelled when there is one, else
   * an empty graph; the index file when there is one, else an empty index,
   * rebuilt from the graph when the graph has nodes.
   */
  function Open(graphFile: Option<GraphFile>, indexFile: Option<set<NodeId>>, embed: Embedder): (r: Store)
    requires graphFile.Some? ==> WellFormed(graphFile.value)
    ensures Valid(r)
    ensures graphFile.None? ==> r.nodes == map[] && r.nextId == 0
    ensures graphFile.Some? ==> r.nextId == |graphFile.value.nodes|
    ensures indexFile.Some? ==> r.index == indexFile.value
    ensures indexFile.None? ==> r.index == Embeddable(r, embed)
    ensures graphFile.None? && indexFile.None? ==> r == Empty()
  {
    match graphFile
    case None => Empty().(index := indexFile.GetOr({}))
    case Some(g) =>
      var loaded := Relabel(g);
      match indexFile
      case Some(ids) => loaded.(index := ids)
      case None => if |g.nodes| > 0 then RebuildIndex(loaded, embed) else loaded
  }

  /** The edges with source `x`, in edge order. */
  function FromSource(ps: seq<Pair>, x: NodeId): (r: seq<Pair>)
    ensures forall p :: p in r <==> p in ps && p.0 == x
    ensures DistinctPairs(ps) ==> DistinctPairs(r)
    decreases |ps|
  {
    if |ps| == 0 then []
    else
      var rest := FromSource(ps[1..], x);
      assert forall p :: p in ps <==> p == ps[0] || p in ps[1..];
      assert forall j :: 0 <= j < |ps| - 1 ==> ps[1..][j] == ps[j + 1];
      assert DistinctPairs(ps) ==> DistinctPairs(ps[1..]) && ps[0] !in ps[1..];
      if ps[0].0 == x then [ps[0]] + rest else rest
  }

  /**
   * The order in which the graph library enumerates edges: grouped by source
   * node in node order, and within a group in edge order.
   */
  function BySource(ps: seq<Pair>, n: nat): (r: seq<Pair>)
    ensures forall p :: p in r <==> p in ps && 0 <= p.0 < n
    ensures DistinctPairs(ps) ==> DistinctPairs(r)
    decreases n
  {
    if n == 0 then []
    else
      var front := BySource(ps, n - 1);
      var group := FromSource(ps, n - 1);
      var r := front + group;
      assert forall i :: 0 <= i < |front| ==> front[i] in front;
      assert forall i :: 0 <= i < |group| ==> group[i] in group;
      r
  }

  ghost predicate PairsBySource(ps: seq<Pair>)
  {
    forall i, j :: 0 <= i < j < |ps| ==> ps[i].0 <= ps[j].0
  }

  /** The library's enumeration lists the edges by source node in node order. */
  lemma {:induction false} BySourceSorted(ps: seq<Pair>, n: nat)
    ensures PairsBySource(BySource(ps, n))
    decreases n
  {
    if n > 0 {
      BySourceSorted(ps, n - 1);
      var front, group := BySource(ps, n - 1), FromSource(ps, n - 1);
      var r := front + group;
      assert BySource(ps, n) == r;
      forall i, j | 0 <= i < j < |r| ensures r[i].0 <= r[j].0 {
        assert PairsBySource(front);
        if i < |front| {
          assert r[i] == front[i] && front[i] in front;
          if j < |front| {
            assert r[j] == front[j];
          } else {
            assert r[j] == group[j - |front|] && group[j - |front|] in group;
          }
        } else {
          assert r[i] == group[i - |front|] && group[i - |front|] in group;
          assert r[j] == group[j - |front|] && group[j - |front|] in group;
        }
      }
    }
  }

  /** The edges of a store as a graph file lists them, with positions as endpoints. */
  function FileEdges(s: Store, ps: seq<Pair>): (r: seq<FileEdge>)
    requires forall p :: p in ps ==> p in s.labels && p.0 >= 0 && p.1 >= 0
    ensures FilePairs(r) == ps
  {
    var r := seq(|ps|, i requires 0 <= i < |ps| => FileEdge(ps[i].0 as nat, ps[i].1 as nat, s.labels[ps[i]]));
    assert forall i :: 0 <= i < |ps| ==> FilePairs(r)[i] == ps[i];
    r
  }

  /** A store's edges written in the library's enumeration order come out ordered by source. */
  lemma FileEdgesOrdered(s: Store, ps: seq<Pair>)
    requires Valid(s) && ps == BySource(s.edgeOrder, s.nextId)
    requires forall p :: p in ps ==> p in s.labels && p.0 >= 0 && p.1 >= 0
    ensures SourceOrdered(FileEdges(s, ps))
  {
    BySourceSorted(s.edgeOrder, s.nextId);
    var es := FileEdges(s, ps);
    assert PairsBySource(ps);
    forall i, j | 0 <= i < j < |es| ensures es[i].source <= es[j].source {
      assert FilePairs(es)[i] == ps[i] && FilePairs(es)[j] == ps[j];
    }
  }

  /** `save`: the graph file (nodes in order, edges in enumeration order) and the index file. */
  function Save(s: Store): (r: (GraphFile, set<NodeId>))
    requires Valid(s)
    ensures WellFormed(r.0) && |r.0.nodes| == s.nextId && r.1 == s.index
  {
    var ps := BySource(s.edgeOrder, s.nextId);
    assert forall p :: p in ps ==> p in s.labels && p.0 >= 0 && p.1 >= 0;
    var g := GraphFile(seq(s.nextId, i requires 0 <= i < s.nextId => s.nodes[i]), FileEdges(s, ps));
    assert WellFormed(g) by {
      forall i | 0 <= i < |g.edges| ensures g.edges[i].source < |g.nodes| && g.edges[i].target < |g.nodes| {
        assert ps[i] in ps;
      }
      FileEdgesOrdered(s, ps);
    }
    (g, s.index)
  }

  /** The labels read back from a saved graph file are the store's labels. */
  lemma SavedLabels(s: Store)
    requires Valid(s)
    ensures FileLabels(Save(s).0.edges) == s.labels
  {
    var ps := BySource(s.edgeOrder, s.nextId);
    assert forall p :: p in ps ==> p in s.labels && p.0 >= 0 && p.1 >= 0;
    var es := FileEdges(s, ps);
    assert Save(s).0.edges == es;
    SavedPairs(s);
    FileLabelsOf(es, s.labels);
  }

  /** A file whose edges are distinct pairs, exactly the keys of `labels`, each carrying its label there, reads back as `labels`. */
  lemma {:induction false} FileLabelsOf(es: seq<FileEdge>, labels: map<Pair, string>)
    requires DistinctPairs(FilePairs(es))
    requires forall p :: p in labels <==> p in FilePairs(es)
    requires forall i :: 0 <= i < |es| ==> labels[FilePairs(es)[i]] == es[i].relationship
    ensures FileLabels(es) == labels
  {
    var r := FileLabels(es);
    forall p | p in labels ensures p in r && r[p] == labels[p] {
      var i :| 0 <= i < |es| && FilePairs(es)[i] == p;
      assert r[(es[i].source as int, es[i].target as int)] == es[i].relationship;
    }
  }

  /** The pairs of a saved graph file are the store's edges, each once. */
  lemma SavedPairs(s: Store)
    requires Valid(s)
    ensures var es := Save(s).0.edges;
      && FilePairs(es) == BySource(s.edgeOrder, s.nextId)
      && DistinctPairs(FilePairs(es))
      && (forall p :: p in FileLabels(es) <==> p in s.labels)
  {
    var ps := BySource(s.edgeOrder, s.nextId);
    assert forall p :: p in s.edgeOrder ==> 0 <= p.0 < s.nextId;
    assert forall p :: p in ps <==> p in s.labels;
  }

  lemma SavedLabelAt(s: Store, p: Pair)
    requires Valid(s) && p in FileLabels(Save(s).0.edges)
    ensures p in s.labels && FileLabels(Save(s).0.edges)[p] == s.labels[p]
  {
    var es := Save(s).0.edges;
    SavedPairs(s);
    var i :| 0 <= i < |FilePairs(es)| && FilePairs(es)[i] == p;
    assert es[i].relationship == s.labels[p];
  }

  /**
   * Snapshot round trip: saving a store and constructing a new one from the
   * two files gives back the same nodes, edges with their labels, index and
   * counter (the counter being the node count). Only the edge order changes,
   * to the library's enumeration order, which has the same edges.
   */
  lemma SaveOpenRoundTrip(s: Store, embed: Embedder)
    requires Valid(s)
    ensures var files := Save(s);
      var r := Open(Some(files.0), Some(files.1), embed);
      && r.nodes == s.nodes && r.labels == s.labels && r.index == s.index
      && r.nextId == s.nextId
      && r.edgeOrder == BySource(s.edgeOrder, s.nextId)
      && (forall p :: p in r.edgeOrder <==> p in s.edgeOrder)
  {
    var files := Save(s);
    var g := files.0;
    var loaded := Relabel(g);
    assert Open(Some(g), Some(files.1), embed) == loaded.(index := s.index);
    SavedLabels(s);
    SavedNodes(s);
    assert forall p :: p in s.edgeOrder ==> 0 <= p.0 < s.nextId;
  }

  /** The nodes read back from a saved graph file are the store's nodes. */
  lemma SavedNodes(s: Store)
    requires Valid(s)
    ensures Relabel(Save(s).0).nodes == s.nodes
  {
    var g := Save(s).0;
    var loaded := Relabel(g);
    assert |g.nodes| == s.nextId;
    forall i | i in loaded.nodes ensures i in s.nodes && loaded.nodes[i] == s.nodes[i] {
      assert loaded.nodes[i] == g.nodes[i];
    }
    forall i | i in s.nodes ensures i in loaded.nodes {
      assert 0 <= i < |g.nodes|;
    }
  }
}
