/**
 * The tools `AuraAgent` offers over the knowledge store, as functions from a
 * store (and the tool's arguments) to the new store and the message the tool
 * returns. Class `AuraAgent` (module Agent) runs them step by step on an
 * `AuraBrain` and is proved against these functions.
 */
module Tools {
  import opened Wrappers
  import Text
  import opened KnowledgeStore

  /** What a tool leaves behind: the store after it and the text it returns. */
  datatype Outcome = Outcome(store: Store, message: string)

  /** The store only grows: every node keeps its data and the counter does not go back. */
  ghost predicate Grows(s: Store, r: Store)
  {
    && s.nextId <= r.nextId
    && (forall id :: id in s.nodes ==> id in r.nodes && r.nodes[id] == s.nodes[id])
  }

  // ---------------------------------------------------------------------------
  // update_knowledge_base: the node loop
  // ---------------------------------------------------------------------------

  /** One entry of the extracted graph's `nodes` list. */
  datatype NodeSpec = NodeSpec(content: string, nodeType: string)

  /** One entry of the extracted graph's `edges` list. */
  datatype EdgeSpec = EdgeSpec(source: string, target: string, relationship: string)

  /** The extracted graph; either key may be missing, and a missing key reads as an empty list. */
  datatype ExtractedGraph = ExtractedGraph(nodes: Option<seq<NodeSpec>>, edges: Option<seq<EdgeSpec>>)

  /** `node_id_map`: content to the id `find_or_create_node` returned, None included. */
  type IdMap = map<string, Option<NodeId>>

  function Contents(nodes: seq<NodeSpec>): (r: seq<string>)
    ensures |r| == |nodes| && forall i :: 0 <= i < |nodes| ==> r[i] == nodes[i].content
  {
    seq(|nodes|, i requires 0 <= i < |nodes| => nodes[i].content)
  }

  /**
   * The node loop: find-or-create every node in order, recording each
   * content's id (a later repeat overwrites). It touches no edge and never
   * moves the counter back.
   */
  function MapNodes(s: Store, nodes: seq<NodeSpec>, embed: Embedder): (r: (Store, IdMap))
    ensures r.0.labels == s.labels && r.0.edgeOrder == s.edgeOrder
    ensures s.nextId <= r.0.nextId
    decreases |nodes|
  {
    if |nodes| == 0 then (s, map[])
    else
      var (before, ids) := MapNodes(s, nodes[..|nodes| - 1], embed);
      var node := nodes[|nodes| - 1];
      var r := FindOrCreate(before, node.content, node.nodeType, embed);
      (r.store, ids[node.content := r.id])
  }

  /** Every recorded id is the one exact-content lookup finds in `s`. */
  ghost predicate Current(s: Store, ids: IdMap)
  {
    forall c :: c in ids ==> ids[c] == FindContent(s, c)
  }

  /** The node loop only adds nodes: it keeps the store valid and aligned and touches no edge. */
  lemma {:induction false} MapNodesGrows(s: Store, nodes: seq<NodeSpec>, embed: Embedder)
    requires Valid(s)
    ensures var r := MapNodes(s, nodes, embed).0;
      && Valid(r) && Grows(s, r)
      && r.labels == s.labels && r.edgeOrder == s.edgeOrder
      && (Synced(s) ==> Synced(r))
    decreases |nodes|
  {
    if |nodes| > 0 {
      MapNodesGrows(s, nodes[..|nodes| - 1], embed);
    }
  }

  /**
   * After the node loop every input content is a key of the map, and no
   * other; its id is the node lookup now finds for that content, so
   * repeated contents share one id; an id is None only when the content was
   * not in the store and could not be embedded.
   */
  lemma {:induction false} MapNodesCurrent(s: Store, nodes: seq<NodeSpec>, embed: Embedder)
    requires Valid(s)
    ensures Mapped(MapNodes(s, nodes, embed).0, MapNodes(s, nodes, embed).1, Contents(nodes), embed)
    decreases |nodes|
  {
    if |nodes| > 0 {
      var init := nodes[..|nodes| - 1];
      MapNodesCurrent(s, init, embed);
      MapNodesGrows(s, init, embed);
      var before := MapNodes(s, init, embed);
      var node := nodes[|nodes| - 1];
      assert Contents(nodes) == Contents(init) + [node.content];
      RecordCurrent(before.0, before.1, Contents(init), node, embed);
    }
  }

  /**
   * The map's keys are exactly the contents seen, each mapped to what
   * lookup finds in `r`, and to None only for text that does not embed.
   */
  ghost predicate Mapped(r: Store, ids: IdMap, seen: seq<string>, embed: Embedder)
  {
    && (forall c :: c in ids <==> c in seen)
    && Current(r, ids)
    && (forall c :: c in ids && ids[c].None? ==> GetEmbedding(embed, c).None?)
  }

  /** One turn of the node loop keeps `Mapped`, with one more content seen. */
  lemma RecordCurrent(before: Store, ids: IdMap, seen: seq<string>, node: NodeSpec, embed: Embedder)
    requires Valid(before) && Mapped(before, ids, seen, embed)
    ensures var r := FindOrCreate(before, node.content, node.nodeType, embed);
      Mapped(r.store, ids[node.content := r.id], seen + [node.content], embed)
  {
    var r := FindOrCreate(before, node.content, node.nodeType, embed);
    forall c | c in ids[node.content := r.id]
      ensures ids[node.content := r.id][c] == FindContent(r.store, c)
    {
      FindOrCreateLookup(before, node.content, node.nodeType, embed, c);
    }
  }

  // ---------------------------------------------------------------------------
  // update_knowledge_base: the edge loop
  // ---------------------------------------------------------------------------

  /** `node_id_map.get(content)`: None for a content that is not a key. */
  function Resolve(ids: IdMap, c: string): Option<NodeId>
  {
    if c in ids then ids[c] else None
  }

  predicate Resolves(ids: IdMap, e: EdgeSpec)
  {
    Resolve(ids, e.source).Some? && Resolve(ids, e.target).Some?
  }

  /** An edge the loop inserts: its resolved pair and its label. */
  datatype KeptEdge = KeptEdge(pair: Pair, relationship: string)

  /** The edges whose two endpoints resolved, as pairs of ids with their labels, in input order. */
  function KeptEdges(edges: seq<EdgeSpec>, ids: IdMap): (r: seq<KeptEdge>)
    ensures |r| <= |edges|
    decreases |edges|
  {
    if |edges| == 0 then []
    else
      var rest := KeptEdges(edges[..|edges| - 1], ids);
      var e := edges[|edges| - 1];
      if Resolves(ids, e) then
        rest + [KeptEdge((Resolve(ids, e.source).value, Resolve(ids, e.target).value), e.relationship)]
      else rest
  }

  /** The label of the last kept edge on pair `p`, if any kept edge is on it. */
  function LastLabel(kept: seq<KeptEdge>, p: Pair): (r: Option<string>)
    ensures r.Some? <==> exists i :: 0 <= i < |kept| && kept[i].pair == p
    decreases |kept|
  {
    if |kept| == 0 then None
    else if kept[|kept| - 1].pair == p then Some(kept[|kept| - 1].relationship)
    else
      var r := LastLabel(kept[..|kept| - 1], p);
      assert forall i :: 0 <= i < |kept| - 1 ==> kept[..|kept| - 1][i] == kept[i];
      r
  }

  /** The edge loop: `add_edge` for every edge whose source and target both resolved to an id; no node changes. */
  function AddEdges(s: Store, edges: seq<EdgeSpec>, ids: IdMap): (r: Store)
    ensures r.nodes == s.nodes && r.index == s.index && r.nextId == s.nextId
    decreases |edges|
  {
    if |edges| == 0 then s
    else
      var before := AddEdges(s, edges[..|edges| - 1], ids);
      var e := edges[|edges| - 1];
      if Resolves(ids, e) then
        AddEdge(before, Resolve(ids, e.source).value, Resolve(ids, e.target).value, e.relationship)
      else before
  }

  /** Every id the map holds is a node of `s`. */
  ghost predicate IdsAreNodes(s: Store, ids: IdMap)
  {
    forall c :: c in ids && ids[c].Some? ==> ids[c].value in s.nodes
  }

  /**
   * The edge loop adds exactly the kept edges: a pair is an edge afterwards
   * iff it was one before or some kept edge is on it, and then it carries
   * the label of the last kept edge on it; every other edge keeps its label;
   * no node changes and the old edge order is a prefix of the new one.
   */
  lemma {:induction false} AddEdgesEffect(s: Store, edges: seq<EdgeSpec>, ids: IdMap)
    requires Valid(s) && IdsAreNodes(s, ids)
    ensures EdgesEffect(s, AddEdges(s, edges, ids), KeptEdges(edges, ids))
    decreases |edges|
  {
    if |edges| > 0 {
      var init := edges[..|edges| - 1];
      AddEdgesEffect(s, init, ids);
      var e := edges[|edges| - 1];
      if Resolves(ids, e) {
        AddKeptEdge(s, AddEdges(s, init, ids), KeptEdges(init, ids), ids, e);
      }
    }
  }

  /**
   * `r` is `s` with exactly the kept edges added: a pair is an edge iff it
   * was one or some kept edge is on it, and then it carries the label of the
   * last kept edge on it, else its old label; no node changes and the old
   * edge order is a prefix of the new one.
   */
  ghost predicate EdgesEffect(s: Store, r: Store, kept: seq<KeptEdge>)
  {
    && Valid(r)
    && r.nodes == s.nodes && r.index == s.index && r.nextId == s.nextId
    && s.edgeOrder <= r.edgeOrder
    && (forall p :: p in r.labels <==> p in s.labels || LastLabel(kept, p).Some?)
    && (forall p :: p in r.labels ==>
          r.labels[p] == if LastLabel(kept, p).Some? then LastLabel(kept, p).value else s.labels[p])
  }

  /** One turn of the edge loop with an edge that resolved keeps `EdgesEffect`, one kept edge longer. */
  lemma AddKeptEdge(s: Store, before: Store, kept: seq<KeptEdge>, ids: IdMap, e: EdgeSpec)
    requires Valid(s) && IdsAreNodes(s, ids) && Resolves(ids, e)
    requires EdgesEffect(s, before, kept)
    ensures var k := KeptEdge((Resolve(ids, e.source).value, Resolve(ids, e.target).value), e.relationship);
      EdgesEffect(s, AddEdge(before, k.pair.0, k.pair.1, e.relationship), kept + [k])
  {
    var k := KeptEdge((Resolve(ids, e.source).value, Resolve(ids, e.target).value), e.relationship);
    assert k.pair.0 in before.nodes && k.pair.1 in before.nodes;
    var r := AddEdge(before, k.pair.0, k.pair.1, e.relationship);
    assert r.labels == before.labels[k.pair := e.relationship];
    forall p ensures LastLabel(kept + [k], p) == if p == k.pair then Some(k.relationship) else LastLabel(kept, p) {
      LastLabelSnoc(kept, k, p);
    }
  }

  /** The last label on a pair after one more kept edge: that edge's, if it is on the pair. */
  lemma LastLabelSnoc(kept: seq<KeptEdge>, k: KeptEdge, p: Pair)
    ensures LastLabel(kept + [k], p) == if p == k.pair then Some(k.relationship) else LastLabel(kept, p)
  {
    assert (kept + [k])[..|kept|] == kept;
  }

  /** The edges whose endpoints both resolved, in input order. */
  function Resolvable(edges: seq<EdgeSpec>, ids: IdMap): (r: seq<EdgeSpec>)
    ensures |r| <= |edges| && forall e :: e in r <==> e in edges && Resolves(ids, e)
    decreases |edges|
  {
    if |edges| == 0 then []
    else
      var rest := Resolvable(edges[..|edges| - 1], ids);
      var e := edges[|edges| - 1];
      assert edges == edges[..|edges| - 1] + [e];
      if Resolves(ids, e) then rest + [e] else rest
  }

  /** An edge with an endpoint that did not resolve is skipped: dropping all such edges changes nothing. */
  lemma {:induction false} SkippedEdgesIgnored(s: Store, edges: seq<EdgeSpec>, ids: IdMap)
    ensures AddEdges(s, edges, ids) == AddEdges(s, Resolvable(edges, ids), ids)
    decreases |edges|
  {
    if |edges| > 0 {
      var init := edges[..|edges| - 1];
      var e := edges[|edges| - 1];
      SkippedEdgesIgnored(s, init, ids);
      if Resolves(ids, e) {
        var r := Resolvable(init, ids) + [e];
        assert r[..|r| - 1] == Resolvable(init, ids);
      }
    }
  }

  // ---------------------------------------------------------------------------
  // update_knowledge_base
  // ---------------------------------------------------------------------------

  const NothingExtracted := "No valid information was extracted to save."

  /** The success message: every input content, in input order, whether or not it could be stored. */
  const UpdatedHeader := "Successfully updated the knowledge base with information about: "

  function UpdatedMessage(nodes: seq<NodeSpec>): string
  {
    UpdatedHeader + Text.Join(Contents(nodes), ", ") + "."
  }

  /**
   * `update_knowledge_base`: with no nodes, the fixed message and no change;
   * otherwise the node loop, then the edge loop over the map it built.
   */
  function UpdateKnowledgeBase(s: Store, g: ExtractedGraph, embed: Embedder): (r: Outcome)
    ensures |g.nodes.GetOr([])| == 0 ==> r == Outcome(s, NothingExtracted)
    ensures |g.nodes.GetOr([])| > 0 ==> r.message == UpdatedMessage(g.nodes.value)
  {
    var nodes := g.nodes.GetOr([]);
    if |nodes| == 0 then Outcome(s, NothingExtracted)
    else
      var (stored, ids) := MapNodes(s, nodes, embed);
      Outcome(AddEdges(stored, g.edges.GetOr([]), ids), UpdatedMessage(nodes))
  }

  /**
   * What an edge endpoint resolves to in `update_knowledge_base`: a content
   * that is one of the input nodes' resolves to the node lookup finds for it
   * afterwards; any other content, even one already in the store, to None.
   */
  function Endpoint(s: Store, nodes: seq<NodeSpec>, c: string): Option<NodeId>
  {
    if c in Contents(nodes) then FindContent(s, c) else None
  }

  /**
   * On the success path the store only grows, and every input content that
   * was already present or could be embedded is afterwards a node.
   */
  lemma UpdateStores(s: Store, g: ExtractedGraph, embed: Embedder)
    requires Valid(s) && |g.nodes.GetOr([])| > 0
    ensures var r := UpdateKnowledgeBase(s, g, embed).store;
      && Valid(r) && Grows(s, r)
      && (Synced(s) ==> Synced(r))
      && (forall i :: 0 <= i < |g.nodes.value| ==>
            FindContent(r, g.nodes.value[i].content).Some? || GetEmbedding(embed, g.nodes.value[i].content).None?)
  {
    var nodes := g.nodes.value;
    MapNodesGrows(s, nodes, embed);
    MapNodesCurrent(s, nodes, embed);
    var stored := MapNodes(s, nodes, embed).0;
    var ids := MapNodes(s, nodes, embed).1;
    assert IdsAreNodes(stored, ids);
    AddEdgesEffect(stored, g.edges.GetOr([]), ids);
    var r := AddEdges(stored, g.edges.GetOr([]), ids);
    assert UpdateKnowledgeBase(s, g, embed).store == r;
    forall i | 0 <= i < |nodes|
      ensures FindContent(r, nodes[i].content).Some? || GetEmbedding(embed, nodes[i].content).None?
    {
      assert nodes[i].content in Contents(nodes);
      assert FindContent(r, nodes[i].content) == FindContent(stored, nodes[i].content);
    }
  }

  /**
   * On the success path the edges added are the kept edges of the node map
   * (as `AddEdgesEffect` states), and that map resolves an endpoint exactly
   * as `Endpoint` says over the final store: an input content to its node,
   * anything else to None.
   */
  lemma UpdateLinks(s: Store, g: ExtractedGraph, embed: Embedder)
    requires Valid(s) && |g.nodes.GetOr([])| > 0
    ensures var r := UpdateKnowledgeBase(s, g, embed).store;
      var ids := MapNodes(s, g.nodes.value, embed).1;
      && (forall c :: Resolve(ids, c) == Endpoint(r, g.nodes.value, c))
      && (forall p :: p in r.labels <==> p in s.labels || LastLabel(KeptEdges(g.edges.GetOr([]), ids), p).Some?)
  {
    var nodes := g.nodes.value;
    MapNodesGrows(s, nodes, embed);
    MapNodesCurrent(s, nodes, embed);
    var stored := MapNodes(s, nodes, embed).0;
    var ids := MapNodes(s, nodes, embed).1;
    assert IdsAreNodes(stored, ids);
    AddEdgesEffect(stored, g.edges.GetOr([]), ids);
    var r := AddEdges(stored, g.edges.GetOr([]), ids);
    assert UpdateKnowledgeBase(s, g, embed).store == r;
    forall c ensures Resolve(ids, c) == Endpoint(r, nodes, c) {
      assert FindContent(r, c) == FindContent(stored, c);
    }
  }

  /** The success message names `nodes[i]`'s content in its place between its neighbours in the list. */
  lemma UpdatedMessageLists(nodes: seq<NodeSpec>, i: nat)
    requires i < |nodes|
    ensures UpdatedMessage(nodes) ==
      UpdatedHeader
      + ((if i == 0 then "" else Text.Join(Contents(nodes[..i]), ", ") + ", ")
         + nodes[i].content
         + (if i == |nodes| - 1 then "" else ", " + Text.Join(Contents(nodes[i + 1..]), ", ")))
      + "."
  {
    var pre := if i == 0 then "" else Text.Join(Contents(nodes[..i]), ", ") + ", ";
    var post := if i == |nodes| - 1 then "" else ", " + Text.Join(Contents(nodes[i + 1..]), ", ");
    assert Contents(nodes)[..i] == Contents(nodes[..i]);
    assert Contents(nodes)[i + 1..] == Contents(nodes[i + 1..]);
    Text.JoinKeepsParts(Contents(nodes), ", ", i);
    assert Text.Join(Contents(nodes), ", ") == pre + nodes[i].content + post;
  }

  // ---------------------------------------------------------------------------
  // query_knowledge_base
  // ---------------------------------------------------------------------------

  /** How many seeds the tool asks `hybrid_search` for. */
  const QueryK: nat := 3

  const NothingFound := "No relevant information found in the personal knowledge base."
  const FoundHeader := "Found the following relevant information in the knowledge base:\n"

  /** `str(x)` of a node attribute that may be missing. */
  function Str(x: Option<string>): string
  {
    match x
    case None => "None"
    case Some(v) => v
  }

  /** `repr(x)` of a node attribute that may be missing, as a list element prints. */
  function ReprOpt(x: Option<string>): string
  {
    match x
    case None => "None"
    case Some(v) => Text.Repr(v)
  }

  /** `str(list)` of the neighbours' contents, in neighbourhood order. */
  function NeighborList(hood: seq<Neighbor>): string
  {
    "[" + Text.Join(seq(|hood|, i requires 0 <= i < |hood| => ReprOpt(hood[i].content)), ", ") + "]"
  }

  /** The line reporting one seed. */
  function SeedLine(seed: Seed): string
  {
    "- Found '" + Str(seed.content) + "' (Type: " + Str(seed.nodeType)
      + "). It is factually connected to: " + NeighborList(seed.neighborhood)
  }

  function SeedLines(results: seq<Seed>): (r: seq<string>)
    ensures |r| == |results| && forall i :: 0 <= i < |results| ==> r[i] == SeedLine(results[i])
  {
    seq(|results|, i requires 0 <= i < |results| => SeedLine(results[i]))
  }

  /** The tool's text for a search result: the fixed message when empty, else a header and one line per seed. */
  function QueryText(results: seq<Seed>): (r: string)
    ensures |results| == 0 ==> r == NothingFound
  {
    if |results| == 0 then NothingFound
    else FoundHeader + Text.Join(SeedLines(results), "\n")
  }

  /** `query_knowledge_base`: a search for three seeds, formatted; the store is only read. */
  function QueryKnowledgeBase(s: Store, query: string, embed: Embedder, ann: AnnSearch): (r: string)
    requires Valid(s)
    ensures GetEmbedding(embed, query).None? ==> r == NothingFound
  {
    QueryText(HybridSearch(s, query, QueryK, embed, ann))
  }

  /**
   * A non-empty result is reported seed by seed in search order: the text
   * is the header, the lines of the seeds before `results[i]`, the line of
   * `results[i]` and the lines of the seeds after it, one per line.
   */
  lemma QueryReportsSeed(results: seq<Seed>, i: nat)
    requires i < |results|
    ensures var lines := SeedLines(results);
      QueryText(results) ==
        FoundHeader
        + ((if i == 0 then "" else Text.Join(lines[..i], "\n") + "\n")
           + lines[i]
           + (if i == |results| - 1 then "" else "\n" + Text.Join(lines[i + 1..], "\n")))
  {
    Text.JoinKeepsParts(SeedLines(results), "\n", i);
  }

  // ---------------------------------------------------------------------------
  // qloo_enrichment
  // ---------------------------------------------------------------------------

  /** One recommendation: `name` and `category` may each be missing. */
  datatype Rec = Rec(name: Option<string>, category: Option<string>)

  /** `if rec_name:`: a name that is present and not empty. */
  predicate Named(rec: Rec)
  {
    rec.name.Some? && |rec.name.value| > 0
  }

  /** The recommended node's type: the category, "Recommendation" when missing, capitalized. */
  function Category(rec: Rec): (r: string)
    ensures rec.category.None? ==> r == "Recommendation"
    ensures rec.category.Some? ==> |r| == |rec.category.value|
  {
    var raw := rec.category.GetOr("Recommendation");
    var r := Text.Capitalize(raw);
    assert rec.category.None? ==> r == "Recommendation" by {
      if rec.category.None? {
        forall i | 0 <= i < |raw| ensures r[i] == raw[i] {
          assert i == 0 || !('A' <= raw[i] <= 'Z');
        }
      }
    }
    r
  }

  /** The edge label for a category: `QLOO_RECOMMENDS_` followed by the category in upper case. */
  function RecommendsLabel(category: string): (r: string)
    ensures |r| == 16 + |category| && r[..16] == "QLOO_RECOMMENDS_"
    ensures forall i :: 0 <= i < |category| ==> r[16 + i] == Text.UpperChar(category[i])
  {
    "QLOO_RECOMMENDS_" + Text.Upper(category)
  }

  /** The edge label only depends on the raw category: capitalizing first does not change the upper-cased text. */
  lemma RecommendsLabelOfRaw(rec: Rec)
    ensures RecommendsLabel(Category(rec)) == "QLOO_RECOMMENDS_" + Text.Upper(rec.category.GetOr("Recommendation"))
  {
    Text.UpperOfCapitalize(rec.category.GetOr("Recommendation"));
  }

  /** The names of the named recommendations, in order. */
  function Names(recs: seq<Rec>): (r: seq<string>)
    ensures |r| <= |recs|
    decreases |recs|
  {
    if |recs| == 0 then []
    else
      var rest := Names(recs[..|recs| - 1]);
      var rec := recs[|recs| - 1];
      if Named(rec) then rest + [rec.name.value] else rest
  }

  /** The store and `added_recs` after the recommendation loop. */
  datatype Enriched = Enriched(store: Store, added: seq<string>)

  /**
   * The recommendation loop: a named recommendation becomes a
   * find-or-created node of its category, and, when that yields an id, an
   * edge from the source labelled after the category; its name is then
   * recorded as added.
   */
  function Enrich(s: Store, source: NodeId, recs: seq<Rec>, embed: Embedder): (r: Enriched)
    ensures |r.added| <= |recs|
    decreases |recs|
  {
    if |recs| == 0 then Enriched(s, [])
    else
      EnrichStep(Enrich(s, source, recs[..|recs| - 1], embed), source, recs[|recs| - 1], embed)
  }

  /** One turn of the recommendation loop: it records at most the recommendation's name as added. */
  function EnrichStep(before: Enriched, source: NodeId, rec: Rec, embed: Embedder): (r: Enriched)
    ensures || r.added == before.added
            || (Named(rec) && r.added == before.added + [rec.name.value])
  {
    if !Named(rec) then before
    else
      var r := FindOrCreate(before.store, rec.name.value, Category(rec), embed);
      if r.id.None? then Enriched(r.store, before.added)
      else Enriched(AddEdge(r.store, source, r.id.value, RecommendsLabel(Category(rec))), before.added + [rec.name.value])
  }

  /** The index of the last named recommendation called `n`, if any. */
  function LastNamed(recs: seq<Rec>, n: string): (r: Option<nat>)
    ensures r.Some? ==> r.value < |recs| && Named(recs[r.value]) && recs[r.value].name.value == n
    ensures r.Some? ==> forall j :: r.value < j < |recs| && Named(recs[j]) ==> recs[j].name.value != n
    ensures r.None? ==> forall j :: 0 <= j < |recs| && Named(recs[j]) ==> recs[j].name.value != n
    decreases |recs|
  {
    if |recs| == 0 then None
    else if Named(recs[|recs| - 1]) && recs[|recs| - 1].name.value == n then Some(|recs| - 1)
    else
      var r := LastNamed(recs[..|recs| - 1], n);
      assert forall j :: 0 <= j < |recs| - 1 ==> recs[..|recs| - 1][j] == recs[j];
      r
  }

  /** The index of the first named recommendation called `n`, if any. */
  function FirstNamed(recs: seq<Rec>, n: string): (r: Option<nat>)
    ensures r.Some? ==> r.value < |recs| && Named(recs[r.value]) && recs[r.value].name.value == n
    ensures r.Some? ==> forall j :: 0 <= j < r.value && Named(recs[j]) ==> recs[j].name.value != n
    ensures r.None? ==> forall j :: 0 <= j < |recs| && Named(recs[j]) ==> recs[j].name.value != n
    decreases |recs|
  {
    if |recs| == 0 then None
    else
      var r := FirstNamed(recs[..|recs| - 1], n);
      assert forall j :: 0 <= j < |recs| - 1 ==> recs[..|recs| - 1][j] == recs[j];
      if r.Some? then r
      else if Named(recs[|recs| - 1]) && recs[|recs| - 1].name.value == n then Some(|recs| - 1)
      else None
  }

  /**
   * Every added name is a node the source points to, by an edge labelled
   * `QLOO_RECOMMENDS_<CATEGORY>` after the last recommendation with that
   * name (a later `add_edge` on the same pair overwrites the label).
   */
  ghost predicate Labelled(s: Store, source: NodeId, recs: seq<Rec>, added: seq<string>)
  {
    forall n :: n in added ==>
      && LastNamed(recs, n).Some?
      && FindContent(s, n).Some?
      && (source, FindContent(s, n).value) in s.labels
      && s.labels[(source, FindContent(s, n).value)] == RecommendsLabel(Category(recs[LastNamed(recs, n).value]))
  }

  /**
   * Every node the loop created holds the name of a recommendation and has
   * the capitalized category of the first recommendation with that name
   * (the one that created it) as its type.
   */
  ghost predicate Typed(s: Store, r: Store, recs: seq<Rec>)
  {
    forall id :: id in r.nodes && id !in s.nodes ==>
      && r.nodes[id].content.Some?
      && FirstNamed(recs, r.nodes[id].content.value).Some?
      && r.nodes[id].nodeType == Some(Category(recs[FirstNamed(recs, r.nodes[id].content.value).value]))
  }

  /** Every named recommendation seen so far is a node, unless its name does not embed. */
  ghost predicate Tried(s: Store, recs: seq<Rec>, embed: Embedder)
  {
    forall j :: 0 <= j < |recs| && Named(recs[j]) ==>
      FindContent(s, recs[j].name.value).Some? || GetEmbedding(embed, recs[j].name.value).None?
  }

  /** After one turn, lookup finds what find-or-create returned for the recommendation's name, and what it found before for any other text. */
  lemma StepLookup(before: Enriched, source: NodeId, rec: Rec, embed: Embedder, d: string)
    requires Valid(before.store)
    ensures FindContent(EnrichStep(before, source, rec, embed).store, d) ==
      if Named(rec) && d == rec.name.value then FindOrCreate(before.store, d, Category(rec), embed).id
      else FindContent(before.store, d)
  {
    if Named(rec) {
      FindOrCreateLookup(before.store, rec.name.value, Category(rec), embed, d);
    }
  }

  /**
   * The recommendation loop only grows the store and only adds edges out of
   * the source: every edge already there stays, with its label unless it
   * leaves the source.
   */
  lemma {:induction false} EnrichGrows(s: Store, source: NodeId, recs: seq<Rec>, embed: Embedder)
    requires Valid(s) && source in s.nodes
    ensures var r := Enrich(s, source, recs, embed).store;
      && Valid(r) && Grows(s, r)
      && (Synced(s) ==> Synced(r))
      && EdgesOutOf(s, r, source)
    decreases |recs|
  {
    if |recs| > 0 {
      EnrichGrows(s, source, recs[..|recs| - 1], embed);
      EnrichStepGrows(s, Enrich(s, source, recs[..|recs| - 1], embed), source, recs[|recs| - 1], embed);
    }
  }

  /** The edges of `r` are those of `s`, kept with their labels, plus edges out of `source` or relabelled ones out of it. */
  ghost predicate EdgesOutOf(s: Store, r: Store, source: NodeId)
  {
    && (forall p :: p in s.labels ==> p in r.labels)
    && (forall p :: p in s.labels && p.0 != source ==> r.labels[p] == s.labels[p])
    && (forall p :: p in r.labels ==> p in s.labels || p.0 == source)
  }

  /** One turn of the recommendation loop keeps what EnrichGrows states. */
  lemma EnrichStepGrows(s: Store, before: Enriched, source: NodeId, rec: Rec, embed: Embedder)
    requires Valid(s) && source in s.nodes
    requires Valid(before.store) && Grows(s, before.store) && (Synced(s) ==> Synced(before.store))
    requires EdgesOutOf(s, before.store, source)
    ensures var r := EnrichStep(before, source, rec, embed).store;
      && Valid(r) && Grows(s, r) && (Synced(s) ==> Synced(r)) && EdgesOutOf(s, r, source)
  {
    if Named(rec) {
      var t := before.store;
      var f := FindOrCreate(t, rec.name.value, Category(rec), embed);
      assert Grows(t, f.store);
      assert EdgesOutOf(t, f.store, source);
      if f.id.Some? {
        var e := AddEdge(f.store, source, f.id.value, RecommendsLabel(Category(rec)));
        assert Valid(e) && Grows(f.store, e) && (Synced(f.store) ==> Synced(e));
        AddEdgeOutOf(f.store, source, f.id.value, RecommendsLabel(Category(rec)));
        EdgesOutOfTrans(t, f.store, e, source);
        EdgesOutOfTrans(s, t, e, source);
      } else {
        EdgesOutOfTrans(s, t, f.store, source);
      }
    }
  }

  /** An added edge leaves the source. */
  lemma AddEdgeOutOf(s: Store, source: NodeId, target: NodeId, relationship: string)
    ensures EdgesOutOf(s, AddEdge(s, source, target, relationship), source)
  {
  }

  lemma EdgesOutOfTrans(s: Store, t: Store, u: Store, source: NodeId)
    requires EdgesOutOf(s, t, source) && EdgesOutOf(t, u, source)
    ensures EdgesOutOf(s, u, source)
  {
  }

  /**
   * Every name the loop reports as added is afterwards a node with an edge
   * from the source to it, labelled after the last recommendation with that
   * name.
   */
  lemma {:induction false} EnrichLinks(s: Store, source: NodeId, recs: seq<Rec>, embed: Embedder)
    requires Valid(s) && source in s.nodes
    ensures Labelled(Enrich(s, source, recs, embed).store, source, recs, Enrich(s, source, recs, embed).added)
    decreases |recs|
  {
    if |recs| > 0 {
      var init := recs[..|recs| - 1];
      assert recs == init + [recs[|recs| - 1]];
      EnrichLinks(s, source, init, embed);
      EnrichGrows(s, source, init, embed);
      EnrichStepLabels(Enrich(s, source, init, embed), source, init, recs[|recs| - 1], embed);
    }
  }

  /** One turn of the recommendation loop keeps every added name labelled after its last recommendation. */
  lemma EnrichStepLabels(before: Enriched, source: NodeId, init: seq<Rec>, rec: Rec, embed: Embedder)
    requires Valid(before.store) && source in before.store.nodes
    requires Labelled(before.store, source, init, before.added)
    ensures var after := EnrichStep(before, source, rec, embed);
      Labelled(after.store, source, init + [rec], after.added)
  {
    var recs := init + [rec];
    var after := EnrichStep(before, source, rec, embed);
    assert recs[..|init|] == init;
    forall n | n in after.added
      ensures LastNamed(recs, n).Some? && FindContent(after.store, n).Some?
      ensures (source, FindContent(after.store, n).value) in after.store.labels
      ensures after.store.labels[(source, FindContent(after.store, n).value)] == RecommendsLabel(Category(recs[LastNamed(recs, n).value]))
    {
      StepLookup(before, source, rec, embed, n);
      if Named(rec) {
        var m := rec.name.value;
        var f := FindOrCreate(before.store, m, Category(rec), embed);
        StepLookup(before, source, rec, embed, m);
        if n == m {
          assert f.id.Some?;
          assert f.id.value in f.store.nodes;
        } else {
          assert n in before.added;
          assert LastNamed(recs, n) == LastNamed(init, n);
          if f.id.Some? {
            var x := FindContent(after.store, n).value;
            assert HasContent(after.store.nodes, x, n);
            assert HasContent(after.store.nodes, f.id.value, m);
            assert f.id.value in f.store.nodes;
          }
        }
      } else {
        assert LastNamed(recs, n) == LastNamed(init, n);
      }
    }
  }

  /** After the loop every named recommendation is a node, unless its name does not embed. */
  lemma {:induction false} EnrichTried(s: Store, source: NodeId, recs: seq<Rec>, embed: Embedder)
    requires Valid(s) && source in s.nodes
    ensures Tried(Enrich(s, source, recs, embed).store, recs, embed)
    decreases |recs|
  {
    if |recs| > 0 {
      var init := recs[..|recs| - 1];
      assert recs == init + [recs[|recs| - 1]];
      EnrichTried(s, source, init, embed);
      EnrichGrows(s, source, init, embed);
      EnrichStepTried(Enrich(s, source, init, embed), source, init, recs[|recs| - 1], embed);
    }
  }

  /** One turn keeps every named recommendation seen a node, unless its name does not embed. */
  lemma EnrichStepTried(before: Enriched, source: NodeId, init: seq<Rec>, rec: Rec, embed: Embedder)
    requires Valid(before.store) && Tried(before.store, init, embed)
    ensures Tried(EnrichStep(before, source, rec, embed).store, init + [rec], embed)
  {
    var recs := init + [rec];
    var after := EnrichStep(before, source, rec, embed);
    forall j | 0 <= j < |recs| && Named(recs[j])
      ensures FindContent(after.store, recs[j].name.value).Some? || GetEmbedding(embed, recs[j].name.value).None?
    {
      var c := recs[j].name.value;
      StepLookup(before, source, rec, embed, c);
      if j < |init| {
        assert recs[j] == init[j];
      }
    }
  }

  /** Every node the loop creates is a recommendation's, typed with the category of the first recommendation with that name. */
  lemma {:induction false} EnrichTypes(s: Store, source: NodeId, recs: seq<Rec>, embed: Embedder)
    requires Valid(s) && source in s.nodes
    ensures Typed(s, Enrich(s, source, recs, embed).store, recs)
    decreases |recs|
  {
    if |recs| > 0 {
      var init := recs[..|recs| - 1];
      assert recs == init + [recs[|recs| - 1]];
      EnrichTypes(s, source, init, embed);
      EnrichTried(s, source, init, embed);
      EnrichGrows(s, source, init, embed);
      EnrichStepTypes(s, Enrich(s, source, init, embed), source, init, recs[|recs| - 1], embed);
    }
  }

  /** One turn keeps every created node typed after the first recommendation with its name. */
  lemma EnrichStepTypes(s: Store, before: Enriched, source: NodeId, init: seq<Rec>, rec: Rec, embed: Embedder)
    requires Valid(before.store) && Tried(before.store, init, embed) && Typed(s, before.store, init)
    ensures Typed(s, EnrichStep(before, source, rec, embed).store, init + [rec])
  {
    var recs := init + [rec];
    var after := EnrichStep(before, source, rec, embed);
    assert recs[..|init|] == init;
    forall id | id in after.store.nodes && id !in s.nodes
      ensures after.store.nodes[id].content.Some?
      ensures FirstNamed(recs, after.store.nodes[id].content.value).Some?
      ensures after.store.nodes[id].nodeType == Some(Category(recs[FirstNamed(recs, after.store.nodes[id].content.value).value]))
    {
      if id in before.store.nodes {
        assert after.store.nodes[id] == before.store.nodes[id] by {
          assert before.store.nextId !in before.store.nodes;
        }
        var c := before.store.nodes[id].content.value;
        assert FirstNamed(recs, c) == FirstNamed(init, c);
      } else {
        var m := rec.name.value;
        assert Named(rec) && FindContent(before.store, m).None?;
        assert GetEmbedding(embed, m).Some?;
        assert FirstNamed(init, m).None?;
      }
    }
  }

  /** `a` is `b` with some entries left out: `idx` picks, in increasing order, the entries of `b` that make up `a`. */
  ghost predicate Picks(idx: seq<int>, a: seq<string>, b: seq<string>)
  {
    && |idx| == |a|
    && (forall k :: 0 <= k < |idx| ==> 0 <= idx[k] < |b| && b[idx[k]] == a[k])
    && (forall k, l :: 0 <= k < l < |idx| ==> idx[k] < idx[l])
  }

  /** `a` is a subsequence of `b`. */
  ghost predicate Subsequence(a: seq<string>, b: seq<string>)
  {
    exists idx :: Picks(idx, a, b)
  }

  /** A subsequence stays one when an entry is appended to the longer list, or to both. */
  lemma SubsequenceExtend(a: seq<string>, b: seq<string>, x: string)
    requires Subsequence(a, b)
    ensures Subsequence(a, b + [x]) && Subsequence(a + [x], b + [x])
  {
    var idx :| Picks(idx, a, b);
    assert Picks(idx, a, b + [x]);
    assert Picks(idx + [|b|], a + [x], b + [x]);
  }

  /**
   * The added names are the named recommendations' names with some left
   * out (those whose node could not be created), one entry per
   * recommendation and in order; when the provider embeds every text they
   * are exactly the named recommendations' names.
   */
  lemma {:induction false} EnrichAdds(s: Store, source: NodeId, recs: seq<Rec>, embed: Embedder)
    requires Valid(s) && source in s.nodes
    ensures var added := Enrich(s, source, recs, embed).added;
      && |added| <= |recs|
      && Subsequence(added, Names(recs))
      && (forall n :: n in added ==> n in Names(recs) && |n| > 0)
      && ((forall t :: embed(t).Some?) ==> added == Names(recs))
    decreases |recs|
  {
    if |recs| == 0 {
      assert Picks([], [], []);
    } else {
      var init := recs[..|recs| - 1];
      assert recs == init + [recs[|recs| - 1]];
      EnrichAdds(s, source, init, embed);
      EnrichGrows(s, source, init, embed);
      var before := Enrich(s, source, init, embed);
      var rec := recs[|recs| - 1];
      EnrichStepSubsequence(before, source, init, rec, embed);
      EnrichStepNames(before, source, init, rec, embed);
      if forall t :: embed(t).Some? {
        EnrichStepEmbedsAll(before, source, init, rec, embed);
      }
    }
  }

  /** One turn keeps the added names a subsequence of the named recommendations' names. */
  lemma EnrichStepSubsequence(before: Enriched, source: NodeId, init: seq<Rec>, rec: Rec, embed: Embedder)
    requires Valid(before.store) && Subsequence(before.added, Names(init))
    ensures Subsequence(EnrichStep(before, source, rec, embed).added, Names(init + [rec]))
  {
    var recs := init + [rec];
    assert recs[..|init|] == init;
    if Named(rec) {
      assert Names(recs) == Names(init) + [rec.name.value];
      SubsequenceExtend(before.added, Names(init), rec.name.value);
    } else {
      assert Names(recs) == Names(init);
    }
  }

  /** One turn keeps every added name a non-empty name of a recommendation. */
  lemma EnrichStepNames(before: Enriched, source: NodeId, init: seq<Rec>, rec: Rec, embed: Embedder)
    requires Valid(before.store)
    requires forall n :: n in before.added ==> n in Names(init) && |n| > 0
    ensures forall n :: n in EnrichStep(before, source, rec, embed).added ==> n in Names(init + [rec]) && |n| > 0
  {
    var recs := init + [rec];
    assert recs[..|init|] == init;
    if Named(rec) {
      assert Names(recs) == Names(init) + [rec.name.value];
    } else {
      assert Names(recs) == Names(init);
    }
  }

  /** With a provider that embeds every text, one turn adds exactly the name of a named recommendation. */
  lemma EnrichStepEmbedsAll(before: Enriched, source: NodeId, init: seq<Rec>, rec: Rec, embed: Embedder)
    requires Valid(before.store) && before.added == Names(init) && forall t :: embed(t).Some?
    ensures EnrichStep(before, source, rec, embed).added == Names(init + [rec])
  {
    var recs := init + [rec];
    assert recs[..|init|] == init;
    if Named(rec) {
      assert GetEmbedding(embed, rec.name.value).Some?;
      assert Names(recs) == Names(init) + [rec.name.value];
    } else {
      assert Names(recs) == Names(init);
    }
  }

  /** `qloo_enrichment`'s messages. */
  function EntityMissing(entity: string): string
  {
    "Error: Could not find the entity '" + entity + "' in the knowledge base to enrich."
  }

  function NoRecommendations(entity: string): string
  {
    "Found no cultural recommendations for '" + entity + "'."
  }

  function EnrichedMessage(entity: string, added: seq<string>): string
  {
    "Successfully added cultural recommendations for '" + entity + "': " + Text.Join(added, ", ") + "."
  }

  /**
   * `qloo_enrichment`: an entity that is not a node, or an empty
   * recommendation list, leaves the store alone and says so; otherwise the
   * recommendation loop runs from the entity's node.
   */
  function QlooEnrichment(s: Store, entity: string, recs: seq<Rec>, embed: Embedder): (r: Outcome)
    ensures FindContent(s, entity).None? ==> r == Outcome(s, EntityMissing(entity))
    ensures FindContent(s, entity).Some? && |recs| == 0 ==> r == Outcome(s, NoRecommendations(entity))
  {
    match FindContent(s, entity)
    case None => Outcome(s, EntityMissing(entity))
    case Some(source) =>
      if |recs| == 0 then Outcome(s, NoRecommendations(entity))
      else
        var e := Enrich(s, source, recs, embed);
        Outcome(e.store, EnrichedMessage(entity, e.added))
  }

  /**
   * The success path of `qloo_enrichment`: the store only grows, only by
   * edges out of the entity's node, and the message lists the added names,
   * every one of which is afterwards a node the entity points to.
   */
  lemma QlooEnrichmentEffect(s: Store, entity: string, recs: seq<Rec>, embed: Embedder)
    requires Valid(s) && FindContent(s, entity).Some? && |recs| > 0
    ensures var source := FindContent(s, entity).value;
      var added := Enrich(s, source, recs, embed).added;
      var r := QlooEnrichment(s, entity, recs, embed);
      && r.message == EnrichedMessage(entity, added)
      && Valid(r.store) && Grows(s, r.store)
      && (forall p :: p in r.store.labels ==> p in s.labels || p.0 == source)
      && Labelled(r.store, source, recs, added)
      && Typed(s, r.store, recs)
      && Subsequence(added, Names(recs))
  {
    var source := FindContent(s, entity).value;
    EnrichGrows(s, source, recs, embed);
    EnrichLinks(s, source, recs, embed);
    EnrichTypes(s, source, recs, embed);
    EnrichAdds(s, source, recs, embed);
  }
}
