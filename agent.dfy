/**
 * `AuraAgent`: the tools over one `AuraBrain`, run step by step as the
 * source runs them (a loop filling the node map, a loop over the edges, a
 * loop over the recommendations) and each proved to leave the brain and
 * return the message that the matching function of module Tools gives.
 */
module Agent {
  import opened Wrappers
  import opened KnowledgeStore
  import opened Tools
  import opened Brain

  class AuraAgent {
    const brain: AuraBrain

    constructor (brain: AuraBrain)
      ensures this.brain == brain
    {
      this.brain := brain;
    }

    /**
     * `update_knowledge_base`: find-or-create every extracted node, recording
     * its id under its content, then add every edge whose two contents both
     * map to an id.
     */
    method UpdateKnowledgeBase(graph: ExtractedGraph, embed: Embedder) returns (message: string)
      requires brain.Valid()
      modifies brain
      ensures brain.Valid()
      ensures Outcome(brain.Model(), message) == Tools.UpdateKnowledgeBase(old(brain.Model()), graph, embed)
    {
      var nodes := graph.nodes.GetOr([]);
      var edges := graph.edges.GetOr([]);
      if |nodes| == 0 {
        return NothingExtracted;
      }
      var ids := StoreNodes(nodes, embed);
      LinkEdges(edges, ids);
      message := UpdatedMessage(nodes);
    }

    /** The node loop of `update_knowledge_base`, filling `node_id_map`. */
    method StoreNodes(nodes: seq<NodeSpec>, embed: Embedder) returns (ids: IdMap)
      requires brain.Valid()
      modifies brain
      ensures brain.Valid()
      ensures (brain.Model(), ids) == MapNodes(old(brain.Model()), nodes, embed)
    {
      ghost var s0 := brain.Model();
      ids := map[];
      var i := 0;
      while i < |nodes|
        invariant 0 <= i <= |nodes|
        invariant brain.Valid()
        invariant (brain.Model(), ids) == MapNodes(s0, nodes[..i], embed)
      {
        var id := brain.FindOrCreateNode(nodes[i].content, nodes[i].nodeType, embed);
        ids := ids[nodes[i].content := id];
        assert nodes[..i + 1][..i] == nodes[..i];
        i := i + 1;
      }
      assert nodes[..i] == nodes;
    }

    /** The edge loop of `update_knowledge_base`. */
    method LinkEdges(edges: seq<EdgeSpec>, ids: IdMap)
      requires brain.Valid()
      modifies brain
      ensures brain.Valid()
      ensures brain.Model() == AddEdges(old(brain.Model()), edges, ids)
    {
      ghost var s1 := brain.Model();
      var j := 0;
      while j < |edges|
        invariant 0 <= j <= |edges|
        invariant brain.Valid()
        invariant brain.Model() == AddEdges(s1, edges[..j], ids)
      {
        var edge := edges[j];
        var sourceId := if edge.source in ids then ids[edge.source] else None;
        var targetId := if edge.target in ids then ids[edge.target] else None;
        if sourceId.Some? && targetId.Some? {
          brain.AddEdge(sourceId.value, targetId.value, edge.relationship);
        }
        assert edges[..j + 1][..j] == edges[..j];
        j := j + 1;
      }
      assert edges[..j] == edges;
    }

    /** `query_knowledge_base`: a three-seed search, formatted; the brain is only read. */
    method QueryKnowledgeBase(query: string, embed: Embedder, ann: AnnSearch) returns (text: string)
      requires brain.Valid()
      ensures text == Tools.QueryKnowledgeBase(brain.Model(), query, embed, ann)
    {
      var results := brain.HybridSearch(query, QueryK, embed, ann);
      text := QueryText(results);
    }

    /**
     * `qloo_enrichment`, with the recommendations the Qloo service returned
     * given as a list: each named one becomes a find-or-created node joined
     * to the entity's node by a `QLOO_RECOMMENDS_<CATEGORY>` edge.
     */
    method QlooEnrichment(entity: string, recs: seq<Rec>, embed: Embedder) returns (message: string)
      requires brain.Valid()
      modifies brain
      ensures brain.Valid()
      ensures Outcome(brain.Model(), message) == Tools.QlooEnrichment(old(brain.Model()), entity, recs, embed)
    {
      var source, _ := brain.GetNodeByContent(entity);
      if source.None? {
        return EntityMissing(entity);
      }
      if |recs| == 0 {
        return NoRecommendations(entity);
      }
      var added := AddRecommendations(source.value, recs, embed);
      message := EnrichedMessage(entity, added);
    }

    /** The recommendation loop of `qloo_enrichment`, filling `added_recs`. */
    method AddRecommendations(source: NodeId, recs: seq<Rec>, embed: Embedder) returns (added: seq<string>)
      requires brain.Valid()
      modifies brain
      ensures brain.Valid()
      ensures Enriched(brain.Model(), added) == Enrich(old(brain.Model()), source, recs, embed)
    {
      ghost var s0 := brain.Model();
      added := [];
      var i := 0;
      while i < |recs|
        invariant 0 <= i <= |recs|
        invariant brain.Valid()
        invariant Enriched(brain.Model(), added) == Enrich(s0, source, recs[..i], embed)
      {
        var rec := recs[i];
        var category := Category(rec);
        assert recs[..i + 1][..i] == recs[..i];
        ghost var next := EnrichStep(Enriched(brain.Model(), added), source, rec, embed);
        assert Enrich(s0, source, recs[..i + 1], embed) == next;
        if Named(rec) {
          var target := brain.FindOrCreateNode(rec.name.value, category, embed);
          if target.Some? {
            brain.AddEdge(source, target.value, RecommendsLabel(category));
            added := added + [rec.name.value];
          }
        }
        i := i + 1;
      }
      assert recs[..i] == recs;
    }
  }
}
