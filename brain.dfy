/**
 * `AuraBrain`: the knowledge store as an object whose fields its methods
 * update in place. Every method is proved against the matching function of
 * module KnowledgeStore, through `Model()`, the value the fields stand for.
 */
module Brain {
  import opened Wrappers
  import Text
  import opened KnowledgeStore

  class AuraBrain {
    /** The factual graph: node data by id, and one label per ordered pair. */
    var nodes: map<NodeId, NodeData>
    var labels: map<Pair, string>
    /** The pairs in first-insertion order. */
    var edgeOrder: seq<Pair>
    /** The ids held by the vector index. */
    var index: set<NodeId>
    /** `next_node_id`. */
    var nextId: nat

    function Model(): Store
      reads this
    {
      Store(nodes, labels, edgeOrder, index, nextId)
    }

    ghost predicate Valid()
      reads this
    {
      KnowledgeStore.Valid(Model())
    }

    /**
     * `__init__`: loads the graph file when there is one (relabelling its
     * nodes to integers and setting the counter to the largest id plus one,
     * or 0 for an empty graph), else starts an empty graph; loads the index
     * file when there is one, else starts an empty index and rebuilds it from
     * a non-empty graph.
     */
    constructor Open(graphFile: Option<GraphFile>, indexFile: Option<set<NodeId>>, embed: Embedder)
      requires graphFile.Some? ==> WellFormed(graphFile.value)
      ensures Valid()
      ensures Model() == KnowledgeStore.Open(graphFile, indexFile, embed)
    {
      var graph := Empty();
      var counter := 0;
      if graphFile.Some? {
        graph := Relabel(graphFile.value);
        var ids := Range(|graphFile.value.nodes|);
        LoadedNextIdIsCount(|graphFile.value.nodes|);
        counter := LoadedNextId(ids);
      }
      nodes, labels, edgeOrder, nextId := graph.nodes, graph.labels, graph.edgeOrder, counter;
      index := if indexFile.Some? then indexFile.value else {};
      new;
      // `len(self.graph) > 0`; the ids are 0 .. nextId-1, so the graph is non-empty iff 0 is a node.
      assert (0 in nodes) == (nextId > 0);
      if indexFile.None? && 0 in nodes {
        RebuildIndex(embed);
      }
    }

    /**
     * `add_node`: the id is read from the counter first, but the node is
     * committed only once its embedding was obtained; then it enters the
     * graph and the index and the counter moves on by one.
     */
    method AddNode(content: string, nodeType: string, embed: Embedder) returns (id: Option<NodeId>)
      requires Valid()
      modifies this
      ensures Valid()
      ensures Added(Model(), id) == KnowledgeStore.AddNode(old(Model()), content, nodeType, embed)
      ensures old(KnowledgeStore.Synced(Model())) ==> KnowledgeStore.Synced(Model())
    {
      var nodeId := nextId;
      var embedding := GetEmbedding(embed, content);
      if embedding.None? {
        return None;
      }
      nodes := nodes[nodeId := NodeData(Some(content), Some(nodeType))];
      index := index + {nodeId};
      nextId := nextId + 1;
      return Some(nodeId);
    }

    /** `get_node_by_content`: the first node in order whose content is exactly `content`, with its data. */
    method GetNodeByContent(content: string) returns (id: Option<NodeId>, data: Option<NodeData>)
      requires Valid()
      ensures id == FindContent(Model(), content)
      ensures id.Some? ==> id.value in nodes && data == Some(nodes[id.value])
      ensures id.None? ==> data.None?
    {
      var i := 0;
      while i < nextId
        invariant 0 <= i <= nextId
        invariant forall j :: 0 <= j < i ==> !HasContent(nodes, j, content)
      {
        if nodes[i].content == Some(content) {
          assert HasContent(nodes, i, content);
          return Some(i), Some(nodes[i]);
        }
        i := i + 1;
      }
      return None, None;
    }

    /** `find_or_create_node`: the existing node's id, or a new node's. */
    method FindOrCreateNode(content: string, nodeType: string, embed: Embedder) returns (id: Option<NodeId>)
      requires Valid()
      modifies this
      ensures Valid()
      ensures Added(Model(), id) == FindOrCreate(old(Model()), content, nodeType, embed)
    {
      var found, _ := GetNodeByContent(content);
      if found.Some? {
        return found;
      }
      id := AddNode(content, nodeType, embed);
    }

    /** `add_edge`: only between existing nodes; otherwise nothing changes and nothing is raised. */
    method AddEdge(source: NodeId, target: NodeId, relationship: string)
      requires Valid()
      modifies this
      ensures Valid()
      ensures Model() == KnowledgeStore.AddEdge(old(Model()), source, target, relationship)
    {
      if source in nodes && target in nodes {
        if (source, target) !in labels {
          edgeOrder := edgeOrder + [(source, target)];
        }
        labels := labels[(source, target) := relationship];
      }
    }

    /** The neighbourhood list `hybrid_search` builds for one seed. */
    method NeighborhoodOf(nodeId: NodeId) returns (hood: seq<Neighbor>)
      requires Valid()
      ensures hood == Neighborhood(Model(), nodeId)
    {
      var s := Model();
      var neighbors := AllNeighbors(s, nodeId);
      hood := [];
      var i := 0;
      while i < |neighbors|
        invariant 0 <= i <= |neighbors|
        invariant |hood| == i
        invariant forall j :: 0 <= j < i ==> hood[j] == Neighborhood(s, nodeId)[j]
      {
        var m := neighbors[i];
        assert m in neighbors;
        var rel := if (nodeId, m) in labels then labels[(nodeId, m)] else labels[(m, nodeId)];
        hood := hood + [Neighbor(m, nodes[m].content, nodes[m].nodeType, rel)];
        i := i + 1;
      }
    }

    /**
     * `hybrid_search`: embeds the query, asks the index for up to `k` ids and
     * fills an insertion-ordered dict with the hits that are nodes, each with
     * its content, type and neighbourhood.
     */
    method HybridSearch(query: string, k: nat, embed: Embedder, ann: AnnSearch) returns (results: seq<Seed>)
      requires Valid()
      ensures results == KnowledgeStore.HybridSearch(Model(), query, k, embed, ann)
    {
      var queryEmbedding := GetEmbedding(embed, query);
      if queryEmbedding.None? {
        return [];
      }
      var ids := ann(index, queryEmbedding.value, k);
      if |ids| == 0 {
        return [];
      }
      var found, keys := CollectSeeds(ids);
      assert forall j :: 0 <= j < |keys| ==> keys[j] in keys;
      results := seq(|keys|, j requires 0 <= j < |keys| => found[keys[j]]);
    }

    /** The loop of `hybrid_search`: the insertion-ordered dict of the hits that are nodes. */
    method CollectSeeds(ids: seq<int>) returns (found: map<NodeId, Seed>, keys: seq<NodeId>)
      requires Valid()
      ensures keys == SeedOrder(ids, nodes)
      ensures forall x :: x in found <==> x in keys
      ensures forall x :: x in found ==> x in nodes && found[x] == SeedOf(Model(), x)
    {
      found := map[];
      keys := [];
      var i := 0;
      while i < |ids|
        invariant 0 <= i <= |ids|
        invariant keys == SeedOrder(ids[..i], nodes)
        invariant forall x :: x in found <==> x in keys
        invariant forall x :: x in found ==> x in nodes && found[x] == SeedOf(Model(), x)
      {
        var nodeId := ids[i];
        if nodeId in nodes {
          var hood := NeighborhoodOf(nodeId);
          var data := nodes[nodeId];
          if nodeId !in found {
            keys := keys + [nodeId];
          }
          found := found[nodeId := Seed(nodeId, data.content, data.nodeType, hood)];
        }
        assert ids[..i + 1] == ids[..i] + [ids[i]];
        i := i + 1;
      }
      assert ids[..i] == ids;
    }

    /**
     * `_rebuild_index_from_graph`: scans the nodes in order, embeds every
     * node that has content and collects those whose embedding is a non-empty
     * vector, then adds them to the index in one batch.
     */
    method RebuildIndex(embed: Embedder)
      requires Valid()
      modifies this
      ensures Valid()
      ensures Model() == KnowledgeStore.RebuildIndex(old(Model()), embed)
    {
      ghost var s := Model();
      var nodeIds: seq<NodeId> := [];
      var embeddings: seq<Embedding> := [];
      var i := 0;
      while i < nextId
        invariant 0 <= i <= nextId
        invariant |nodeIds| == |embeddings|
        invariant forall id :: id in nodeIds <==> 0 <= id < i && id in Embeddable(s, embed)
      {
        if nodes[i].content.Some? {
          var embedding := GetEmbedding(embed, nodes[i].content.value);
          if embedding.Some? && |embedding.value| > 0 {
            nodeIds := nodeIds + [i];
            embeddings := embeddings + [embedding.value];
          }
        }
        i := i + 1;
      }
      ghost var batch := set id | id in nodeIds;
      forall id | id in Embeddable(s, embed)
        ensures id in batch
      {
        assert id in s.nodes;
      }
      assert forall id :: id in batch <==> id in Embeddable(s, embed);
      assert batch == Embeddable(s, embed);
      if |embeddings| > 0 {
        index := index + set id | id in nodeIds;
        assert index == s.index + batch;
      } else {
        assert nodeIds == [];
      }
    }
  }
}
