# Aura knowledge store, tools and supervisor loop in Dafny

Aura is a personal assistant built around a hybrid knowledge base. This project
models its core in three layers and proves properties of each.

- **The hybrid store `AuraBrain`** (`aura_brain.py`). It is a directed graph of
  integer-id nodes, each with a content and a type. Each ordered pair of nodes
  has at most one labelled edge. A vector index is kept next to the graph. Ids
  come from the counter `next_node_id`, and a node is committed only once its
  embedding was obtained. Lookup is by exact content, and find-or-create
  de-duplicates. Edges are only added between existing nodes. `hybrid_search`
  maps nearest-neighbour hits to their in- and out-neighbourhoods.
  - Module `KnowledgeStore` states every operation as a function on a `Store`
    value.
  - Module `Brain` holds class `AuraBrain`, whose fields the methods update in
    place. Each method is proved equal to its function through `Model()`.
- **The tools `AuraAgent`** (`aura_agent.py`): `update_knowledge_base`,
  `query_knowledge_base` and `qloo_enrichment`.
  - Module `Tools` gives each tool as a function from a store to the new store
    and the returned text.
  - Module `Agent` runs the tools' loops on an `AuraBrain`. Its methods are
    proved against those functions.
- **The plan–execute–respond supervisor** (`supervisor.py`).
  - Module `Workflow` states the planner's parse and its fallback, the tool
    dispatch, `execution_node`, `should_continue`, the responder and the graph
    wiring, run to completion (`Invoke`).
  - Module `Supervisor` drives the same wiring with a loop over the current node
    on an `AuraAgent`, and is proved against `Workflow.Invoke`.

Module `Text` models the Python string builtins that the core uses. Module
`Wrappers` holds `Option` and `Result`.

Everything outside the program is a parameter:
- the embedding provider: a function from text to an optional vector;
- the nearest-neighbour search of the vector index: a function from the ids
  the index holds, a vector and `k` to a list of ids, where `-1` is padding;
- the Qloo recommendations and the web search;
- the language model: its planning reply, `json.loads` of the cleaned reply,
  and the final answer.

The index itself is the set of ids it holds.

Node ids in every reachable store are exactly `0 .. next_node_id-1`:
- a fresh graph is empty;
- loading relabels the nodes to `0 .. n-1`, and the counter is then `max+1 = n`;
- `add_node` uses the counter and then increments it.

So the graph's node order, which is insertion order, is ascending id order. The
model scans ids in that order. Edges are a map from pair to label plus the list
of pairs in first-insertion order, which is the order in which `networkx` lists
predecessors and successors.

## Model

| member | source | states |
|---|---|---|
| KnowledgeStore.EmptyValid | aura_brain.py:47-58 | A fresh store (empty graph, empty index, counter 0) satisfies the store invariant, and its index matches its nodes |
| KnowledgeStore.IdsBelowCounter | aura_brain.py:78-93 | In a valid store every node id is below `next_node_id` |
| KnowledgeStore.GetEmbedding | aura_brain.py:63-71 | The provider is asked for the text with every newline turned into a space and every other character kept, and its failure gives None. A text without newlines is sent as it is |
| KnowledgeStore.AddNode | aura_brain.py:78-93 | The result has no id iff the embedding fails, and then the store is unchanged. Otherwise the id is the old counter and is fresh, the counter grows by one, the node enters the graph with its content and type and enters the index, and the edges are untouched. The invariant and index alignment are preserved |
| KnowledgeStore.AddAllDense | aura_brain.py:78-93 | After any run of `add_node` calls on a fresh store, each call with its own provider answer, the ids in use are exactly `0 .. n-1`, where n is the number of successful calls. The counter is n, and the index holds the same ids |
| KnowledgeStore.AddAllFrom | aura_brain.py:78-93 | A run of `add_node` calls, each with its own provider answer, preserves the invariant and index alignment, and advances the counter by the number of successes |
| KnowledgeStore.FirstFrom | aura_brain.py:97-100 | The first node in an id range whose content equals the argument exactly, or None when no node in the range has that content |
| KnowledgeStore.FindContent | aura_brain.py:95-100 | A returned id has exactly that content, and no lower id has it. None iff no node has that content |
| KnowledgeStore.FindOrCreate | aura_brain.py:102-112 | An existing node's id when the content is present, with the store unchanged; otherwise exactly `add_node`. The invariant and index alignment are preserved, and no edge changes |
| KnowledgeStore.FindOrCreateLookup | aura_brain.py:102-112 | After find-or-create of content c, lookup of c gives the returned id, and lookup of any other content gives what it gave before |
| KnowledgeStore.FindOrCreateIdempotent | aura_brain.py:102-112 | A second call with the same content, whatever the type or the provider's answer, returns the same id and changes nothing. Two calls create at most one node |
| KnowledgeStore.AddEdge | aura_brain.py:114-120 | With both endpoints present, the pair gets the label, and a new pair goes to the end of the edge order. Otherwise the store is unchanged, with no error. Nodes, index and counter are never touched |
| KnowledgeStore.Predecessors | aura_brain.py:148 | The sources of the edges into a node, in edge order, without repeats |
| KnowledgeStore.Successors | aura_brain.py:148 | The targets of the edges out of a node, in edge order, without repeats |
| KnowledgeStore.AllNeighbors | aura_brain.py:148 | `all_neighbors` lists exactly the nodes joined to `n` by an edge in either direction |
| KnowledgeStore.Neighborhood | aura_brain.py:146-156 | One entry per predecessor, then per successor. Each entry has that node's content and type, and the label of the outgoing edge when there is one, else of the incoming edge. Every node joined to `n` has an entry |
| KnowledgeStore.SeedOrder | aura_brain.py:142-145 | The result keys: the hits that are nodes, each once, in order of first hit. Padding and absent ids are skipped, and there are never more seeds than hits |
| KnowledgeStore.HybridSearch | aura_brain.py:128-162 | Empty on embedding failure and on an empty graph. Otherwise the seeds are the distinct hits that are nodes, in hit order, each with its node's data and full neighbourhood. At most k seeds when the search returns at most k ids |
| KnowledgeStore.HybridSearchIndexed | aura_brain.py:136-145 | When the search only returns ids the index holds, or the padding `-1`, every seed is in the index. With the index aligned to the graph, every hit that is not padding becomes a seed |
| KnowledgeStore.Embeddable | aura_brain.py:179-184 | The nodes the rebuild indexes are exactly those with content whose embedding is present and non-empty |
| KnowledgeStore.RebuildIndex | aura_brain.py:174-189 | The rebuild adds exactly the embeddable nodes to the index, and the graph and counter are untouched |
| KnowledgeStore.RebuildSynced | aura_brain.py:174-189 | A rebuild into an empty index only indexes nodes. It aligns the index with the graph iff every node has content that embeds |
| KnowledgeStore.MaxOf | aura_brain.py:45 | `max(ids)`: an element of the list that no element exceeds |
| KnowledgeStore.LoadedNextIdIsCount | aura_brain.py:44-45 | After relabelling n nodes to `0 .. n-1`, `max(ids)+1` (0 for no nodes) is n |
| KnowledgeStore.FileLabels | aura_brain.py:42 | The labels read from a graph file: exactly the file's pairs, each with its edge's label |
| KnowledgeStore.Relabel | aura_brain.py:42-45 | A loaded graph is well formed: endpoints are nodes, each pair appears once, and edges are listed by source node. Relabelled to `0 .. n-1`, it is a valid store with counter n, the file's nodes in order, and the file's edges and labels |
| KnowledgeStore.Open | aura_brain.py:40-61 | Constructing always gives a valid store. No graph file gives an empty graph with counter 0, a graph file gives counter = node count, an index file is taken as is, and without one the index is exactly the embeddable nodes |
| KnowledgeStore.FromSource | aura_brain.py:167 | The edges out of one node in edge order, without repeats |
| KnowledgeStore.BySource | aura_brain.py:167 | The graph library's edge enumeration, grouped by source node: the same edges, each once |
| KnowledgeStore.BySourceSorted | aura_brain.py:167 | The library lists edges sorted by source node |
| KnowledgeStore.Save | aura_brain.py:164-172 | The saved graph file is well formed, with its edges sorted by source node and one node per id, and the index file is the index |
| KnowledgeStore.FileEdgesOrdered | aura_brain.py:167 | The edges written out in the library's enumeration order are sorted by source node |
| KnowledgeStore.SavedLabels | aura_brain.py:164-172 | The labels read back from a saved graph file are the store's labels |
| KnowledgeStore.FileLabelsOf | aura_brain.py:42 | Edges read from a file with distinct pairs give exactly the labels that agree with every edge |
| KnowledgeStore.SavedPairs | aura_brain.py:164-172 | A saved graph file lists the store's edges in the library's enumeration order, each pair once, and reads back exactly the store's pairs |
| KnowledgeStore.SavedLabelAt | aura_brain.py:164-172 | Each pair read back from a saved file carries the label the store gave it |
| KnowledgeStore.SavedNodes | aura_brain.py:164-172 | The nodes read back from a saved graph file are the store's nodes |
| KnowledgeStore.SaveOpenRoundTrip | aura_brain.py:164-172 | Saving and reconstructing gives the same nodes, labels, index and counter. Only the edge order changes, to the library's enumeration order over the same edges |
| Brain.AuraBrain.Open | aura_brain.py:40-61 | The constructor leaves a valid brain whose state is `KnowledgeStore.Open` of the files |
| Brain.AuraBrain.AddNode | aura_brain.py:78-93 | The new state and the id are `KnowledgeStore.AddNode` of the old state, and index alignment is preserved |
| Brain.AuraBrain.GetNodeByContent | aura_brain.py:95-100 | The loop returns `FindContent`'s id with that node's data, or (None, None) |
| Brain.AuraBrain.FindOrCreateNode | aura_brain.py:102-112 | The new state and the id are `FindOrCreate` of the old state |
| Brain.AuraBrain.AddEdge | aura_brain.py:114-120 | The new state is `KnowledgeStore.AddEdge` of the old state |
| Brain.AuraBrain.NeighborhoodOf | aura_brain.py:146-156 | The loop over `all_neighbors` builds exactly `Neighborhood` |
| Brain.AuraBrain.HybridSearch | aura_brain.py:128-162 | The method returns exactly `KnowledgeStore.HybridSearch` |
| Brain.AuraBrain.CollectSeeds | aura_brain.py:142-161 | The loop over the hits fills the dict with the distinct hits that are nodes, in first-hit order, each with its node's data and neighbourhood |
| Brain.AuraBrain.RebuildIndex | aura_brain.py:174-189 | The node scan and the batch insert give `KnowledgeStore.RebuildIndex` of the old state |
| Text.JoinConcat | aura_agent.py:59 | Joining two non-empty lists is joining each, with one separator between them |
| Text.JoinKeepsParts | aura_agent.py:59 | `sep.join` keeps every part intact and in place between its neighbours' joins |
| Text.Join | aura_agent.py:59 | `sep.join` of no parts is empty, and otherwise starts with the first part |
| Text.ReplaceAll | supervisor.py:106 | `replace` with a replacement no longer than the pattern never lengthens the text |
| Text.ReplaceOneChar | aura_brain.py:66 | `replace` of one character by one character turns every occurrence into the replacement and keeps every other character in place |
| Text.ReplaceAbsent | supervisor.py:106 | `replace` of a pattern that does not occur leaves the text unchanged |
| Text.ReplaceAfterLacking | supervisor.py:106 | Text without the pattern's first character passes through `replace` unchanged, whatever follows it |
| Text.AbsentWhenFirstLacking | supervisor.py:106 | A pattern whose first character the text lacks occurs nowhere in the text |
| Text.LStrip | supervisor.py:106 | Drops exactly the leading whitespace: a suffix of the input, everything cut off is whitespace, and it does not start with whitespace |
| Text.RStrip | supervisor.py:106 | Drops exactly the trailing whitespace, as the mirror of `LStrip` |
| Text.Strip | supervisor.py:106 | `strip()` is a slice of the input, everything cut off on either side is whitespace, and the result neither starts nor ends with whitespace |
| Text.StripTrimmed | supervisor.py:106 | Text with no whitespace at either end is its own strip |
| Text.StripIdempotent | supervisor.py:106 | Stripping twice is stripping once |
| Text.Upper | aura_agent.py:115 | `upper()` maps every character to its upper-case form, keeping the length |
| Text.Capitalize | aura_agent.py:111 | `capitalize()` makes the first character upper case and every other lower case |
| Text.UpperOfCapitalize | aura_agent.py:111-115 | Upper-casing a capitalized text is upper-casing the text |
| Text.Repr | aura_agent.py:72 | The `repr` of a string inside a list is quoted by the same quote character at both ends, a single quote unless the text holds one, and is at least as long as the text plus the two quotes |
| Tools.MapNodes | aura_agent.py:47-50 | The node loop changes no edge and never lowers the counter |
| Tools.MapNodesGrows | aura_agent.py:47-50 | The node loop only grows the store, keeps it valid and aligned, and changes no edge |
| Tools.MapNodesCurrent | aura_agent.py:47-50 | After the node loop, the map's keys are exactly the input contents. Each maps to the id that lookup now finds, so repeats share an id, and None only when the content could not be embedded |
| Tools.RecordCurrent | aura_agent.py:48-50 | One turn of the node loop keeps the map's keys equal to the contents seen so far, every recorded id equal to what lookup finds, and None recorded only for text that does not embed |
| Tools.KeptEdges | aura_agent.py:52-56 | The edges whose two endpoints resolved, never more than the input edges |
| Tools.LastLabel | aura_agent.py:52-56 | Present iff some kept edge is on the pair, and then it is the label of the last one |
| Tools.AddEdges | aura_agent.py:52-56 | The edge loop changes no node, nor the index or the counter |
| Tools.AddEdgesEffect | aura_agent.py:52-56 | The edge loop adds exactly the kept edges. A pair is an edge iff it was one or a kept edge is on it, and it then has the last kept label. Other labels are unchanged, nodes are untouched, and the old edge order is a prefix of the new |
| Tools.AddKeptEdge | aura_agent.py:55-56 | A turn of the edge loop whose two endpoints resolved keeps what `AddEdgesEffect` states, with that edge kept last |
| Tools.LastLabelSnoc | aura_agent.py:56 | An edge kept last decides its pair's label, and every other pair keeps the label it had |
| Tools.Resolvable | aura_agent.py:55 | The edges whose source and target both map to an id, in input order |
| Tools.SkippedEdgesIgnored | aura_agent.py:55 | Dropping every edge with an unresolved endpoint gives the same store, so such edges are skipped |
| Tools.UpdateKnowledgeBase | aura_agent.py:41-59 | Missing or empty `nodes` gives the fixed message and the unchanged store. Otherwise the message lists the input contents |
| Tools.UpdateStores | aura_agent.py:41-59 | On the success path the store only grows and stays valid and aligned, and every input content is afterwards a node unless it could not be embedded |
| Tools.UpdateLinks | aura_agent.py:47-56 | On the success path an endpoint resolves to the final node of an input content and to None for any other content. The edges added are exactly the kept edges |
| Tools.UpdatedMessageLists | aura_agent.py:59 | The success message lists every input content in input order, each between its neighbours |
| Tools.QueryText | aura_agent.py:69-73 | An empty search result gives "No relevant information found…" |
| Tools.QueryKnowledgeBase | aura_agent.py:62-73 | A query that cannot be embedded gives "No relevant information found…" |
| Tools.QueryReportsSeed | aura_agent.py:72-73 | A non-empty result is the header and then one line per seed in search order. Each line holds the seed's content, type and neighbour contents |
| Tools.Names | aura_agent.py:110-112 | The named recommendations' names in order, never more than the recommendations |
| Tools.Category | aura_agent.py:111 | A missing category gives "Recommendation". Otherwise `capitalize()` keeps the category's length |
| Tools.RecommendsLabel | aura_agent.py:115 | `QLOO_RECOMMENDS_` followed by the category upper-cased character by character |
| Tools.RecommendsLabelOfRaw | aura_agent.py:111-115 | The edge label is `QLOO_RECOMMENDS_` plus the upper-cased raw category, or `RECOMMENDATION` by default |
| Tools.Enrich | aura_agent.py:108-116 | The recommendation loop adds at most one name per recommendation |
| Tools.EnrichStep | aura_agent.py:109-116 | One turn adds no name, or exactly the recommendation's name when it has one |
| Tools.StepLookup | aura_agent.py:113 | After one turn, lookup of the recommendation's name gives what find-or-create returned, and lookup of any other text is unchanged |
| Tools.EnrichGrows | aura_agent.py:108-116 | The recommendation loop only grows the store, keeps it valid and aligned, and only adds or relabels edges out of the source |
| Tools.EnrichStepGrows | aura_agent.py:108-116 | One turn of the recommendation loop keeps what `EnrichGrows` states |
| Tools.AddEdgeOutOf | aura_agent.py:116 | An edge added from the source keeps every other edge and its label |
| Tools.EnrichLinks | aura_agent.py:108-116 | Every name reported as added is afterwards a node. The source has an edge to it, labelled `QLOO_RECOMMENDS_` plus the upper-cased category of the last recommendation with that name |
| Tools.EnrichStepLabels | aura_agent.py:113-116 | One turn of the recommendation loop keeps what `EnrichLinks` states |
| Tools.EnrichTried | aura_agent.py:109-114 | After the loop every named recommendation is a node, unless its name could not be embedded |
| Tools.EnrichStepTried | aura_agent.py:112-114 | One turn keeps what `EnrichTried` states |
| Tools.EnrichTypes | aura_agent.py:111-113 | Every node the loop created holds a recommendation's name, and its type is the capitalized category of the first recommendation with that name |
| Tools.EnrichStepTypes | aura_agent.py:111-113 | One turn keeps what `EnrichTypes` states |
| Tools.EnrichAdds | aura_agent.py:108-116 | The added names are picked in order from the named recommendations' names, at most one per recommendation, and none is empty. When every text embeds, they are exactly those names |
| Tools.EnrichStepSubsequence | aura_agent.py:112-116 | One turn keeps the added names picked in order from the names seen so far |
| Tools.EnrichStepNames | aura_agent.py:112-116 | One turn keeps every added name a non-empty name of a recommendation seen so far |
| Tools.EnrichStepEmbedsAll | aura_agent.py:112-116 | When every text embeds, one turn adds exactly the recommendation's name, if it has one |
| Tools.QlooEnrichment | aura_agent.py:100-106 | An entity that is not a node, or an empty recommendation list, gives its message and the unchanged store |
| Tools.QlooEnrichmentEffect | aura_agent.py:100-119 | On the success path the message lists the added names, picked in order from the recommendations' names. Each is afterwards a node the entity points to by a `QLOO_RECOMMENDS_<CATEGORY>` edge, and each created node has its recommendation's capitalized category as type. The store only grows, and only by edges out of the entity |
| Agent.AuraAgent.constructor | aura_agent.py:21-24 | The agent holds the given brain |
| Agent.AuraAgent.UpdateKnowledgeBase | aura_agent.py:41-59 | The two loops leave the brain and return the message of `Tools.UpdateKnowledgeBase` of the old state |
| Agent.AuraAgent.StoreNodes | aura_agent.py:47-50 | The node loop leaves the brain and the id map of `Tools.MapNodes` of the old state |
| Agent.AuraAgent.LinkEdges | aura_agent.py:52-56 | The edge loop leaves the brain as `Tools.AddEdges` of the old state |
| Agent.AuraAgent.QueryKnowledgeBase | aura_agent.py:62-73 | Returns `Tools.QueryKnowledgeBase` of the brain, which it only reads |
| Agent.AuraAgent.QlooEnrichment | aura_agent.py:100-119 | The tool leaves the brain and returns the message of `Tools.QlooEnrichment` of the old state |
| Agent.AuraAgent.AddRecommendations | aura_agent.py:108-116 | The recommendation loop leaves the brain and the added names of `Tools.Enrich` of the old state |
| Workflow.Apply | supervisor.py:74 | Merging a node's update keeps the input and the response, replaces the plan only when the update sets one, and appends the update's messages to the history |
| Workflow.Clean | supervisor.py:106 | The cleaned reply neither starts nor ends with whitespace |
| Workflow.PlannerNode | supervisor.py:104-112 | The planner changes only the plan, to what it parses from the reply |
| Workflow.PlanFallback | supervisor.py:107-111 | A reply that does not parse, or that parses to a non-object or to an object without `plan`, gives the empty plan |
| Workflow.CleanBare | supervisor.py:106 | A reply without backticks is only stripped before parsing |
| Workflow.CleanFenced | supervisor.py:106 | A reply fenced as a JSON code block cleans to the stripped text between the fences |
| Workflow.FencedPlanIsBarePlan | supervisor.py:106-108 | The planner reads a fenced JSON reply exactly as the bare JSON inside it |
| Workflow.Dispatch | supervisor.py:123-133 | An unknown tool name fails at lookup, and a misshapen argument fails at invocation, both before the store changes. It succeeds iff the step is well shaped. Every tool keeps the store valid and only grows it, and the two query tools leave it unchanged |
| Workflow.DispatchSynced | supervisor.py:133 | A successful tool call keeps the index aligned with the graph |
| Workflow.ExecutionNode | supervisor.py:114-144 | An empty plan adds no history entry and sets no plan. Otherwise only `plan[0]` is dispatched, the plan becomes `plan[1:]`, and one entry named after the tool holds its result. A failed dispatch raises |
| Workflow.ShouldContinue | supervisor.py:168-173 | "execute" iff the plan is non-empty, "respond" iff it is empty |
| Workflow.ResponderNode | supervisor.py:146-165 | The responder changes only the response, to the answer from the input and the full history |
| Workflow.Next | supervisor.py:168-193 | From the executor it goes to the executor iff the plan is non-empty, and every other move goes to a node of lower rank |
| Workflow.NodeStep | supervisor.py:176-193 | Only the executor can fail, and an executor step shortens a non-empty plan by exactly one |
| Workflow.NodeStepSynced | supervisor.py:176-193 | A node that does not raise keeps the index aligned with the graph |
| Workflow.RunFrom | supervisor.py:176-196 | Running the wiring from any node terminates in a valid store |
| Workflow.RunFromSynced | supervisor.py:176-196 | A run from any node keeps the index aligned with the graph |
| Workflow.ExecAll | supervisor.py:114-144 | Reference for the executor loop: the steps dispatched in order, stopping at the first failure. The store stays valid, and there is never more than one result per step |
| Workflow.ExecAllResults | supervisor.py:114-144 | One result per dispatched step, named after its tool and in plan order. The run fails iff some step is not well shaped, at the first such step, with that step's error |
| Workflow.ResultsStep | supervisor.py:133-144 | A well-shaped first step with its tool's name, in front of the results of the rest of the plan, keeps what `ExecAllResults` states |
| Workflow.ExecAllSynced | supervisor.py:114-144 | The executor loop keeps the index aligned with the graph |
| Workflow.ExecutorStep | supervisor.py:184-192 | A successful executor step is followed by the run from its successor state |
| Workflow.ExecutorFails | supervisor.py:133 | A failing dispatch stops the run in the executor with nothing updated |
| Workflow.ExecutorOnEmpty | supervisor.py:116-117 | The executor on an empty plan hands over to the responder, which ends the run |
| Workflow.ResponderEnds | supervisor.py:146-165 | The responder answers from the input and the full history, and the run ends after it |
| Workflow.RunFromStep | supervisor.py:176-193 | A node that steps is followed by the run from the node the wiring picks next |
| Workflow.ExecutorRuns | supervisor.py:184-193 | The executor loop does what the steps do in turn. Without an error it runs once per step (once for an empty plan), and the responder then answers from the full history. With one, it stops at the failing step, which stays first in the plan |
| Workflow.ExecutorLastStep | supervisor.py:184-193 | The loop's last successful step hands over to the responder |
| Workflow.ExecutorNextStep | supervisor.py:184-193 | A successful step with more steps behind it continues the loop |
| Workflow.ExecAllStep | supervisor.py:114-144 | The reference after a first successful step |
| Workflow.LoopEndedAfterStep | supervisor.py:74 | With `add_messages`, the history is the state's history followed by the loop's results |
| Workflow.InvokeEnded | supervisor.py:176-196 | The planner in front of an ended executor loop gives a run that ended as `RunEnded` states |
| Workflow.InvokeRuns | supervisor.py:176-196 | A whole run executes max(1, \|plan\|) times, between one planner and one responder. The history is exactly the per-step results in plan order, and the plan ends empty. On an error the run stops at the failing executor and keeps earlier store changes |
| Workflow.Invoke | supervisor.py:196-208 | A run from a valid store ends in a valid store, and its trace starts with the planner |
| Workflow.InvokeSynced | supervisor.py:196-208 | A whole run keeps the index aligned with the graph |
| Workflow.InvokeSupersteps | supervisor.py:196-208 | A run without an error enters max(1, \|plan\|) + 2 nodes. That is within the default recursion limit of 25 iff the plan has at most 23 steps. An aborted run enters at most \|plan\| + 1 nodes |
| Workflow.UnknownToolHalts | supervisor.py:126-133 | A step naming a tool outside the table aborts the run at once, with no history entry, no plan change and no store change |
| Supervisor.Dispatch | supervisor.py:123-133 | On the agent, the result and new brain state are those of `Workflow.Dispatch`. On an error the brain is unchanged |
| Supervisor.ExecutionNode | supervisor.py:114-144 | On the agent, the update and new brain state are those of `Workflow.ExecutionNode` |
| Supervisor.StepNode | supervisor.py:176-193 | One node on the agent equals `Workflow.NodeStep`, and keeps the index aligned with the graph |
| Supervisor.PrefixedStep | supervisor.py:184-193 | After a node steps, the run so far is that node followed by the run from the next node |
| Supervisor.PrefixedHalt | supervisor.py:133 | A node that raises ends the run there, as the last node of the trace |
| Supervisor.Advance | supervisor.py:176-193 | One turn of the driver loop keeps the run so far plus the run from here equal to the whole run, and the next node has lower rank or the plan got shorter |
| Supervisor.Invoke | supervisor.py:176-196 | The driver loop over the current node ends with the brain, state, trace and error of `Workflow.Invoke`, and keeps the index aligned with the graph |

## Left out

- OpenAI embeddings, FAISS/HNSW internals and float32 vectors become the embedding and nearest-neighbour parameters. The model cannot state that the neighbours are the nearest, and it ignores the 1536 dimension.
- Node timestamps and the extra keyword attributes of `add_node` are not modelled. The core never reads them.
- Reading and writing the GML and FAISS files is file I/O, so the files are values (`GraphFile`, and a set of ids for the index).
- `save`, called at the end of two tools, changes no state. `KnowledgeStore.Save` states the snapshot, and the round trip is proved.
- Loaded GML nodes and edges are assumed to be well formed: a directed graph whose edges all carry a `label`, listed by source node as the library writes them.
- The `__main__` demonstrations and all logging are left out.
- The LLM prompts and the `ChatOpenAI` calls are left out. The planner's reply, `json.loads` and the responder's answer are functions of the model's inputs, fixed for a run.
- Plan entries are typed (`Step` with a `ToolArg` per tool shape). A plan that is not a list, a step without `tool` or `arg` (a `KeyError`), or a mis-keyed nested dictionary is not modelled. An argument of the wrong shape is a `BadArgument` error.
- Workflow.Dispatch: a `BadArgument` error stands for the argument validation of the tool wrappers, which the model does not spell out field by field.
- The Tavily search tool and the Wikipedia `external_search` fallback are network clients, modelled as the `webSearch` parameter.
- The Qloo HTTP helpers are network clients. The recommendation list is the `recommend` parameter, which is the only use of `entity_type`.
- The `uuid` `tool_call_id` of each history entry is left out. A `ToolMessage` is built without an `id`, and `add_messages` gives each such message a fresh uuid as its `id`. So it never replaces an entry and always appends, and `Apply` does so.
- `AuraAgent.__init__` keeps the brain. Its `isinstance` check is a type fact in Dafny, and the Wikipedia client it creates is the `webSearch` parameter.
- `orchestrator.py` and `main.py` (the FastAPI transport) are not part of this model. Neither is the module-global brain shared between concurrent requests; the model is single threaded.
- Text.Capitalize, Text.Upper: case mapping covers the ASCII letters only. Python maps every Unicode letter.
- Text.Repr (the neighbour list in query results): it escapes quotes, backslashes, `\n`, `\r` and `\t`. It does not write the `\x..`/`\u....` escapes Python uses for other non-printable characters.
- Tools.QueryKnowledgeBase: for a non-empty search result its own contract says nothing beyond the function body. `Tools.QueryReportsSeed` states the text seed by seed.
- Brain.AuraBrain.Open: the `openai.OpenAI()` client construction and its failure are not modelled.
- Workflow.InvokeRuns: LangGraph's default recursion limit of 25 supersteps is not enforced. A plan of 24 or more steps raises `GraphRecursionError` before the responder runs, whereas the model runs it to the end. `Workflow.InvokeSupersteps` states the node count that decides when the limit applies.
- Tools.EnrichTypes: the embedding provider is one function of the text for a whole tool call (and a whole run), so a call that fails on a text fails on it every time. The source asks the network each time, and a transient failure followed by a success is possible. With that, a recommendation node gets the category of the first same-named recommendation whose call succeeded, not of the first one with that name.
- Tools.EnrichStepTypes: the same single-provider limit as `Tools.EnrichTypes`.
- Tools.QlooEnrichmentEffect: its node-type clause has the same single-provider limit as `Tools.EnrichTypes`.
- Tools.EnrichTried: "a node unless its name does not embed" relies on the single provider. With transient failures it becomes "unless every call on that name failed".
- Tools.MapNodesCurrent: "None only for text that does not embed" (also in `Tools.RecordCurrent` and `Tools.UpdateStores`) relies on the single provider in the same way.
