/**
 * The plan-execute-respond workflow of the supervisor, as functions: the
 * planner's reading of the language model's reply, the tool dispatch, the
 * executor's one-step update, the loop condition and the wiring
 * planner -> executor -> (executor | responder) -> end, run to completion.
 * Module Supervisor drives the same wiring with a loop over an `AuraAgent`
 * and is proved against `Invoke`.
 */
module Workflow {
  import opened Wrappers
  import Text
  import opened KnowledgeStore
  import opened Tools

  // ---------------------------------------------------------------------------
  // AgentState
  // ---------------------------------------------------------------------------

  /** A step's argument, one shape per tool: an extracted graph, a query text, or an entity. */
  datatype ToolArg =
    | GraphArg(graph: ExtractedGraph)
    | QueryArg(query: string)
    | EntityArg(entityName: string, entityType: string)

  /** One plan entry: the tool's name and its argument. */
  datatype Step = Step(tool: string, arg: ToolArg)

  /** One history entry: the tool that ran and the text it returned. */
  datatype ToolMessage = ToolMessage(name: string, content: string)

  datatype AgentState = AgentState(input: string, plan: seq<Step>, pastSteps: seq<ToolMessage>, response: string)

  /**
   * The partial update a node returns. A given plan replaces the old one;
   * the history entries are appended, as the `add_messages` reducer does
   * with messages whose ids are all fresh.
   */
  datatype Update = Update(plan: Option<seq<Step>>, pastSteps: seq<ToolMessage>)

  function Apply(state: AgentState, u: Update): (r: AgentState)
    ensures r.input == state.input && r.response == state.response
    ensures r.plan == (if u.plan.Some? then u.plan.value else state.plan)
    ensures state.pastSteps <= r.pastSteps && r.pastSteps[|state.pastSteps|..] == u.pastSteps
  {
    state.(plan := if u.plan.Some? then u.plan.value else state.plan,
           pastSteps := state.pastSteps + u.pastSteps)
  }

  // ---------------------------------------------------------------------------
  // planner_node
  // ---------------------------------------------------------------------------

  /** What `json.loads` made of the cleaned reply: an object, with or without a `plan` key, or another JSON value. */
  datatype Decoded = Object(plan: Option<seq<Step>>) | NotObject

  /** `json.loads`: None when the text is not valid JSON. */
  type Decoder = string -> Option<Decoded>

  /** The reply with surrounding whitespace and every code fence removed; it neither starts nor ends with whitespace. */
  function Clean(reply: string): (r: string)
    ensures |r| > 0 ==> !Text.IsSpace(r[0]) && !Text.IsSpace(r[|r| - 1])
  {
    Text.Strip(Text.ReplaceAll(Text.ReplaceAll(Text.Strip(reply), "```json", ""), "```", ""))
  }

  /** The planner's plan: the decoded `plan` list, or the empty plan when decoding fails or finds none. */
  function PlanOf(reply: string, decode: Decoder): seq<Step>
  {
    match decode(Clean(reply))
    case Some(Object(Some(plan))) => plan
    case _ => []
  }

  /** Any reply that does not decode to an object with a `plan` key gives the empty plan. */
  lemma PlanFallback(reply: string, decode: Decoder)
    requires decode(Clean(reply)).None? || decode(Clean(reply)) == Some(NotObject) || decode(Clean(reply)) == Some(Object(None))
    ensures PlanOf(reply, decode) == []
  {
  }

  /** A reply without backticks is only stripped before decoding. */
  lemma CleanBare(reply: string)
    requires Text.Lacks(reply, '`')
    ensures Clean(reply) == Text.Strip(reply)
  {
    var t := Text.Strip(reply);
    assert Text.Lacks(t, '`');
    Text.AbsentWhenFirstLacking(t, "```json");
    Text.ReplaceAbsent(t, "```json", "");
    Text.AbsentWhenFirstLacking(t, "```");
    Text.ReplaceAbsent(t, "```", "");
    Text.StripIdempotent(reply);
  }

  /** A reply fenced as a JSON code block, with no backtick inside, cleans to the stripped text between the fences. */
  lemma CleanFenced(body: string)
    requires Text.Lacks(body, '`')
    ensures Clean("```json" + body + "```") == Text.Strip(body)
  {
    var reply := "```json" + body + "```";
    Text.StripTrimmed(reply);
    assert reply[..7] == "```json" && reply[7..] == body + "```";
    Text.ReplaceAfterLacking(body, "```", "```json", "");
    assert Text.ReplaceAll(reply, "```json", "") == body + "```";
    Text.ReplaceAfterLacking(body, "```", "```", "");
    assert Text.ReplaceAll("```", "```", "") == "";
    assert body + "" == body;
  }

  /** The planner reads a fenced JSON reply exactly as it reads the bare JSON inside the fences. */
  lemma FencedPlanIsBarePlan(body: string, decode: Decoder)
    requires Text.Lacks(body, '`')
    ensures PlanOf("```json" + body + "```", decode) == PlanOf(body, decode)
  {
    CleanFenced(body);
    CleanBare(body);
  }

  /** `planner_node`: the state's plan becomes the plan read from the model's reply. */
  function PlannerNode(state: AgentState, reply: string, decode: Decoder): (r: AgentState)
    ensures r == state.(plan := PlanOf(reply, decode))
  {
    Apply(state, Update(Some(PlanOf(reply, decode)), []))
  }

  // ---------------------------------------------------------------------------
  // Tool dispatch
  // ---------------------------------------------------------------------------

  const UpdateTool := "update_knowledge_base"
  const QueryTool := "query_knowledge_base"
  const SearchTool := "tavily_search"
  const QlooTool := "qloo_enrichment"

  /** The four names in the executor's tool table. */
  predicate Registered(name: string)
  {
    name == UpdateTool || name == QueryTool || name == SearchTool || name == QlooTool
  }

  /** A step whose tool is registered and whose argument has that tool's shape. */
  predicate WellShaped(step: Step)
  {
    || (step.tool == UpdateTool && step.arg.GraphArg?)
    || ((step.tool == QueryTool || step.tool == SearchTool) && step.arg.QueryArg?)
    || (step.tool == QlooTool && step.arg.EntityArg?)
  }

  /** Why invoking a step raised: the name is not in the tool table, or the argument does not fit the tool. */
  datatype DispatchError = UnknownTool(name: string) | BadArgument(name: string)

  /**
   * The services outside the model: the embedding provider, the
   * nearest-neighbour index, the Qloo recommendations for an entity and its
   * type, and the web search.
   */
  datatype Env = Env(
    embed: Embedder,
    ann: AnnSearch,
    recommend: (string, string) -> seq<Rec>,
    webSearch: string -> string)

  /**
   * `all_tools[tool_name].invoke(tool_arg)`: an unknown name fails at the
   * lookup, a misshapen argument when the tool is invoked, and either way
   * before the store is touched; a well-shaped step runs its tool. Every
   * tool keeps the store valid and only grows it, and the two query tools
   * leave it as it is.
   */
  function Dispatch(s: Store, step: Step, env: Env): (r: Result<Outcome, DispatchError>)
    requires Valid(s)
    ensures !Registered(step.tool) ==> r == Err(UnknownTool(step.tool))
    ensures Registered(step.tool) && !WellShaped(step) ==> r == Err(BadArgument(step.tool))
    ensures r.Ok? <==> WellShaped(step)
    ensures r.Ok? ==> Valid(r.value.store) && Grows(s, r.value.store)
    ensures r.Ok? && (step.tool == QueryTool || step.tool == SearchTool) ==> r.value.store == s
  {
    var name := step.tool;
    var arg := step.arg;
    if !Registered(name) then Err(UnknownTool(name))
    else if !WellShaped(step) then Err(BadArgument(name))
    else if name == UpdateTool then
      var o := UpdateKnowledgeBase(s, arg.graph, env.embed);
      assert Valid(o.store) && Grows(s, o.store) by {
        if |arg.graph.nodes.GetOr([])| > 0 {
          UpdateStores(s, arg.graph, env.embed);
        }
      }
      Ok(o)
    else if name == QueryTool then
      Ok(Outcome(s, QueryKnowledgeBase(s, arg.query, env.embed, env.ann)))
    else if name == SearchTool then
      Ok(Outcome(s, env.webSearch(arg.query)))
    else
      var recs := env.recommend(arg.entityName, arg.entityType);
      var o := QlooEnrichment(s, arg.entityName, recs, env.embed);
      assert Valid(o.store) && Grows(s, o.store) by {
        var source := FindContent(s, arg.entityName);
        if source.Some? && |recs| > 0 {
          EnrichGrows(s, source.value, recs, env.embed);
        }
      }
      Ok(o)
  }

  // ---------------------------------------------------------------------------
  // execution_node, should_continue, response_synthesizer_node
  // ---------------------------------------------------------------------------

  datatype Executed = Executed(store: Store, update: Update)

  /**
   * `execution_node`: an empty plan gives an update with no history entry
   * and no plan. Otherwise only the first step is dispatched; the new plan
   * is the rest, and exactly one entry, named after the step's tool and
   * holding its result, is added. A failed dispatch raises (Err) and
   * updates nothing.
   */
  function ExecutionNode(s: Store, state: AgentState, env: Env): (r: Result<Executed, DispatchError>)
    requires Valid(s)
    ensures |state.plan| == 0 ==> r == Ok(Executed(s, Update(None, [])))
    ensures |state.plan| > 0 ==> (r.Err? <==> Dispatch(s, state.plan[0], env).Err?)
    ensures |state.plan| > 0 && r.Err? ==> r.error == Dispatch(s, state.plan[0], env).error
    ensures |state.plan| > 0 && r.Ok? ==>
      && r.value.update.plan == Some(state.plan[1..])
      && |r.value.update.pastSteps| == 1
      && r.value.update.pastSteps[0].name == state.plan[0].tool
      && Dispatch(s, state.plan[0], env) == Ok(Outcome(r.value.store, r.value.update.pastSteps[0].content))
    ensures r.Ok? ==> Valid(r.value.store)
  {
    if |state.plan| == 0 then Ok(Executed(s, Update(None, [])))
    else
      var step := state.plan[0];
      match Dispatch(s, step, env)
      case Err(e) => Err(e)
      case Ok(o) => Ok(Executed(o.store, Update(Some(state.plan[1..]), [ToolMessage(step.tool, o.message)])))
  }

  datatype Route = Execute | Respond

  /** `should_continue`: execute while the plan is non-empty, respond once it is empty. */
  function ShouldContinue(state: AgentState): (r: Route)
    ensures r == Execute <==> |state.plan| > 0
    ensures r == Respond <==> |state.plan| == 0
  {
    if |state.plan| > 0 then Execute else Respond
  }

  /** `response_synthesizer_node`: the response is the model's answer to the input and the whole history. */
  function ResponderNode(state: AgentState, synthesize: (string, seq<ToolMessage>) -> string): (r: AgentState)
    ensures r.response == synthesize(state.input, state.pastSteps)
    ensures r.input == state.input && r.plan == state.plan && r.pastSteps == state.pastSteps
  {
    state.(response := synthesize(state.input, state.pastSteps))
  }

  // ---------------------------------------------------------------------------
  // The wiring
  // ---------------------------------------------------------------------------

  datatype Node = Planner | Executor | Responder | End

  /** The language model: its planning reply to an input, `json.loads`, and its final answer. */
  datatype Llm = Llm(
    reply: string -> string,
    decode: Decoder,
    synthesize: (string, seq<ToolMessage>) -> string)

  function Rank(node: Node): nat
  {
    match node
    case Planner => 3
    case Executor => 2
    case Responder => 1
    case End => 0
  }

  /** The graph's edges: planner to executor, executor to itself or the responder by `should_continue`, responder to the end. */
  function Next(node: Node, state: AgentState): (r: Node)
    ensures node == Executor ==> (r == Executor <==> |state.plan| > 0)
    ensures node != End && r != node ==> Rank(r) < Rank(node)
  {
    match node
    case Planner => Executor
    case Executor => if ShouldContinue(state) == Execute then Executor else Responder
    case Responder => End
    case End => End
  }

  datatype Stepped = Stepped(store: Store, state: AgentState)

  /** Runs one node on the state; only the executor can fail. */
  function NodeStep(node: Node, s: Store, state: AgentState, env: Env, llm: Llm): (r: Result<Stepped, DispatchError>)
    requires Valid(s) && node != End
    ensures r.Ok? ==> Valid(r.value.store)
    ensures r.Err? ==> node == Executor
    ensures node == Executor && r.Ok? ==>
      if |state.plan| > 0 then |r.value.state.plan| == |state.plan| - 1 else r.value.state.plan == []
  {
    match node
    case Planner => Ok(Stepped(s, PlannerNode(state, llm.reply(state.input), llm.decode)))
    case Executor =>
      (match ExecutionNode(s, state, env)
       case Err(e) => Err(e)
       case Ok(x) => Ok(Stepped(x.store, Apply(state, x.update))))
    case Responder => Ok(Stepped(s, ResponderNode(state, llm.synthesize)))
  }

  /** Where a run stopped: the store and state, the nodes entered in order, and the error that aborted it, if one did. */
  datatype Halted = Halted(store: Store, state: AgentState, trace: seq<Node>, failure: Option<DispatchError>)

  /** The run from `node` on: each node in turn, following the wiring, until the end or an error. */
  function RunFrom(node: Node, s: Store, state: AgentState, env: Env, llm: Llm): (r: Halted)
    requires Valid(s)
    ensures Valid(r.store)
    decreases Rank(node), |state.plan|
  {
    if node == End then Halted(s, state, [], None)
    else
      match NodeStep(node, s, state, env, llm)
      case Err(e) => Halted(s, state, [node], Some(e))
      case Ok(x) =>
        var rest := RunFrom(Next(node, x.state), x.store, x.state, env, llm);
        rest.(trace := [node] + rest.trace)
  }

  /** `supervisor_app.invoke`: the run from the planner on a state holding only the input; the planner always runs first. */
  function Invoke(s: Store, input: string, env: Env, llm: Llm): (r: Halted)
    requires Valid(s)
    ensures Valid(r.store) && |r.trace| > 0 && r.trace[0] == Planner
  {
    RunFrom(Planner, s, AgentState(input, [], [], ""), env, llm)
  }

  // ---------------------------------------------------------------------------
  // What a run does
  // ---------------------------------------------------------------------------

  /** The store and the results of dispatching the steps of a plan one after another, and the error that stopped it, if any. */
  datatype Ran = Ran(store: Store, messages: seq<ToolMessage>, failure: Option<DispatchError>)

  /**
   * The reference for the executor loop: the plan's steps dispatched in
   * order, one result each, stopping at the first step that fails.
   */
  function ExecAll(s: Store, plan: seq<Step>, env: Env): (r: Ran)
    requires Valid(s)
    ensures Valid(r.store)
    ensures |r.messages| <= |plan|
    decreases |plan|
  {
    if |plan| == 0 then Ran(s, [], None)
    else
      match Dispatch(s, plan[0], env)
      case Err(e) => Ran(s, [], Some(e))
      case Ok(o) =>
        var rest := ExecAll(o.store, plan[1..], env);
        rest.(messages := [ToolMessage(plan[0].tool, o.message)] + rest.messages)
  }

  /**
   * One result per step that ran, named after its tool and in plan order;
   * the run fails exactly when some step is not well-shaped, at the first
   * such step, with the error its dispatch raises.
   */
  ghost predicate Results(plan: seq<Step>, r: Ran)
  {
    && |r.messages| <= |plan|
    && (forall i :: 0 <= i < |r.messages| ==> r.messages[i].name == plan[i].tool && WellShaped(plan[i]))
    && (r.failure.None? <==> |r.messages| == |plan|)
    && (r.failure.Some? ==>
          && !WellShaped(plan[|r.messages|])
          && r.failure.value == (if Registered(plan[|r.messages|].tool) then BadArgument(plan[|r.messages|].tool)
                                 else UnknownTool(plan[|r.messages|].tool)))
  }

  lemma {:induction false} ExecAllResults(s: Store, plan: seq<Step>, env: Env)
    requires Valid(s)
    ensures Results(plan, ExecAll(s, plan, env))
    decreases |plan|
  {
    if |plan| > 0 {
      match Dispatch(s, plan[0], env)
      case Err(e) =>
      case Ok(o) =>
        ExecAllResults(o.store, plan[1..], env);
        ResultsStep(plan, ToolMessage(plan[0].tool, o.message), ExecAll(o.store, plan[1..], env));
    }
  }

  /** A well-shaped first step's result in front of the results of the rest. */
  lemma ResultsStep(plan: seq<Step>, first: ToolMessage, rest: Ran)
    requires |plan| > 0 && WellShaped(plan[0]) && first.name == plan[0].tool
    requires Results(plan[1..], rest)
    ensures Results(plan, rest.(messages := [first] + rest.messages))
  {
    var r := rest.(messages := [first] + rest.messages);
    assert forall i :: 0 < i < |r.messages| ==> r.messages[i] == rest.messages[i - 1] && plan[i] == plan[1..][i - 1];
    assert rest.failure.Some? ==> plan[|r.messages|] == plan[1..][|rest.messages|];
  }

  function Executors(n: nat): (r: seq<Node>)
    ensures |r| == n && forall i :: 0 <= i < n ==> r[i] == Executor
  {
    seq(n, i => Executor)
  }

  /** One executor step that dispatches successfully, followed by the rest of the run. */
  lemma ExecutorStep(s: Store, state: AgentState, env: Env, llm: Llm)
    requires Valid(s) && |state.plan| > 0 && Dispatch(s, state.plan[0], env).Ok?
    ensures var o := Dispatch(s, state.plan[0], env).value;
      var next := Apply(state, Update(Some(state.plan[1..]), [ToolMessage(state.plan[0].tool, o.message)]));
      var rest := RunFrom(Next(Executor, next), o.store, next, env, llm);
      RunFrom(Executor, s, state, env, llm) == rest.(trace := [Executor] + rest.trace)
  {
  }

  /** One executor step whose dispatch fails: the run stops there, nothing updated. */
  lemma ExecutorFails(s: Store, state: AgentState, env: Env, llm: Llm)
    requires Valid(s) && |state.plan| > 0 && Dispatch(s, state.plan[0], env).Err?
    ensures RunFrom(Executor, s, state, env, llm) ==
      Halted(s, state, [Executor], Some(Dispatch(s, state.plan[0], env).error))
  {
  }

  /** The executor on an empty plan hands over to the responder, which ends the run. */
  lemma ExecutorOnEmpty(s: Store, state: AgentState, env: Env, llm: Llm)
    requires Valid(s) && |state.plan| == 0
    ensures RunFrom(Executor, s, state, env, llm) ==
      Halted(s, ResponderNode(Apply(state, Update(None, [])), llm.synthesize), [Executor, Responder], None)
  {
    ResponderEnds(s, Apply(state, Update(None, [])), env, llm);
  }

  /** The responder answers and the run ends. */
  lemma ResponderEnds(s: Store, state: AgentState, env: Env, llm: Llm)
    requires Valid(s)
    ensures RunFrom(Responder, s, state, env, llm) == Halted(s, ResponderNode(state, llm.synthesize), [Responder], None)
  {
    assert RunFrom(End, s, ResponderNode(state, llm.synthesize), env, llm).trace == [];
  }

  /**
   * How a run of the executor loop from `state` ended, given what the
   * steps did one after another (`ran`): the same store, error and history;
   * without an error an empty plan, the responder's answer from the full
   * history and a trace of `n` executors and then the responder; with one,
   * the failing step still first in the plan and a trace of one executor
   * per step that ran and one for the failing step.
   */
  ghost predicate LoopEnded(h: Halted, state: AgentState, n: nat, ran: Ran, synthesize: (string, seq<ToolMessage>) -> string)
  {
    && h.store == ran.store
    && h.failure == ran.failure
    && h.state.input == state.input
    && h.state.pastSteps == state.pastSteps + ran.messages
    && |ran.messages| <= |state.plan|
    && (ran.failure.None? ==>
          && h.state.plan == []
          && h.state.response == synthesize(state.input, h.state.pastSteps)
          && h.trace == Executors(n) + [Responder])
    && (ran.failure.Some? ==>
          && h.state.plan == state.plan[|ran.messages|..]
          && h.state.response == state.response
          && h.trace == Executors(|ran.messages| + 1))
  }

  /**
   * The executor loop does what the steps do one after another. Without
   * an error it enters the executor once per step (once for an empty plan)
   * and then the responder once, which answers from the full history; after
   * an error the run stops in the executor at the failing step, with that
   * step still in the plan and its predecessors' results in the history.
   */
  lemma {:induction false} ExecutorRuns(s: Store, state: AgentState, env: Env, llm: Llm)
    requires Valid(s)
    ensures LoopEnded(RunFrom(Executor, s, state, env, llm), state,
                      if |state.plan| == 0 then 1 else |state.plan|,
                      ExecAll(s, state.plan, env), llm.synthesize)
    decreases |state.plan|
  {
    var plan := state.plan;
    if |plan| == 0 {
      ExecutorOnEmpty(s, state, env, llm);
      assert state.pastSteps + [] == state.pastSteps;
      assert Executors(1) + [Responder] == [Executor, Responder];
    } else if Dispatch(s, plan[0], env).Err? {
      ExecutorFails(s, state, env, llm);
      assert plan[0..] == plan;
      assert state.pastSteps + [] == state.pastSteps;
    } else {
      ExecutorStep(s, state, env, llm);
      if |plan| == 1 {
        ExecutorLastStep(s, state, env, llm);
      } else {
        ExecutorNextStep(s, state, env, llm);
      }
    }
  }

  lemma ExecutorLastStep(s: Store, state: AgentState, env: Env, llm: Llm)
    requires Valid(s) && |state.plan| == 1 && Dispatch(s, state.plan[0], env).Ok?
    ensures LoopEnded(RunFrom(Executor, s, state, env, llm), state, 1, ExecAll(s, state.plan, env), llm.synthesize)
  {
    var plan := state.plan;
    var o := Dispatch(s, plan[0], env).value;
    var msg := ToolMessage(plan[0].tool, o.message);
    var next := Apply(state, Update(Some(plan[1..]), [msg]));
    ExecAllStep(s, plan, env);
    assert ExecAll(o.store, plan[1..], env) == Ran(o.store, [], None);
    ExecutorStep(s, state, env, llm);
    assert Next(Executor, next) == Responder;
    ResponderEnds(o.store, next, env, llm);
    assert Executors(1) + [Responder] == [Executor, Responder];
  }

  lemma {:induction false} ExecutorNextStep(s: Store, state: AgentState, env: Env, llm: Llm)
    requires Valid(s) && |state.plan| > 1 && Dispatch(s, state.plan[0], env).Ok?
    ensures LoopEnded(RunFrom(Executor, s, state, env, llm), state, |state.plan|, ExecAll(s, state.plan, env), llm.synthesize)
    decreases |state.plan|, 0
  {
    var plan := state.plan;
    var o := Dispatch(s, plan[0], env).value;
    var msg := ToolMessage(plan[0].tool, o.message);
    var next := Apply(state, Update(Some(plan[1..]), [msg]));
    ExecAllStep(s, plan, env);
    ExecutorStep(s, state, env, llm);
    ExecutorRuns(o.store, next, env, llm);
    LoopEndedAfterStep(RunFrom(Executor, o.store, next, env, llm), state, next, msg,
                       ExecAll(o.store, plan[1..], env), llm.synthesize);
  }

  /** `ExecAll` after a first step that dispatches successfully. */
  lemma ExecAllStep(s: Store, plan: seq<Step>, env: Env)
    requires Valid(s) && |plan| > 0 && Dispatch(s, plan[0], env).Ok?
    ensures var o := Dispatch(s, plan[0], env).value;
      var rest := ExecAll(o.store, plan[1..], env);
      ExecAll(s, plan, env) == rest.(messages := [ToolMessage(plan[0].tool, o.message)] + rest.messages)
  {
  }

  /** A loop that ended after the first step's successor state ends the same way from the state before that step. */
  lemma LoopEndedAfterStep(later: Halted, state: AgentState, next: AgentState, msg: ToolMessage, rest: Ran,
                           synthesize: (string, seq<ToolMessage>) -> string)
    requires |state.plan| > 1
    requires next.input == state.input && next.pastSteps == state.pastSteps + [msg]
    requires next.plan == state.plan[1..] && next.response == state.response
    requires LoopEnded(later, next, |state.plan| - 1, rest, synthesize)
    ensures LoopEnded(later.(trace := [Executor] + later.trace), state, |state.plan|,
                      rest.(messages := [msg] + rest.messages), synthesize)
  {
    var plan := state.plan;
    assert state.pastSteps + [msg] + rest.messages == state.pastSteps + ([msg] + rest.messages);
    if rest.failure.None? {
      assert [Executor] + (Executors(|plan| - 1) + [Responder]) == Executors(|plan|) + [Responder];
    } else {
      assert [Executor] + Executors(|rest.messages| + 1) == Executors(|rest.messages| + 2);
      assert plan[1..][|rest.messages|..] == plan[|rest.messages| + 1..];
    }
  }

  /**
   * How a whole run ended, given what the plan's steps did one after
   * another (`ran`): the same store, error and history (exactly the steps'
   * results in plan order). Without an error the plan ends empty, the
   * response is the model's answer from the input and that history, and the
   * trace is the planner, the executor max(1, |plan|) times and the
   * responder; with one, the trace ends in the executor that hit it.
   */
  ghost predicate RunEnded(h: Halted, input: string, plan: seq<Step>, ran: Ran, synthesize: (string, seq<ToolMessage>) -> string)
  {
    && h.store == ran.store
    && h.failure == ran.failure
    && h.state.pastSteps == ran.messages
    && (ran.failure.None? ==>
          && h.state.plan == []
          && h.state.response == synthesize(input, ran.messages)
          && h.trace == [Planner] + Executors(if |plan| == 0 then 1 else |plan|) + [Responder])
    && (ran.failure.Some? ==> h.trace == [Planner] + Executors(|ran.messages| + 1))
  }

  /**
   * A whole run: the planner runs once, then the executor loop dispatches
   * the plan read from the model's reply step by step, as `ExecAll` does,
   * and the run ends as `RunEnded` describes; with an error it keeps the
   * store changes of the steps before the failing one.
   */
  lemma InvokeRuns(s: Store, input: string, env: Env, llm: Llm)
    requires Valid(s)
    ensures var plan := PlanOf(llm.reply(input), llm.decode);
      RunEnded(Invoke(s, input, env, llm), input, plan, ExecAll(s, plan, env), llm.synthesize)
  {
    var start := AgentState(input, [], [], "");
    var state := PlannerNode(start, llm.reply(input), llm.decode);
    RunFromStep(Planner, s, start, env, llm, Stepped(s, state));
    ExecutorRuns(s, state, env, llm);
    InvokeEnded(RunFrom(Executor, s, state, env, llm), input, state, ExecAll(s, state.plan, env), llm.synthesize);
  }

  /** LangGraph's default bound on the supersteps (node runs) of one `invoke`. */
  const RecursionLimit := 25

  /**
   * A run that no step aborts enters max(1, |plan|) + 2 nodes, so it stays
   * within LangGraph's default recursion limit exactly when the plan has at
   * most 23 steps; an aborted run enters at most |plan| + 1 nodes.
   */
  lemma InvokeSupersteps(s: Store, input: string, env: Env, llm: Llm)
    requires Valid(s)
    ensures var plan := PlanOf(llm.reply(input), llm.decode);
      var h := Invoke(s, input, env, llm);
      && (h.failure.None? ==> |h.trace| == (if |plan| == 0 then 1 else |plan|) + 2)
      && (h.failure.None? ==> (|h.trace| <= RecursionLimit <==> |plan| <= RecursionLimit - 2))
      && (h.failure.Some? ==> |h.trace| <= |plan| + 1)
  {
    var plan := PlanOf(llm.reply(input), llm.decode);
    InvokeRuns(s, input, env, llm);
    ExecAllResults(s, plan, env);
  }

  /** The run after the planner, seen from the planner. */
  lemma InvokeEnded(rest: Halted, input: string, state: AgentState, ran: Ran, synthesize: (string, seq<ToolMessage>) -> string)
    requires state.input == input && state.pastSteps == [] && state.response == ""
    requires LoopEnded(rest, state, if |state.plan| == 0 then 1 else |state.plan|, ran, synthesize)
    ensures RunEnded(Halted(rest.store, rest.state, [Planner] + rest.trace, rest.failure), input, state.plan, ran, synthesize)
  {
    assert [] + ran.messages == ran.messages;
    var n := if |state.plan| == 0 then 1 else |state.plan|;
    assert [Planner] + (Executors(n) + [Responder]) == [Planner] + Executors(n) + [Responder];
  }

  /** A node that steps hands the run on to the next node, and is itself the first of the trace. */
  lemma RunFromStep(node: Node, s: Store, state: AgentState, env: Env, llm: Llm, x: Stepped)
    requires Valid(s) && node != End
    requires NodeStep(node, s, state, env, llm) == Ok(x)
    ensures var rest := RunFrom(Next(node, x.state), x.store, x.state, env, llm);
      RunFrom(node, s, state, env, llm) == Halted(rest.store, rest.state, [node] + rest.trace, rest.failure)
  {
  }

  /** A step naming a tool outside the table aborts the run at once: no history entry, no plan change, no store change. */
  lemma UnknownToolHalts(s: Store, state: AgentState, env: Env, llm: Llm)
    requires Valid(s) && |state.plan| > 0 && !Registered(state.plan[0].tool)
    ensures RunFrom(Executor, s, state, env, llm) == Halted(s, state, [Executor], Some(UnknownTool(state.plan[0].tool)))
  {
  }

  // ---------------------------------------------------------------------------
  // The vector index stays aligned with the graph
  // ---------------------------------------------------------------------------

  /** A successful dispatch keeps the index holding exactly the graph's nodes. */
  lemma DispatchSynced(s: Store, step: Step, env: Env)
    requires Valid(s) && Synced(s) && Dispatch(s, step, env).Ok?
    ensures Synced(Dispatch(s, step, env).value.store)
  {
    var arg := step.arg;
    if step.tool == UpdateTool {
      if |arg.graph.nodes.GetOr([])| > 0 {
        UpdateStores(s, arg.graph, env.embed);
      }
    } else if step.tool == QlooTool {
      var recs := env.recommend(arg.entityName, arg.entityType);
      var source := FindContent(s, arg.entityName);
      if source.Some? && |recs| > 0 {
        EnrichGrows(s, source.value, recs, env.embed);
      }
    }
  }

  /** Every node that steps keeps the index aligned. */
  lemma NodeStepSynced(node: Node, s: Store, state: AgentState, env: Env, llm: Llm)
    requires Valid(s) && Synced(s) && node != End && NodeStep(node, s, state, env, llm).Ok?
    ensures Synced(NodeStep(node, s, state, env, llm).value.store)
  {
    if node == Executor && |state.plan| > 0 {
      DispatchSynced(s, state.plan[0], env);
    }
  }

  /** A run from an aligned store, whether it ends or raises, leaves the index aligned. */
  lemma {:induction false} RunFromSynced(node: Node, s: Store, state: AgentState, env: Env, llm: Llm)
    requires Valid(s) && Synced(s)
    ensures Synced(RunFrom(node, s, state, env, llm).store)
    decreases Rank(node), |state.plan|
  {
    if node != End {
      var r := NodeStep(node, s, state, env, llm);
      if r.Ok? {
        var x := r.value;
        NodeStepSynced(node, s, state, env, llm);
        RunFromStep(node, s, state, env, llm, x);
        RunFromSynced(Next(node, x.state), x.store, x.state, env, llm);
      }
    }
  }

  /** `supervisor_app.invoke` on an aligned store leaves it aligned. */
  lemma InvokeSynced(s: Store, input: string, env: Env, llm: Llm)
    requires Valid(s) && Synced(s)
    ensures Synced(Invoke(s, input, env, llm).store)
  {
    RunFromSynced(Planner, s, AgentState(input, [], [], ""), env, llm);
  }

  /** Dispatching the steps one after another keeps the index aligned. */
  lemma {:induction false} ExecAllSynced(s: Store, plan: seq<Step>, env: Env)
    requires Valid(s) && Synced(s)
    ensures Synced(ExecAll(s, plan, env).store)
    decreases |plan|
  {
    if |plan| > 0 && Dispatch(s, plan[0], env).Ok? {
      DispatchSynced(s, plan[0], env);
      ExecAllSynced(Dispatch(s, plan[0], env).value.store, plan[1..], env);
    }
  }
}
