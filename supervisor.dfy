/**
 * The compiled supervisor graph as a driver: a loop that runs the current
 * node on the state and follows the wiring to the next, with the tools run
 * by an `AuraAgent` on its brain. Each method is proved against the matching
 * function of module Workflow.
 */
module Supervisor {
  import opened Wrappers
  import opened KnowledgeStore
  import opened Tools
  import opened Workflow
  import opened Agent

  /**
   * `all_tools[tool_name].invoke(tool_arg)` on the agent: the lookup fails
   * for an unknown name and the invocation for a misshapen argument, both
   * before the brain is touched.
   */
  method Dispatch(agent: AuraAgent, step: Step, env: Env) returns (r: Result<string, DispatchError>)
    requires agent.brain.Valid()
    modifies agent.brain
    ensures agent.brain.Valid()
    ensures r.Ok? ==> Workflow.Dispatch(old(agent.brain.Model()), step, env) == Ok(Outcome(agent.brain.Model(), r.value))
    ensures r.Err? ==>
      && Workflow.Dispatch(old(agent.brain.Model()), step, env) == Err(r.error)
      && agent.brain.Model() == old(agent.brain.Model())
  {
    var name := step.tool;
    var arg := step.arg;
    if !Registered(name) {
      return Err(UnknownTool(name));
    }
    if !WellShaped(step) {
      return Err(BadArgument(name));
    }
    var result: string;
    if name == UpdateTool {
      result := agent.UpdateKnowledgeBase(arg.graph, env.embed);
    } else if name == QueryTool {
      result := agent.QueryKnowledgeBase(arg.query, env.embed, env.ann);
    } else if name == SearchTool {
      result := env.webSearch(arg.query);
    } else {
      result := agent.QlooEnrichment(arg.entityName, env.recommend(arg.entityName, arg.entityType), env.embed);
    }
    return Ok(result);
  }

  /** `execution_node`: pops the first step, dispatches it and reports one history entry. */
  method ExecutionNode(agent: AuraAgent, state: AgentState, env: Env) returns (r: Result<Update, DispatchError>)
    requires agent.brain.Valid()
    modifies agent.brain
    ensures agent.brain.Valid()
    ensures r.Ok? ==> Workflow.ExecutionNode(old(agent.brain.Model()), state, env) == Ok(Executed(agent.brain.Model(), r.value))
    ensures r.Err? ==>
      && Workflow.ExecutionNode(old(agent.brain.Model()), state, env) == Err(r.error)
      && agent.brain.Model() == old(agent.brain.Model())
  {
    if |state.plan| == 0 {
      return Ok(Update(None, []));
    }
    var step := state.plan[0];
    var remaining := state.plan[1..];
    var result := Dispatch(agent, step, env);
    if result.Err? {
      return Err(result.error);
    }
    return Ok(Update(Some(remaining), [ToolMessage(step.tool, result.value)]));
  }

  /** One node of the graph on the agent's brain: the planner and the responder only read and write the state. */
  method StepNode(agent: AuraAgent, node: Node, state: AgentState, env: Env, llm: Llm) returns (r: Result<AgentState, DispatchError>)
    requires agent.brain.Valid() && node != End
    modifies agent.brain
    ensures agent.brain.Valid()
    ensures r.Ok? ==> NodeStep(node, old(agent.brain.Model()), state, env, llm) == Ok(Stepped(agent.brain.Model(), r.value))
    ensures r.Err? ==>
      && NodeStep(node, old(agent.brain.Model()), state, env, llm) == Err(r.error)
      && agent.brain.Model() == old(agent.brain.Model())
  {
    if node == Planner {
      return Ok(PlannerNode(state, llm.reply(state.input), llm.decode));
    } else if node == Executor {
      var update := ExecutionNode(agent, state, env);
      if update.Err? {
        return Err(update.error);
      }
      return Ok(Apply(state, update.value));
    } else {
      return Ok(ResponderNode(state, llm.synthesize));
    }
  }

  /** The run so far: the nodes already entered, in front of the run from here on. */
  function Prefixed(trace: seq<Node>, h: Halted): Halted
  {
    Halted(h.store, h.state, trace + h.trace, h.failure)
  }

  /** A node that steps moves the run on to the next node, with the node added to the trace. */
  lemma PrefixedStep(trace: seq<Node>, node: Node, s: Store, state: AgentState, env: Env, llm: Llm, x: Stepped)
    requires Valid(s) && node != End
    requires NodeStep(node, s, state, env, llm) == Ok(x)
    ensures Prefixed(trace, RunFrom(node, s, state, env, llm))
         == Prefixed(trace + [node], RunFrom(Next(node, x.state), x.store, x.state, env, llm))
  {
    RunFromStep(node, s, state, env, llm, x);
    PrefixedAssoc(trace, node, RunFrom(Next(node, x.state), x.store, x.state, env, llm));
  }

  /** A node that fails ends the run there, with the node as the last of the trace. */
  lemma PrefixedHalt(trace: seq<Node>, node: Node, s: Store, state: AgentState, env: Env, llm: Llm, e: DispatchError)
    requires Valid(s) && node != End
    requires NodeStep(node, s, state, env, llm) == Err(e)
    ensures Prefixed(trace, RunFrom(node, s, state, env, llm)) == Halted(s, state, trace + [node], Some(e))
  {
  }

  lemma PrefixedAssoc(trace: seq<Node>, node: Node, h: Halted)
    ensures Prefixed(trace, Halted(h.store, h.state, [node] + h.trace, h.failure)) == Prefixed(trace + [node], h)
  {
    assert trace + ([node] + h.trace) == (trace + [node]) + h.trace;
  }

  /**
   * One turn of the driver loop: runs the current node and picks the next
   * one by the wiring. The run from here on is this node followed by the run
   * from the next one, or, when the node raised, ends in it.
   */
  method Advance(agent: AuraAgent, node: Node, state: AgentState, ghost trace: seq<Node>, env: Env, llm: Llm)
    returns (next: Node, after: AgentState, failure: Option<DispatchError>)
    requires agent.brain.Valid() && node != End
    modifies agent.brain
    ensures agent.brain.Valid()
    ensures failure.Some? ==>
      Halted(agent.brain.Model(), state, trace + [node], failure) == Prefixed(trace, RunFrom(node, old(agent.brain.Model()), state, env, llm))
    ensures failure.None? ==>
      && Prefixed(trace + [node], RunFrom(next, agent.brain.Model(), after, env, llm))
         == Prefixed(trace, RunFrom(node, old(agent.brain.Model()), state, env, llm))
      && (Rank(next) < Rank(node) || (next == node && |after.plan| < |state.plan|))
    ensures Synced(old(agent.brain.Model())) ==> Synced(agent.brain.Model())
  {
    ghost var before := agent.brain.Model();
    var r := StepNode(agent, node, state, env, llm);
    if r.Ok? && Synced(before) {
      NodeStepSynced(node, before, state, env, llm);
    }
    if r.Err? {
      PrefixedHalt(trace, node, before, state, env, llm, r.error);
      return node, state, Some(r.error);
    }
    PrefixedStep(trace, node, before, state, env, llm, Stepped(agent.brain.Model(), r.value));
    return Next(node, r.value), r.value, None;
  }

  /**
   * `supervisor_app.invoke({"input": input})`: from the planner, run the
   * current node and follow the wiring until the end, or until a tool
   * dispatch raises. Returns the final state, the nodes entered in order
   * and the error, if any; the brain keeps every change made before it, and
   * an index aligned with the graph stays aligned.
   */
  method Invoke(agent: AuraAgent, input: string, env: Env, llm: Llm)
    returns (state: AgentState, trace: seq<Node>, failure: Option<DispatchError>)
    requires agent.brain.Valid()
    modifies agent.brain
    ensures agent.brain.Valid()
    ensures Halted(agent.brain.Model(), state, trace, failure) == Workflow.Invoke(old(agent.brain.Model()), input, env, llm)
    ensures Synced(old(agent.brain.Model())) ==> Synced(agent.brain.Model())
  {
    ghost var s0 := agent.brain.Model();
    ghost var run := Workflow.Invoke(s0, input, env, llm);
    state := AgentState(input, [], [], "");
    trace := [];
    failure := None;
    var node := Planner;
    while node != End
      invariant agent.brain.Valid()
      invariant Prefixed(trace, RunFrom(node, agent.brain.Model(), state, env, llm)) == run
      invariant Synced(s0) ==> Synced(agent.brain.Model())
      decreases Rank(node), |state.plan|
    {
      var next, after, f := Advance(agent, node, state, trace, env, llm);
      if f.Some? {
        trace, failure := trace + [node], f;
        return;
      }
      trace, state, node := trace + [node], after, next;
    }
    assert trace + [] == trace;
  }
}
