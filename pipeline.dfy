/**
  The graph of `build_graph`: four nodes joined in a line, planner, executor,
  reflector, aggregator, each of which reads the shared state and writes one
  field of it. A run starts at the entry node and follows the edges.
*/
module Pipeline {
  import opened Text
  import opened Llm
  import opened Planner
  import opened Renamer
  import opened Keys
  import opened Executor
  import opened Reflection

  /** The shared state (`AgentState`); the model `llm` is passed alongside. */
  datatype AgentState = AgentState(
    rawText: string,
    plan: seq<string>,
    executors: map<string, string>,
    reflection: string,
    finalOutput: map<string, string>)

  /** The state a run starts from: only the raw text is set. */
  function Initial(rawText: string): AgentState {
    AgentState(rawText, [], map[], "", map[])
  }

  datatype Node = PlannerNode | ExecutorNode | ReflectorNode | AggregatorNode

  datatype Graph = Graph(entry: Node, edges: seq<(Node, Node)>)

  /** `build_graph`: the entry point and the three edges. */
  function BuildGraph(): Graph {
    Graph(PlannerNode, [(PlannerNode, ExecutorNode), (ExecutorNode, ReflectorNode), (ReflectorNode, AggregatorNode)])
  }

  /** The target of the first edge that leaves `n`, if any. */
  function Successor(edges: seq<(Node, Node)>, n: Node): (m: Option<Node>)
    ensures m.Some? ==> exists i :: 0 <= i < |edges| && edges[i] == (n, m.value)
    ensures m.None? ==> forall i :: 0 <= i < |edges| ==> edges[i].0 != n
    decreases |edges|
  {
    if edges == [] then None
    else if edges[0].0 == n then Some(edges[0].1)
    else
      var m := Successor(edges[1..], n);
      assert m.Some? ==> edges[1..][0..] == edges[1..];
      m
  }

  datatype Option<T> = None | Some(value: T)

  /** The nodes a run visits from `n`, following at most `fuel` edges. */
  function Walk(edges: seq<(Node, Node)>, n: Node, fuel: nat): (path: seq<Node>)
    ensures |path| >= 1 && path[0] == n
    decreases fuel
  {
    if fuel == 0 then [n]
    else match Successor(edges, n)
      case None => [n]
      case Some(m) => [n] + Walk(edges, m, fuel - 1)
  }

  /** The nodes a run of a graph visits; a path with no cycle follows at most every edge once. */
  function Path(g: Graph): seq<Node> {
    Walk(g.edges, g.entry, |g.edges|)
  }

  /** The wiring is linear: planner, executor, reflector, aggregator, each once. */
  lemma BuildGraphPath()
    ensures Path(BuildGraph()) == [PlannerNode, ExecutorNode, ReflectorNode, AggregatorNode]
  {
    var e := BuildGraph().edges;
    assert Successor(e, PlannerNode) == Some(ExecutorNode);
    assert Successor(e, ExecutorNode) == Some(ReflectorNode);
    assert Successor(e, ReflectorNode) == Some(AggregatorNode);
    assert Walk(e, AggregatorNode, 0) == [AggregatorNode];
    assert Walk(e, ReflectorNode, 1) == [ReflectorNode, AggregatorNode];
    assert Walk(e, ExecutorNode, 2) == [ExecutorNode, ReflectorNode, AggregatorNode];
  }

  /** One node: it reads the state and writes its own field, or raises. */
  function Step(node: Node, s: AgentState, llm: Invoke): (r: Result<AgentState>)
    ensures r.Ok? ==> r.value.rawText == s.rawText
  {
    match node
    case PlannerNode =>
      (match Plan(s.rawText, llm)
       case Err(e) => Err(e)
       case Ok(p) => Ok(s.(plan := p)))
    case ExecutorNode => Ok(s.(executors := ExecutorOutputs(s.plan, s.rawText, llm)))
    case ReflectorNode =>
      (match Reflect(s.executors, llm)
       case Err(e) => Err(e)
       case Ok(t) => Ok(s.(reflection := t)))
    case AggregatorNode =>
      (match Aggregate(s.executors, s.reflection, llm)
       case Err(e) => Err(e)
       case Ok(f) => Ok(s.(finalOutput := f)))
  }

  /** The prompts one node sends. */
  function NodePrompts(node: Node, s: AgentState): seq<string> {
    match node
    case PlannerNode => [PlanPrompt(s.rawText)]
    case ExecutorNode => StepPrompts(s.plan, s.rawText)
    case ReflectorNode => [ReflectPrompt(s.executors)]
    case AggregatorNode =>
      if AllGood(s.reflection) then [] else [RewritePrompt(Get(s.executors, "justify"), s.reflection)]
  }

  /** Two models give the same reply to every prompt of `prompts`. */
  predicate AgreeOn(prompts: seq<string>, l1: Invoke, l2: Invoke) {
    forall p :: p in prompts ==> l1(p) == l2(p)
  }

  /** The planner asks the model nothing but the plan prompt. */
  lemma PlannerAsksOnly(s: AgentState, l1: Invoke, l2: Invoke)
    requires AgreeOn(NodePrompts(PlannerNode, s), l1, l2)
    ensures Step(PlannerNode, s, l1) == Step(PlannerNode, s, l2)
  {
    assert PlanPrompt(s.rawText) in NodePrompts(PlannerNode, s);
  }

  /** The executor asks the model nothing but the step prompts. */
  lemma ExecutorNodeAsksOnly(s: AgentState, l1: Invoke, l2: Invoke)
    requires AgreeOn(NodePrompts(ExecutorNode, s), l1, l2)
    ensures Step(ExecutorNode, s, l1) == Step(ExecutorNode, s, l2)
  {
    var prompts := StepPrompts(s.plan, s.rawText);
    forall i | 0 <= i < |s.plan|
      ensures l1(StepPrompt(s.plan[i], s.rawText)) == l2(StepPrompt(s.plan[i], s.rawText))
    {
      assert prompts[i] in prompts;
    }
    ExecutorAsksOnly(s.plan, s.rawText, l1, l2);
  }

  /** The reflector asks the model nothing but the review prompt. */
  lemma ReflectorAsksOnly(s: AgentState, l1: Invoke, l2: Invoke)
    requires AgreeOn(NodePrompts(ReflectorNode, s), l1, l2)
    ensures Step(ReflectorNode, s, l1) == Step(ReflectorNode, s, l2)
  {
    assert ReflectPrompt(s.executors) in NodePrompts(ReflectorNode, s);
  }

  /**
    The aggregator asks the model nothing but the rewrite prompt, and nothing
    at all when the review is "all good".
  */
  lemma AggregatorAsksOnly(s: AgentState, l1: Invoke, l2: Invoke)
    requires AgreeOn(NodePrompts(AggregatorNode, s), l1, l2)
    ensures Step(AggregatorNode, s, l1) == Step(AggregatorNode, s, l2)
  {
    if !AllGood(s.reflection) {
      assert RewritePrompt(Get(s.executors, "justify"), s.reflection) in NodePrompts(AggregatorNode, s);
    }
  }

  /** Every node asks the model only the prompts that `NodePrompts` lists. */
  lemma StepAsksOnly(node: Node, s: AgentState, l1: Invoke, l2: Invoke)
    requires AgreeOn(NodePrompts(node, s), l1, l2)
    ensures Step(node, s, l1) == Step(node, s, l2)
  {
    match node
    case PlannerNode => PlannerAsksOnly(s, l1, l2);
    case ExecutorNode => ExecutorNodeAsksOnly(s, l1, l2);
    case ReflectorNode => ReflectorAsksOnly(s, l1, l2);
    case AggregatorNode => AggregatorAsksOnly(s, l1, l2);
  }

  /** Running nodes in order; the first exception ends the run. */
  function RunNodes(nodes: seq<Node>, s: AgentState, llm: Invoke): Result<AgentState>
    decreases |nodes|
  {
    if nodes == [] then Ok(s)
    else match Step(nodes[0], s, llm)
      case Err(e) => Err(e)
      case Ok(t) => RunNodes(nodes[1..], t, llm)
  }

  /** The prompts a run of `nodes` sends, in order, up to and including the one that raises. */
  function RunPrompts(nodes: seq<Node>, s: AgentState, llm: Invoke): seq<string>
    decreases |nodes|
  {
    if nodes == [] then []
    else NodePrompts(nodes[0], s) + match Step(nodes[0], s, llm)
      case Err(_) => []
      case Ok(t) => RunPrompts(nodes[1..], t, llm)
  }

  /**
    A run of nodes asks the model only the prompts `RunPrompts` lists: two
    models that agree on them give the same run and the same prompts.
  */
  lemma {:induction false} RunAsksOnly(nodes: seq<Node>, s: AgentState, l1: Invoke, l2: Invoke)
    requires AgreeOn(RunPrompts(nodes, s, l1), l1, l2)
    ensures RunNodes(nodes, s, l1) == RunNodes(nodes, s, l2)
    ensures RunPrompts(nodes, s, l1) == RunPrompts(nodes, s, l2)
    decreases |nodes|
  {
    if nodes != [] {
      var here := NodePrompts(nodes[0], s);
      var all := RunPrompts(nodes, s, l1);
      assert forall k :: 0 <= k < |here| ==> here[k] == all[k];
      assert AgreeOn(here, l1, l2) by {
        forall p | p in here ensures l1(p) == l2(p) {
          var k :| 0 <= k < |here| && here[k] == p;
          assert all[k] in all;
        }
      }
      StepAsksOnly(nodes[0], s, l1, l2);
      var r := Step(nodes[0], s, l1);
      if r.Ok? {
        var rest := RunPrompts(nodes[1..], r.value, l1);
        assert all == here + rest;
        assert AgreeOn(rest, l1, l2) by {
          forall p | p in rest ensures l1(p) == l2(p) {
            var k :| 0 <= k < |rest| && rest[k] == p;
            assert all[|here| + k] in all;
          }
        }
        RunAsksOnly(nodes[1..], r.value, l1, l2);
      }
    }
  }

  /** `graph.invoke({"raw_text": rawText, "llm": llm})`. */
  function Run(rawText: string, llm: Invoke): Result<AgentState> {
    RunNodes(Path(BuildGraph()), Initial(rawText), llm)
  }

  /** The prompts the run sends. */
  function Prompts(rawText: string, llm: Invoke): seq<string> {
    RunPrompts(Path(BuildGraph()), Initial(rawText), llm)
  }

  /**
    The prompts of a run are the only calls it makes: two models that give
    the same replies to them give the same run.
  */
  lemma RunAsksOnlyPrompts(rawText: string, l1: Invoke, l2: Invoke)
    requires AgreeOn(Prompts(rawText, l1), l1, l2)
    ensures Run(rawText, l1) == Run(rawText, l2)
    ensures Prompts(rawText, l1) == Prompts(rawText, l2)
  {
    RunAsksOnly(Path(BuildGraph()), Initial(rawText), l1, l2);
  }

  /**
    The run stage by stage: plan, execute, review, aggregate, stopping at
    the first exception.
  */
  function Staged(rawText: string, llm: Invoke): Result<AgentState> {
    match Plan(rawText, llm)
    case Err(e) => Err(e)
    case Ok(plan) => FromExecutor(rawText, plan, llm)
  }

  function FromExecutor(rawText: string, plan: seq<string>, llm: Invoke): Result<AgentState> {
    FromReflector(rawText, plan, ExecutorOutputs(plan, rawText, llm), llm)
  }

  function FromReflector(rawText: string, plan: seq<string>, executors: map<string, string>, llm: Invoke): Result<AgentState> {
    match Reflect(executors, llm)
    case Err(e) => Err(e)
    case Ok(reflection) => FromAggregator(rawText, plan, executors, reflection, llm)
  }

  function FromAggregator(rawText: string, plan: seq<string>, executors: map<string, string>, reflection: string, llm: Invoke): Result<AgentState> {
    match Aggregate(executors, reflection, llm)
    case Err(e) => Err(e)
    case Ok(final) => Ok(AgentState(rawText, plan, executors, reflection, final))
  }

  /** The prompts of the run, stage by stage. */
  function StagedPrompts(rawText: string, llm: Invoke): seq<string> {
    [PlanPrompt(rawText)] +
    match Plan(rawText, llm)
    case Err(_) => []
    case Ok(plan) => PromptsFromExecutor(rawText, plan, llm)
  }

  function PromptsFromExecutor(rawText: string, plan: seq<string>, llm: Invoke): seq<string> {
    StepPrompts(plan, rawText) + PromptsFromReflector(ExecutorOutputs(plan, rawText, llm), Reflect(ExecutorOutputs(plan, rawText, llm), llm))
  }

  /** The review prompt, then the rewrite prompt if the review `t` came back and is not "all good". */
  function PromptsFromReflector(executors: map<string, string>, t: Result<string>): seq<string> {
    [ReflectPrompt(executors)] + if t.Ok? then PromptsFromAggregator(executors, t.value) else []
  }

  function PromptsFromAggregator(executors: map<string, string>, reflection: string): seq<string> {
    if AllGood(reflection) then [] else [RewritePrompt(Get(executors, "justify"), reflection)]
  }

  /** The aggregator node, run last. */
  lemma RunAggregatorLast(s: AgentState, llm: Invoke)
    ensures RunNodes([AggregatorNode], s, llm) == FromAggregator(s.rawText, s.plan, s.executors, s.reflection, llm)
    ensures RunPrompts([AggregatorNode], s, llm) == PromptsFromAggregator(s.executors, s.reflection)
  {
    var ns: seq<Node> := [AggregatorNode];
    assert ns[1..] == [];
    var a := Aggregate(s.executors, s.reflection, llm);
    if a.Ok? {
      assert Step(AggregatorNode, s, llm) == Ok(s.(finalOutput := a.value));
      assert RunNodes([], s.(finalOutput := a.value), llm) == Ok(s.(finalOutput := a.value));
    } else {
      assert Step(AggregatorNode, s, llm) == Err(a.message);
    }
  }

  /** The reflector node, then the aggregator. */
  lemma RunFromReflector(s: AgentState, llm: Invoke)
    ensures RunNodes([ReflectorNode, AggregatorNode], s, llm) == FromReflector(s.rawText, s.plan, s.executors, llm)
    ensures RunPrompts([ReflectorNode, AggregatorNode], s, llm) == PromptsFromReflector(s.executors, Reflect(s.executors, llm))
  {
    var ns: seq<Node> := [ReflectorNode, AggregatorNode];
    assert ns[1..] == [AggregatorNode];
    var r := Reflect(s.executors, llm);
    if r.Ok? {
      RunAggregatorLast(s.(reflection := r.value), llm);
    }
  }

  /** The executor node, then the reflector and the aggregator. */
  lemma RunFromExecutor(s: AgentState, llm: Invoke)
    ensures RunNodes([ExecutorNode, ReflectorNode, AggregatorNode], s, llm) == FromExecutor(s.rawText, s.plan, llm)
    ensures RunPrompts([ExecutorNode, ReflectorNode, AggregatorNode], s, llm) == PromptsFromExecutor(s.rawText, s.plan, llm)
  {
    var ns: seq<Node> := [ExecutorNode, ReflectorNode, AggregatorNode];
    assert ns[1..] == [ReflectorNode, AggregatorNode];
    RunFromReflector(s.(executors := ExecutorOutputs(s.plan, s.rawText, llm)), llm);
  }

  /** Following the graph from its entry runs the four stages in order. */
  lemma RunIsStaged(rawText: string, llm: Invoke)
    ensures Run(rawText, llm) == Staged(rawText, llm)
    ensures Prompts(rawText, llm) == StagedPrompts(rawText, llm)
  {
    BuildGraphPath();
    var ns: seq<Node> := [PlannerNode, ExecutorNode, ReflectorNode, AggregatorNode];
    assert ns[1..] == [ExecutorNode, ReflectorNode, AggregatorNode];
    var p := Plan(rawText, llm);
    if p.Ok? {
      RunFromExecutor(Initial(rawText).(plan := p.value), llm);
    }
  }

  /** The review and aggregation stages, when neither raises, write the two last fields. */
  lemma FromReflectorOk(rawText: string, plan: seq<string>, executors: map<string, string>, llm: Invoke)
    ensures var r := FromReflector(rawText, plan, executors, llm);
      r.Ok? ==>
        && r.value.rawText == rawText && r.value.plan == plan && r.value.executors == executors
        && Reflect(executors, llm) == Ok(r.value.reflection)
        && Aggregate(executors, r.value.reflection, llm) == Ok(r.value.finalOutput)
  {
    var t := Reflect(executors, llm);
    if t.Ok? {
      var f := Aggregate(executors, t.value, llm);
      assert FromReflector(rawText, plan, executors, llm) == FromAggregator(rawText, plan, executors, t.value, llm);
      if f.Ok? {
        assert FromAggregator(rawText, plan, executors, t.value, llm) == Ok(AgentState(rawText, plan, executors, t.value, f.value));
      }
    }
  }

  /** One or two calls follow the execution stage, as the review is or is not "all good". */
  lemma PromptsFromReflectorCount(executors: map<string, string>, t: Result<string>)
    ensures t.Ok? ==> |PromptsFromReflector(executors, t)| == 1 + (if AllGood(t.value) then 0 else 1)
  {
  }

  /** The staged run, when nothing raises, ends in the state each stage writes. */
  lemma StagedOk(rawText: string, llm: Invoke)
    ensures var r := Staged(rawText, llm);
      r.Ok? ==>
        && Plan(rawText, llm) == Ok(r.value.plan)
        && r.value.rawText == rawText
        && r.value.executors == ExecutorOutputs(r.value.plan, rawText, llm)
        && Reflect(r.value.executors, llm) == Ok(r.value.reflection)
        && Aggregate(r.value.executors, r.value.reflection, llm) == Ok(r.value.finalOutput)
        && |StagedPrompts(rawText, llm)| == |r.value.plan| + 2 + (if AllGood(r.value.reflection) then 0 else 1)
    ensures Plan(rawText, llm).Err? ==>
      Staged(rawText, llm) == Err(Plan(rawText, llm).message) && StagedPrompts(rawText, llm) == [PlanPrompt(rawText)]
  {
    var p := Plan(rawText, llm);
    if p.Ok? {
      FromReflectorOk(rawText, p.value, ExecutorOutputs(p.value, rawText, llm), llm);
      PromptsFromReflectorCount(ExecutorOutputs(p.value, rawText, llm), Reflect(ExecutorOutputs(p.value, rawText, llm), llm));
    }
  }

  /**
    A run that raises nowhere ends in the state each stage writes: the plan of
    the model's plan reply, the outputs of its steps, the stripped review and
    the aggregated outputs; the raw text is never changed. A plan call that
    raises ends the run with its exception.
  */
  lemma RunStages(rawText: string, llm: Invoke)
    ensures Run(rawText, llm).Ok? ==>
      var s := Run(rawText, llm).value;
      && Plan(rawText, llm) == Ok(s.plan)
      && s.rawText == rawText
      && s.executors == ExecutorOutputs(s.plan, rawText, llm)
      && Reflect(s.executors, llm) == Ok(s.reflection)
      && Aggregate(s.executors, s.reflection, llm) == Ok(s.finalOutput)
    ensures Plan(rawText, llm).Err? ==> Run(rawText, llm) == Err(Plan(rawText, llm).message)
  {
    RunIsStaged(rawText, llm);
    StagedOk(rawText, llm);
  }

  /**
    The number of model calls: one for the plan, one per plan step, one for
    the review and one more when the review is not "all good"; when the plan
    call raises, it is the only call.
  */
  lemma PromptCount(rawText: string, llm: Invoke)
    ensures Plan(rawText, llm).Err? ==> Prompts(rawText, llm) == [PlanPrompt(rawText)]
    ensures Run(rawText, llm).Ok? ==>
      var s := Run(rawText, llm).value;
      |Prompts(rawText, llm)| == |s.plan| + 2 + (if AllGood(s.reflection) then 0 else 1)
  {
    RunIsStaged(rawText, llm);
    StagedOk(rawText, llm);
  }

  /** The four keys the review, the rewrite and the report printer look up. */
  predicate PositionalKey(k: string) {
    k == "assign" || k == "classify" || k == "justify" || k == "recommend"
  }

  /** A plan line that opens "1."–"4." opens with digits and a dot. */
  lemma NumberedLineIsNumberDot(s: string)
    requires NumberedLine(s)
    ensures NumberDot(s)
  {
    var t := Take(s, 2);
    assert t == "1." || t == "2." || t == "3." || t == "4.";
    assert s[0] == t[0] && s[1] == t[1];
    assert 0 < 1 < |s| && s[1] == '.' && forall k :: 0 <= k < 1 ==> IsDigit(s[k]);
  }

  /** No label key is one of the positional keys. */
  lemma LabelKeyNotPositional(l: Label)
    ensures !PositionalKey(LabelKey(l))
  {
    assert |LabelKey(l)| >= 13;
  }

  /** A key opening with "step" is not one of the positional keys. */
  lemma StepPrefixNotPositional(k: string)
    requires StartsWith(k, "step")
    ensures !PositionalKey(k)
  {
    assert k[0] == 's';
  }

  /** The key of a plan step of either shape is never one of the positional keys. */
  lemma StepKeyNotPositional(idx: nat, step: string)
    requires Stripped(step) && StepShape(step)
    ensures !PositionalKey(StepKey(idx, RenameStep(step)))
  {
    StripByNothing(step, IsSpace);
    if StartsWith(Lower(step), "step") {
      StepLineKey(idx, step);
      StepPrefixNotPositional(StepKey(idx, RenameStep(step)));
    } else {
      NumberedLineIsNumberDot(step);
      NumberedStepKey(idx, step);
      LabelKeyNotPositional(Classify(Lower(step)));
    }
  }

  /**
    The outputs of a run never hold "assign", "classify", "justify" or
    "recommend": keys come from step labels, not positions.
  */
  lemma ExecutorsNeverPositional(rawText: string, llm: Invoke)
    requires Plan(rawText, llm).Ok?
    ensures forall k :: k in ExecutorOutputs(Plan(rawText, llm).value, rawText, llm) ==> !PositionalKey(k)
  {
    var plan := Plan(rawText, llm).value;
    forall k | k in ExecutorOutputs(plan, rawText, llm) ensures !PositionalKey(k) {
      ExecutorKeyOrigin(plan, rawText, llm, k);
      var i :| 0 <= i < |plan| && k == StepKey(i + 1, RenameStep(plan[i]));
      StepKeyNotPositional(i + 1, plan[i]);
    }
  }

  /** Outputs without positional keys give the review prompt of empty outputs. */
  lemma NoPositionalKeys(executors: map<string, string>)
    requires forall k :: k in executors ==> !PositionalKey(k)
    ensures ReflectPrompt(executors) == ReflectPrompt(map[])
    ensures "justify" !in executors
  {
    assert PositionalKey("assign") && PositionalKey("classify") && PositionalKey("justify");
    ReflectPromptFields(executors, map[]);
  }

  /**
    What follows for the last two stages: the review always sees three empty
    fields, and a rewrite adds "justify" as a new entry rather than replacing
    the justification step's output.
  */
  lemma ReviewSeesEmptyFields(rawText: string, llm: Invoke)
    requires Run(rawText, llm).Ok?
    ensures var s := Run(rawText, llm).value;
      && ReflectPrompt(s.executors) == ReflectPrompt(map[])
      && (AllGood(s.reflection) ==> s.finalOutput == s.executors)
      && (!AllGood(s.reflection) ==> "justify" !in s.executors && |s.finalOutput| == |s.executors| + 1)
  {
    RunStages(rawText, llm);
    var s := Run(rawText, llm).value;
    ExecutorsNeverPositional(rawText, llm);
    LastStages(s.executors, s.reflection, s.finalOutput, llm);
  }

  /**
    Whatever the review and the rewrite calls do, a run whose plan came back
    sends the review prompt built from empty fields right after the step
    prompts.
  */
  lemma ReviewSentEmptyFields(rawText: string, llm: Invoke)
    requires Plan(rawText, llm).Ok?
    ensures |Prompts(rawText, llm)| > 1 + |Plan(rawText, llm).value|
    ensures Prompts(rawText, llm)[1 + |Plan(rawText, llm).value|] == ReflectPrompt(map[])
  {
    RunIsStaged(rawText, llm);
    var plan := Plan(rawText, llm).value;
    var executors := ExecutorOutputs(plan, rawText, llm);
    var steps := StepPrompts(plan, rawText);
    var rest := PromptsFromReflector(executors, Reflect(executors, llm));
    assert StagedPrompts(rawText, llm) == [PlanPrompt(rawText)] + (steps + rest);
    assert rest[0] == ReflectPrompt(executors);
    ExecutorsNeverPositional(rawText, llm);
    NoPositionalKeys(executors);
  }

  /** The last two stages over outputs that hold no positional key. */
  lemma LastStages(executors: map<string, string>, reflection: string, final: map<string, string>, llm: Invoke)
    requires forall k :: k in executors ==> !PositionalKey(k)
    requires Aggregate(executors, reflection, llm) == Ok(final)
    ensures ReflectPrompt(executors) == ReflectPrompt(map[])
    ensures AllGood(reflection) ==> final == executors
    ensures !AllGood(reflection) ==> "justify" !in executors && |final| == |executors| + 1
  {
    NoPositionalKeys(executors);
    AggregateCases(executors, reflection, llm);
    if !AllGood(reflection) {
      RewriteAddsJustify(executors, reflection, llm);
    }
  }
}
