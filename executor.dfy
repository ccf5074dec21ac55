/**
  The execution stage (`executor`): the plan is renamed, every step is run
  with its own model call (`run_step`), and the `(key, value)` pairs, in plan
  order, are folded into one dictionary in which a later pair overwrites an
  earlier one with the same key.
*/
module Executor {
  import opened Text
  import opened Llm
  import opened Renamer
  import opened Keys

  /** What `run_step` returns. */
  datatype StepResult = StepResult(key: string, value: string)

  /** The prompt of one step: the original plan step, then the raw anomaly text. */
  function StepPrompt(origStep: string, rawText: string): string {
    origStep + "\n\nDetails:\n" + rawText
  }

  /** `run_step` for the step at 1-based position `idx`. */
  function RunStep(idx: nat, origStep: string, renamedStep: string, rawText: string, llm: Invoke): (r: StepResult)
    ensures WellFormedKey(r.key)
  {
    var key := StepKey(idx, renamedStep);
    match llm(StepPrompt(origStep, rawText))
    case Answer(c) => StepResult(key, Strip(c))
    case Raised(e) => StepResult(key, e)
  }

  /** The key is derived before the call, so the reply, or its exception, never changes it. */
  lemma RunStepKey(idx: nat, origStep: string, renamedStep: string, rawText: string, llm: Invoke)
    ensures RunStep(idx, origStep, renamedStep, rawText, llm).key == StepKey(idx, renamedStep)
  {
  }

  /**
    A step's value is its reply stripped, which keeps every letter and digit
    of the reply, or, when the call raised, the exception's text.
  */
  lemma RunStepValue(idx: nat, origStep: string, renamedStep: string, rawText: string, llm: Invoke)
    ensures var r, reply := RunStep(idx, origStep, renamedStep, rawText, llm), llm(StepPrompt(origStep, rawText));
      && (reply.Raised? ==> r.value == reply.message)
      && (reply.Answer? ==> Stripped(r.value) && Alnums(r.value) == Alnums(reply.content))
  {
    var reply := llm(StepPrompt(origStep, rawText));
    if reply.Answer? {
      StripByKeepsAlnums(reply.content, IsSpace);
    }
  }

  /**
    `asyncio.gather` over the tasks built from `enumerate(zip(plan, renamed), 1)`:
    one result per pair, in plan order whatever order the calls finish in.
  */
  function Gather(plan: seq<string>, renamed: seq<string>, rawText: string, llm: Invoke): seq<StepResult> {
    var n := if |plan| <= |renamed| then |plan| else |renamed|;
    seq(n, i requires 0 <= i < n => RunStep(i + 1, plan[i], renamed[i], rawText, llm))
  }

  /** `zip` stops at the shorter list, and result `i` is the run of step `i + 1`. */
  lemma GatherAt(plan: seq<string>, renamed: seq<string>, rawText: string, llm: Invoke, i: nat)
    requires i < |plan| && i < |renamed|
    ensures |Gather(plan, renamed, rawText, llm)| == if |plan| <= |renamed| then |plan| else |renamed|
    ensures Gather(plan, renamed, rawText, llm)[i] == RunStep(i + 1, plan[i], renamed[i], rawText, llm)
  {
  }

  /** `for key, value in results: outputs[key] = value`, as a value. */
  function FoldResults(results: seq<StepResult>): map<string, string>
    decreases |results|
  {
    if results == [] then map[]
    else
      var last := results[|results| - 1];
      FoldResults(results[..|results| - 1])[last.key := last.value]
  }

  /** The keys of the results. */
  function ResultKeys(results: seq<StepResult>): set<string> {
    set i | 0 <= i < |results| :: results[i].key
  }

  /** The fold has one entry per distinct key, and so no more entries than results. */
  lemma {:induction false} FoldKeys(results: seq<StepResult>)
    ensures FoldResults(results).Keys == ResultKeys(results)
    ensures |FoldResults(results)| <= |results|
    decreases |results|
  {
    if results != [] {
      var front := results[..|results| - 1];
      var last := results[|results| - 1];
      FoldKeys(front);
      ResultKeysSnoc(results);
      assert FoldResults(results).Keys == FoldResults(front).Keys + {last.key};
    }
  }

  lemma ResultKeysSnoc(results: seq<StepResult>)
    requires results != []
    ensures var front, last := results[..|results| - 1], results[|results| - 1];
      ResultKeys(results) == ResultKeys(front) + {last.key}
  {
    var front, last := results[..|results| - 1], results[|results| - 1];
    forall k | k in ResultKeys(results) ensures k in ResultKeys(front) + {last.key} {
      var i :| 0 <= i < |results| && results[i].key == k;
      if i < |front| { assert front[i] == results[i]; }
    }
    forall k | k in ResultKeys(front) ensures k in ResultKeys(results) {
      var i :| 0 <= i < |front| && front[i].key == k;
      assert results[i] == front[i];
    }
  }

  /** No result after position `i` has the key of result `i`. */
  predicate LastWithKey(results: seq<StepResult>, i: nat)
    requires i < |results|
  {
    forall j :: i < j < |results| ==> results[j].key != results[i].key
  }

  /** The value kept for a key is the one of the last result with that key. */
  lemma {:induction false} FoldLastWins(results: seq<StepResult>, i: nat)
    requires i < |results| && LastWithKey(results, i)
    ensures results[i].key in FoldResults(results)
    ensures FoldResults(results)[results[i].key] == results[i].value
    decreases |results|
  {
    var front := results[..|results| - 1];
    if i < |front| {
      assert front[i] == results[i];
      assert LastWithKey(front, i) by {
        forall j | i < j < |front| ensures front[j].key != front[i].key {
          assert front[j] == results[j];
        }
      }
      FoldLastWins(front, i);
    }
  }

  /** Every entry of the fold is the value of the last result with that key. */
  lemma FoldEntryOrigin(results: seq<StepResult>, k: string)
    requires k in FoldResults(results)
    ensures exists i :: (0 <= i < |results| && results[i].key == k && LastWithKey(results, i) &&
      FoldResults(results)[k] == results[i].value)
  {
    FoldKeys(results);
    var i :| 0 <= i < |results| && results[i].key == k;
    while !LastWithKey(results, i)
      invariant 0 <= i < |results| && results[i].key == k
      decreases |results| - i
    {
      var j :| i < j < |results| && results[j].key == results[i].key;
      i := j;
    }
    FoldLastWins(results, i);
  }

  /** The loop of `executor` that fills `outputs`. */
  method FoldOutputs(results: seq<StepResult>) returns (outputs: map<string, string>)
    ensures outputs == FoldResults(results)
    ensures outputs.Keys == ResultKeys(results)
  {
    outputs := map[];
    for i := 0 to |results|
      invariant outputs == FoldResults(results[..i])
    {
      assert results[..i + 1][..i] == results[..i];
      outputs := outputs[results[i].key := results[i].value];
    }
    assert results[..|results|] == results;
    FoldKeys(results);
  }

  /** The dictionary the execution stage returns, as a value. */
  function ExecutorOutputs(plan: seq<string>, rawText: string, llm: Invoke): map<string, string> {
    FoldResults(Gather(plan, Renamed(plan), rawText, llm))
  }

  /** The prompts the execution stage sends, one per plan step, in plan order. */
  function StepPrompts(plan: seq<string>, rawText: string): (prompts: seq<string>)
    ensures |prompts| == |plan|
    ensures forall i :: 0 <= i < |plan| ==> prompts[i] == StepPrompt(plan[i], rawText)
  {
    seq(|plan|, i requires 0 <= i < |plan| => StepPrompt(plan[i], rawText))
  }

  /**
    The execution stage's outputs depend on the model only through its
    replies to the step prompts: two models that agree on those give the same
    outputs.
  */
  lemma ExecutorAsksOnly(plan: seq<string>, rawText: string, l1: Invoke, l2: Invoke)
    requires forall i :: 0 <= i < |plan| ==> l1(StepPrompt(plan[i], rawText)) == l2(StepPrompt(plan[i], rawText))
    ensures ExecutorOutputs(plan, rawText, l1) == ExecutorOutputs(plan, rawText, l2)
  {
    var renamed := Renamed(plan);
    var g1, g2 := Gather(plan, renamed, rawText, l1), Gather(plan, renamed, rawText, l2);
    forall i | 0 <= i < |plan| ensures g1[i] == g2[i] {
      GatherAt(plan, renamed, rawText, l1, i);
      GatherAt(plan, renamed, rawText, l2, i);
    }
    assert g1 == g2;
  }

  /** The execution stage: rename, run every step, fold the results. */
  method Execute(plan: seq<string>, rawText: string, llm: Invoke) returns (outputs: map<string, string>)
    ensures outputs == ExecutorOutputs(plan, rawText, llm)
  {
    var renamed := RenamePlanSteps(plan);
    var results := Gather(plan, renamed, rawText, llm);
    outputs := FoldOutputs(results);
  }

  /** Every key of the outputs is well formed and is the key of some step at its position. */
  lemma ExecutorKeyOrigin(plan: seq<string>, rawText: string, llm: Invoke, k: string)
    requires k in ExecutorOutputs(plan, rawText, llm)
    ensures WellFormedKey(k)
    ensures exists i :: 0 <= i < |plan| && k == StepKey(i + 1, RenameStep(plan[i]))
  {
    var i := ExecutorKeyIndex(plan, rawText, llm, k);
  }

  /** The position of a step whose derived key is `k`. */
  lemma ExecutorKeyIndex(plan: seq<string>, rawText: string, llm: Invoke, k: string) returns (i: nat)
    requires k in ExecutorOutputs(plan, rawText, llm)
    ensures i < |plan| && k == StepKey(i + 1, RenameStep(plan[i]))
  {
    var renamed := Renamed(plan);
    var results := Gather(plan, renamed, rawText, llm);
    FoldKeys(results);
    assert k in ResultKeys(results);
    i :| 0 <= i < |results| && results[i].key == k;
    GatherAt(plan, renamed, rawText, llm, i);
    RunStepKey(i + 1, plan[i], renamed[i], rawText, llm);
    assert renamed[i] == RenameStep(plan[i]);
  }

  /** Every step's derived key is a key of the outputs, whatever its call returned. */
  lemma ExecutorKeyComplete(plan: seq<string>, rawText: string, llm: Invoke, i: nat)
    requires i < |plan|
    ensures StepKey(i + 1, RenameStep(plan[i])) in ExecutorOutputs(plan, rawText, llm)
  {
    var renamed := Renamed(plan);
    var results := Gather(plan, renamed, rawText, llm);
    GatherAt(plan, renamed, rawText, llm, i);
    RunStepKey(i + 1, plan[i], renamed[i], rawText, llm);
    FoldKeys(results);
    assert results[i].key in ResultKeys(results);
  }

  /** The outputs hold at most one entry per plan step, and every key is well formed. */
  lemma ExecutorKeys(plan: seq<string>, rawText: string, llm: Invoke)
    ensures |ExecutorOutputs(plan, rawText, llm)| <= |plan|
    ensures forall k :: k in ExecutorOutputs(plan, rawText, llm) ==> WellFormedKey(k)
  {
    FoldKeys(Gather(plan, Renamed(plan), rawText, llm));
    forall k | k in ExecutorOutputs(plan, rawText, llm) ensures WellFormedKey(k) {
      ExecutorKeyOrigin(plan, rawText, llm, k);
    }
  }

  /**
    A step that no later step shares a key with keeps its own value: the
    stripped reply, or the text of the exception its call raised.
  */
  lemma ExecutorStepValue(plan: seq<string>, rawText: string, llm: Invoke, i: nat)
    requires i < |plan|
    requires forall j :: i < j < |plan| ==> StepKey(j + 1, RenameStep(plan[j])) != StepKey(i + 1, RenameStep(plan[i]))
    ensures var key, reply := StepKey(i + 1, RenameStep(plan[i])), llm(StepPrompt(plan[i], rawText));
      && key in ExecutorOutputs(plan, rawText, llm)
      && ExecutorOutputs(plan, rawText, llm)[key] == (if reply.Answer? then Strip(reply.content) else reply.message)
  {
    var results := Gather(plan, Renamed(plan), rawText, llm);
    GatherAt(plan, Renamed(plan), rawText, llm, i);
    forall j | i < j < |results| ensures results[j].key != results[i].key {
      GatherAt(plan, Renamed(plan), rawText, llm, j);
    }
    FoldLastWins(results, i);
    RunStepValue(i + 1, plan[i], RenameStep(plan[i]), rawText, llm);
  }
}
