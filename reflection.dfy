/**
  The reflection stage (`reflect_node`) asks the model to review three fields
  of the execution outputs; the aggregation stage (`aggregator`) keeps the
  outputs when the review starts with "all good" and otherwise has the model
  rewrite the "justify" entry.
*/
module Reflection {
  import opened Text
  import opened Llm

  /** `d.get(k, '')`. */
  function Get(d: map<string, string>, k: string): (v: string)
    ensures k in d ==> v == d[k]
    ensures k !in d ==> v == []
  {
    if k in d then d[k] else ""
  }

  /** The review prompt, built from the "assign", "classify" and "justify" entries. */
  function ReflectPrompt(executors: map<string, string>): string {
    "Confidence: " + Get(executors, "assign") + "\n"
    + "Anomaly Type: " + Get(executors, "classify") + "\n"
    + "Justification: " + Get(executors, "justify") + "\n\n"
    + "Is anything missing or uncertain? If good, reply 'All good'."
  }

  /** The review prompt reads no entry but "assign", "classify" and "justify". */
  lemma ReflectPromptFields(a: map<string, string>, b: map<string, string>)
    requires forall k :: k in {"assign", "classify", "justify"} ==> (k in a <==> k in b)
    requires forall k :: k in {"assign", "classify", "justify"} && k in a ==> a[k] == b[k]
    ensures ReflectPrompt(a) == ReflectPrompt(b)
  {
    assert "assign" in {"assign", "classify", "justify"};
    assert "classify" in {"assign", "classify", "justify"};
    assert "justify" in {"assign", "classify", "justify"};
  }

  /** The reflection stage; an exception of the model call propagates. */
  function Reflect(executors: map<string, string>, llm: Invoke): (r: Result<string>)
    ensures llm(ReflectPrompt(executors)).Raised? <==> r.Err?
    ensures r.Err? ==> r.message == llm(ReflectPrompt(executors)).message
    ensures r.Ok? ==> Stripped(r.value)
  {
    match llm(ReflectPrompt(executors))
    case Raised(e) => Err(e)
    case Answer(c) => Ok(Strip(c))
  }

  /** A review that came back keeps every letter and digit of the model's reply. */
  lemma ReflectKeepsAlnums(executors: map<string, string>, llm: Invoke)
    ensures Reflect(executors, llm).Ok? ==>
      Alnums(Reflect(executors, llm).value) == Alnums(llm(ReflectPrompt(executors)).content)
  {
    var reply := llm(ReflectPrompt(executors));
    if reply.Answer? {
      StripByKeepsAlnums(reply.content, IsSpace);
    }
  }

  /** `reflection.lower().startswith("all good")`. */
  predicate AllGood(reflection: string) {
    StartsWith(Lower(reflection), "all good")
  }

  /** The rewrite prompt. */
  function RewritePrompt(justify: string, reflection: string): string {
    "Original Justification:\n" + justify + "\n\n"
    + "Issue Found:\n" + reflection + "\n\n"
    + "Please rewrite the justification with more clarity or detail."
  }

  /** The aggregation stage; an exception of the rewrite call propagates. */
  function Aggregate(executors: map<string, string>, reflection: string, llm: Invoke): Result<map<string, string>> {
    if AllGood(reflection) then Ok(executors)
    else
      match llm(RewritePrompt(Get(executors, "justify"), reflection))
      case Raised(e) => Err(e)
      case Answer(c) => Ok(executors["justify" := Strip(c)])
  }

  /**
    A review that starts with "all good" keeps the outputs as they are;
    otherwise the rewrite call's exception propagates, or its stripped reply
    becomes the "justify" entry and every other entry stays as it was.
  */
  lemma AggregateCases(executors: map<string, string>, reflection: string, llm: Invoke)
    ensures var r := Aggregate(executors, reflection, llm);
      AllGood(reflection) ==> r == Ok(executors)
    ensures var r, reply := Aggregate(executors, reflection, llm), llm(RewritePrompt(Get(executors, "justify"), reflection));
      !AllGood(reflection) ==>
      && (r.Err? <==> reply.Raised?)
      && (r.Err? ==> r.message == reply.message)
      && (r.Ok? ==>
        && r.value.Keys == executors.Keys + {"justify"}
        && r.value["justify"] == Strip(reply.content)
        && forall k :: k in executors && k != "justify" ==> r.value[k] == executors[k])
  {
  }

  /**
    The aggregation stage step by step: the "all good" test, the rewrite
    call, then a copy of the outputs with the "justify" entry assigned.
  */
  method AggregateOutputs(executors: map<string, string>, reflection: string, llm: Invoke)
    returns (r: Result<map<string, string>>)
    ensures r == Aggregate(executors, reflection, llm)
  {
    if AllGood(reflection) {
      return Ok(executors);
    }
    var reply := llm(RewritePrompt(Get(executors, "justify"), reflection));
    if reply.Raised? {
      return Err(reply.message);
    }
    var updated := executors;
    updated := updated["justify" := Strip(reply.content)];
    return Ok(updated);
  }

  /**
    After a rewrite the outputs have one entry more exactly when there was no
    "justify" entry before, and the rewrite prompt then quotes an empty
    justification.
  */
  lemma RewriteAddsJustify(executors: map<string, string>, reflection: string, llm: Invoke)
    requires !AllGood(reflection) && "justify" !in executors
    ensures RewritePrompt(Get(executors, "justify"), reflection) == RewritePrompt("", reflection)
    ensures Aggregate(executors, reflection, llm).Ok? ==>
      |Aggregate(executors, reflection, llm).value| == |executors| + 1
  {
    var r := Aggregate(executors, reflection, llm);
    AggregateCases(executors, reflection, llm);
    if r.Ok? {
      assert r.value.Keys == executors.Keys + {"justify"};
    }
  }

  /** A reply that starts with "All good" in any case stops the rewrite. */
  lemma AllGoodAnyCase(reflection: string, w: string, rest: string)
    requires reflection == w + rest && |w| == 8
    requires Lower(w) == "all good"
    ensures AllGood(reflection)
  {
    LowerConcat(w, rest);
    assert Lower(reflection)[..8] == Lower(w);
  }
}
