/**
  The plan stage (`planner`): one model call with the plan prompt, then the
  reply is stripped, split into lines, and a line is kept, stripped, when it
  starts with "step" (after lower-casing the raw line) or when its stripped
  form starts with "1.", "2.", "3." or "4.".
*/
module Planner {
  import opened Text
  import opened Llm

  /** The prompt the plan stage sends; the en dash of "0–100" is U+2013. */
  function PlanPrompt(rawText: string): string {
    "Given this anomaly:\n\n" + rawText + "\n\n"
    + "List the steps to:\n"
    + "1. Assign a confidence score (0\U{2013}100).\n"
    + "2. Classify the anomaly type.\n"
    + "3. Justify the classification.\n"
    + "4. Recommend follow-up investigation."
  }

  /** `line.strip()[:2] in {"1.", "2.", "3.", "4."}`. */
  predicate NumberedLine(stripped: string) {
    Take(stripped, 2) in {"1.", "2.", "3.", "4."}
  }

  /** The filter of the list comprehension. */
  predicate KeepLine(line: string) {
    StartsWith(Lower(line), "step") || NumberedLine(Strip(line))
  }

  /** `[line.strip() for line in lines if keep(line)]`. */
  function FilterStrip(lines: seq<string>, keep: string -> bool): (kept: seq<string>)
    decreases |lines|
  {
    if lines == [] then []
    else (if keep(lines[0]) then [Strip(lines[0])] else []) + FilterStrip(lines[1..], keep)
  }

  /** The steps of a reply's lines. */
  function ExtractSteps(lines: seq<string>): seq<string> {
    FilterStrip(lines, KeepLine)
  }

  /**
    The positions, from `from` on, of the lines that `keep` accepts, in
    increasing order: an independent account of which lines a plan is made of.
  */
  function KeptPositions(lines: seq<string>, from: nat, keep: string -> bool): (ix: seq<nat>)
    requires from <= |lines|
    ensures forall k :: 0 <= k < |ix| ==> from <= ix[k] < |lines| && keep(lines[ix[k]])
    ensures forall k, m :: 0 <= k < m < |ix| ==> ix[k] < ix[m]
    ensures forall i :: from <= i < |lines| && keep(lines[i]) ==> i in ix
    decreases |lines| - from
  {
    if from == |lines| then []
    else (if keep(lines[from]) then [from] else []) + KeptPositions(lines, from + 1, keep)
  }

  /**
    The filter keeps, in order, exactly the lines `keep` accepts, stripped: the
    k-th result is the k-th accepted line.
  */
  lemma {:induction false} FilterStripExact(lines: seq<string>, from: nat, keep: string -> bool)
    requires from <= |lines|
    ensures var kept, ix := FilterStrip(lines[from..], keep), KeptPositions(lines, from, keep);
      |kept| == |ix| && forall k :: 0 <= k < |ix| ==> kept[k] == Strip(lines[ix[k]])
    decreases |lines| - from
  {
    if from < |lines| {
      var line := lines[from];
      assert lines[from..][0] == line && lines[from..][1..] == lines[from + 1..];
      var tail, tailIx := FilterStrip(lines[from + 1..], keep), KeptPositions(lines, from + 1, keep);
      FilterStripExact(lines, from + 1, keep);
      var head := if keep(line) then [Strip(line)] else [];
      var headIx := if keep(line) then [from] else [];
      assert FilterStrip(lines[from..], keep) == head + tail;
      assert KeptPositions(lines, from, keep) == headIx + tailIx;
    }
  }

  /** The plan is, in order, exactly the stripped lines that `KeepLine` accepts. */
  lemma ExtractStepsExact(lines: seq<string>)
    ensures var steps, ix := ExtractSteps(lines), KeptPositions(lines, 0, KeepLine);
      |steps| == |ix| && forall k :: 0 <= k < |ix| ==> steps[k] == Strip(lines[ix[k]])
  {
    FilterStripExact(lines, 0, KeepLine);
    assert lines[0..] == lines;
  }

  /** The plan never has more steps than the reply has lines. */
  lemma PlanNoLongerThanLines(lines: seq<string>)
    ensures |ExtractSteps(lines)| <= |lines|
  {
    ExtractStepsExact(lines);
    KeptPositionsBound(KeptPositions(lines, 0, KeepLine), |lines|);
  }

  /** A strictly increasing sequence of positions below `n` has at most `n` elements. */
  lemma {:induction false} KeptPositionsBound(ix: seq<nat>, n: nat)
    requires forall k :: 0 <= k < |ix| ==> ix[k] < n
    requires forall k, m :: 0 <= k < m < |ix| ==> ix[k] < ix[m]
    ensures |ix| <= n
    decreases n
  {
    if ix != [] {
      var last := ix[|ix| - 1];
      var front := ix[..|ix| - 1];
      assert forall k :: 0 <= k < |front| ==> front[k] < last;
      KeptPositionsBound(front, last);
    }
  }

  /** A line with a blank first character never passes the "step" test. */
  lemma BlankStartNotStep(line: string)
    requires line != [] && IsSpace(line[0])
    ensures !StartsWith(Lower(line), "step")
  {
    assert Lower(line)[0] == LowerChar(line[0]);
  }

  /**
    A line indented before "step" is kept only through the numeric test: the
    "step" test looks at the raw line, whose first character is then blank.
  */
  lemma IndentedLineNeedsNumber(line: string)
    requires line != [] && IsSpace(line[0])
    ensures KeepLine(line) <==> NumberedLine(Strip(line))
  {
    BlankStartNotStep(line);
  }

  /** The shape of a step: it starts with "step" in any case, or with "1."–"4.". */
  predicate StepShape(s: string) {
    StartsWith(Lower(s), "step") || NumberedLine(s)
  }

  /** A line whose lower-cased form starts with "step" still does once stripped. */
  lemma StripKeepsStep(line: string)
    requires StartsWith(Lower(line), "step")
    ensures StartsWith(Lower(Strip(line)), "step")
  {
    var w := line[..4];
    LowerPrefix(line, w);
    assert Lower(w) == "step";
    assert forall k :: 0 <= k < 4 ==> !IsSpace(w[k]) by {
      assert forall k :: 0 <= k < 4 ==> LowerChar(w[k]) == "step"[k];
    }
    StripByKeepsPrefix(line, w, IsSpace);
    LowerPrefix(Strip(line), w);
  }

  /** Every kept line, once stripped, is a stripped text of step shape. */
  lemma KeptLineShape(line: string)
    requires KeepLine(line)
    ensures Stripped(Strip(line)) && StepShape(Strip(line))
  {
    if StartsWith(Lower(line), "step") {
      StripKeepsStep(line);
    }
  }

  /** Every result of the filter has a shape that all the accepted lines have once stripped. */
  lemma {:induction false} FilterStripShape(lines: seq<string>, keep: string -> bool, shape: string -> bool)
    requires forall line :: keep(line) ==> shape(Strip(line))
    ensures forall k :: 0 <= k < |FilterStrip(lines, keep)| ==> shape(FilterStrip(lines, keep)[k])
    decreases |lines|
  {
    if lines != [] {
      FilterStripShape(lines[1..], keep, shape);
    }
  }

  /** Every step of an extracted plan is stripped and has step shape. */
  lemma ExtractedStepsShape(lines: seq<string>)
    ensures forall k :: 0 <= k < |ExtractSteps(lines)| ==>
      var s := ExtractSteps(lines)[k]; Stripped(s) && StepShape(s)
  {
    forall line | KeepLine(line) ensures Stripped(Strip(line)) && StepShape(Strip(line)) {
      KeptLineShape(line);
    }
    FilterStripShape(lines, KeepLine, s => Stripped(s) && StepShape(s));
  }

  /** The plan a reply yields: `[line.strip() for line in reply.strip().splitlines() if ...]`. */
  function PlanFromReply(content: string): seq<string> {
    ExtractSteps(SplitLines(Strip(content)))
  }

  /** The plan stage; an exception of the model call propagates. */
  function Plan(rawText: string, llm: Invoke): (r: Result<seq<string>>)
    ensures llm(PlanPrompt(rawText)).Raised? <==> r.Err?
    ensures r.Err? ==> r.message == llm(PlanPrompt(rawText)).message
    ensures r.Ok? ==> forall k :: 0 <= k < |r.value| ==> Stripped(r.value[k]) && StepShape(r.value[k])
  {
    match llm(PlanPrompt(rawText))
    case Raised(e) => Err(e)
    case Answer(c) =>
      ExtractedStepsShape(SplitLines(Strip(c)));
      Ok(PlanFromReply(c))
  }
}
