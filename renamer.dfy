/**
  `rename_plan_steps`: every plan step is stripped, given a label by a fixed
  keyword rule on its lower-cased text, and a leading `N.` (optionally
  followed by `Anomaly K:`) is replaced by "<label>: ".
*/
module Renamer {
  import opened Text

  datatype Label = ConfidenceScoring | AnomalyClassification | Justification
                 | FollowUpRecommendation | AdditionalAnalysis
  {
    /** The label text written into a renamed step. */
    function Name(): string {
      match this
      case ConfidenceScoring => "Confidence Scoring"
      case AnomalyClassification => "Anomaly Classification"
      case Justification => "Justification"
      case FollowUpRecommendation => "Follow-up Recommendation"
      case AdditionalAnalysis => "Additional Analysis"
    }

    /** The phrases whose presence selects this label. */
    function Cues(): seq<string> {
      match this
      case ConfidenceScoring => ["confidence score"]
      case AnomalyClassification => ["classify", "anomaly type"]
      case Justification => ["justify"]
      case FollowUpRecommendation => ["recommend", "investigat"]
      case AdditionalAnalysis => []
    }

    /** Position in the order in which the rule tries the labels. */
    function Rank(): nat {
      match this
      case ConfidenceScoring => 0
      case AnomalyClassification => 1
      case Justification => 2
      case FollowUpRecommendation => 3
      case AdditionalAnalysis => 4
    }
  }

  /** Some cue of label `l` occurs in `lower`. */
  predicate Cued(l: Label, lower: string) {
    exists i :: 0 <= i < |l.Cues()| && Contains(lower, l.Cues()[i])
  }

  /** The if/elif chain that picks the label of a lower-cased step. */
  function Classify(lower: string): Label {
    if Contains(lower, "confidence score") then ConfidenceScoring
    else if Contains(lower, "classify") || Contains(lower, "anomaly type") then AnomalyClassification
    else if Contains(lower, "justify") then Justification
    else if Contains(lower, "recommend") || Contains(lower, "investigat") then FollowUpRecommendation
    else AdditionalAnalysis
  }

  /**
    The label is the first one, in rank order, one of whose cues occurs; when
    no cue occurs at all it is Additional Analysis.
  */
  lemma ClassifyPrecedence(lower: string)
    ensures Classify(lower) == AdditionalAnalysis <==> forall m: Label :: !Cued(m, lower)
    ensures Classify(lower) != AdditionalAnalysis ==> Cued(Classify(lower), lower)
    ensures forall m: Label :: m.Rank() < Classify(lower).Rank() ==> !Cued(m, lower)
  {
    var l := Classify(lower);
    if l == ConfidenceScoring || l == Justification {
      assert Contains(lower, l.Cues()[0]);
    } else if l == AnomalyClassification || l == FollowUpRecommendation {
      if !Contains(lower, l.Cues()[0]) {
        assert Contains(lower, l.Cues()[1]);
      }
    }
    forall m: Label | m.Rank() < l.Rank() || l == AdditionalAnalysis
      ensures !Cued(m, lower)
    {
      assert forall i :: 0 <= i < |m.Cues()| ==> !Contains(lower, m.Cues()[i]);
    }
    if l != AdditionalAnalysis {
      assert Cued(l, lower);
    }
  }

  /** A leading run of one or more digits followed by a dot. */
  predicate NumberDot(s: string) {
    exists d :: 0 < d < |s| && s[d] == '.' && forall k :: 0 <= k < d ==> IsDigit(s[k])
  }

  /** The length of a match of `Anomaly\s*\d+:` at the start of `t`, or 0. */
  function AnomalyTag(t: string): (n: nat)
    ensures n <= |t|
    ensures n > 0 ==> StartsWith(t, "Anomaly") && t[n - 1] == ':'
  {
    if !StartsWith(t, "Anomaly") then 0
    else
      var u := t[7..];
      var w := LeadingRun(u, IsSpace);
      var d := LeadingRun(u[w..], IsDigit);
      if d > 0 && w + d < |u| && u[w + d] == ':' then 7 + w + d + 1 else 0
  }

  /** The length of the match of `^\d+\.\s*(Anomaly\s*\d+:)?` in `s`, or 0 when it does not match. */
  function PrefixMatch(s: string): (m: nat)
    ensures m <= |s|
    ensures m > 0 ==> 0 < LeadingRun(s, IsDigit) < |s| && s[LeadingRun(s, IsDigit)] == '.'
  {
    var d := LeadingRun(s, IsDigit);
    if d == 0 || d == |s| || s[d] != '.' then 0
    else
      d + 1 + AfterDot(s[d + 1..])
  }

  /** The length of the match of `\s*(Anomaly\s*\d+:)?` at the start of `t`, the part after the '.'. */
  function AfterDot(t: string): (n: nat)
    ensures n <= |t|
  {
    var w := LeadingRun(t, IsSpace);
    w + AnomalyTag(t[w..])
  }

  /**
    `Anomaly\s*\d+:` spelled out at the start of `t`: "Anomaly", `w`
    whitespace characters, `d >= 1` digits, then ':'.
  */
  predicate TagParts(t: string, w: nat, d: nat) {
    && 7 + w + d < |t|
    && t[..7] == "Anomaly"
    && (forall k :: 7 <= k < 7 + w ==> IsSpace(t[k]))
    && d > 0
    && (forall k :: 7 + w <= k < 7 + w + d ==> IsDigit(t[k]))
    && t[7 + w + d] == ':'
  }

  /** When the tag is there, it is matched, and the match ends at its colon. */
  lemma AnomalyTagMatches(t: string, w: nat, d: nat)
    requires TagParts(t, w, d)
    ensures AnomalyTag(t) == 7 + w + d + 1
  {
    var u := t[7..];
    assert StartsWith(t, "Anomaly");
    assert forall k :: 0 <= k < w ==> u[k] == t[7 + k];
    assert u[w] == t[7 + w];
    LeadingRunExact(u, IsSpace, w);
    var v := u[w..];
    assert forall k :: 0 <= k <= d ==> v[k] == t[7 + w + k];
    LeadingRunExact(v, IsDigit, d);
    assert u[w + d] == ':';
  }

  /** A match of the tag is a tag: nothing else is taken. */
  lemma AnomalyTagSound(t: string)
    ensures AnomalyTag(t) > 0 ==> exists w: nat, d: nat :: TagParts(t, w, d) && AnomalyTag(t) == 7 + w + d + 1
  {
    if AnomalyTag(t) > 0 {
      var u := t[7..];
      var w := LeadingRun(u, IsSpace);
      var d := LeadingRun(u[w..], IsDigit);
      assert forall k :: 7 <= k < 7 + w ==> t[k] == u[k - 7];
      assert forall k :: 7 + w <= k < 7 + w + d ==> t[k] == u[w..][k - 7 - w];
      assert TagParts(t, w, d);
    }
  }

  /**
    The pattern's parts spelled out: digits, a dot and a maximal run of
    whitespace are taken, followed by the tag when the tag is there.
  */
  predicate NumberedOpening(s: string, d: nat, w: nat) {
    && 0 < d && d + 1 + w <= |s|
    && (forall k :: 0 <= k < d ==> IsDigit(s[k])) && s[d] == '.'
    && (forall k :: d + 1 <= k < d + 1 + w ==> IsSpace(s[k]))
    && (d + 1 + w == |s| || !IsSpace(s[d + 1 + w]))
  }

  lemma PrefixMatchParts(s: string, d: nat, w: nat)
    requires NumberedOpening(s, d, w)
    ensures PrefixMatch(s) == d + 1 + w + AnomalyTag(s[d + 1 + w..])
  {
    LeadingRunExact(s, IsDigit, d);
    SpaceRun(s, d + 1, w);
    PrefixMatchRuns(s, d, w);
  }

  /** A match is always such an opening, followed by the tag or by nothing. */
  lemma PrefixMatchSound(s: string)
    ensures PrefixMatch(s) > 0 ==>
      exists d: nat, w: nat :: NumberedOpening(s, d, w) && PrefixMatch(s) == d + 1 + w + AnomalyTag(s[d + 1 + w..])
  {
    if PrefixMatch(s) > 0 {
      var d := LeadingRun(s, IsDigit);
      var w := LeadingRun(s[d + 1..], IsSpace);
      RunsOpening(s, d, w);
      PrefixMatchRuns(s, d, w);
    }
  }

  /** The digit run ending at a '.' and the whitespace run after it make an opening. */
  lemma RunsOpening(s: string, d: nat, w: nat)
    requires 0 < d < |s| && s[d] == '.'
    requires d == LeadingRun(s, IsDigit)
    requires w == LeadingRun(s[d + 1..], IsSpace)
    ensures NumberedOpening(s, d, w)
  {
    var u := s[d + 1..];
    assert forall k :: d + 1 <= k < d + 1 + w ==> s[k] == u[k - d - 1];
    assert d + 1 + w < |s| ==> s[d + 1 + w] == u[w];
  }

  /** The match once the digit run, ending at a '.', and the whitespace run after it are known. */
  lemma PrefixMatchRuns(s: string, d: nat, w: nat)
    requires 0 < d < |s| && s[d] == '.'
    requires d == LeadingRun(s, IsDigit)
    requires w == LeadingRun(s[d + 1..], IsSpace)
    ensures PrefixMatch(s) == d + 1 + w + AnomalyTag(s[d + 1 + w..])
  {
    var u := s[d + 1..];
    PrefixMatchDot(s, d);
    AfterDotRun(u, w);
    assert u[w..] == s[d + 1 + w..];
  }

  /** Past digits and a dot, the match goes on with what follows the dot. */
  lemma PrefixMatchDot(s: string, d: nat)
    requires 0 < d < |s| && s[d] == '.'
    requires d == LeadingRun(s, IsDigit)
    ensures PrefixMatch(s) == d + 1 + AfterDot(s[d + 1..])
  {
  }

  /** After the dot, the whitespace run is taken and the tag is matched from its end. */
  lemma AfterDotRun(u: string, w: nat)
    requires w == LeadingRun(u, IsSpace)
    ensures AfterDot(u) == w + AnomalyTag(u[w..])
  {
  }

  /** The whitespace run from `from` on. */
  lemma SpaceRun(s: string, from: nat, w: nat)
    requires from + w <= |s|
    requires forall k :: from <= k < from + w ==> IsSpace(s[k])
    requires from + w == |s| || !IsSpace(s[from + w])
    ensures LeadingRun(s[from..], IsSpace) == w
  {
    var u := s[from..];
    assert forall k :: 0 <= k < w ==> u[k] == s[from + k];
    assert w < |u| ==> u[w] == s[from + w];
    LeadingRunExact(u, IsSpace, w);
  }

  /**
    "1. Anomaly 3: x" matches "1. Anomaly 3:": the space after the dot and
    the tag are taken, the space after the tag's ':' is not, so the rename
    leaves two spaces before the "x".
  */
  lemma PrefixMatchExample(s: string)
    requires s == "1. Anomaly 3: x"
    ensures PrefixMatch(s) == 13
  {
    var t := s[3..];
    assert t == "Anomaly 3: x";
    assert TagParts(t, 1, 1);
    AnomalyTagMatches(t, 1, 1);
    assert IsDigit(s[0]) && s[1] == '.' && IsSpace(s[2]) && !IsSpace(s[3]);
    PrefixMatchParts(s, 1, 1);
  }

  /** What the rename keeps of that step: the space after the ':' and the "x". */
  lemma PrefixMatchExampleRest(s: string)
    requires s == "1. Anomaly 3: x"
    ensures s[PrefixMatch(s)..] == " x"
  {
    PrefixMatchExample(s);
    DropLiteral(s, PrefixMatch(s));
  }

  /** The step's text from its 14th character on. */
  lemma DropLiteral(s: string, m: nat)
    requires s == "1. Anomaly 3: x" && m == 13
    ensures s[m..] == " x"
  {
  }

  /** The pattern matches exactly the strings that open with digits and a dot. */
  lemma PrefixMatchIff(s: string)
    ensures PrefixMatch(s) > 0 <==> NumberDot(s)
    ensures PrefixMatch(s) > 0 ==> PrefixMatch(s) > LeadingRun(s, IsDigit) >= 1
  {
    var d := LeadingRun(s, IsDigit);
    if NumberDot(s) {
      var e :| 0 < e < |s| && s[e] == '.' && forall k :: 0 <= k < e ==> IsDigit(s[k]);
      assert d == e;
    }
  }

  /** `re.sub(PATTERN, name + ": ", s)`: the pattern is anchored, so it is replaced at most once. */
  function RewritePrefix(s: string, name: string): string {
    var m := PrefixMatch(s);
    if m == 0 then s else name + ": " + s[m..]
  }

  /** The renaming of one step. */
  function RenameStep(step: string): string {
    var clean := Strip(step);
    RewritePrefix(clean, Classify(Lower(clean)).Name())
  }

  /**
    A step that does not open with digits and a dot comes back stripped and
    otherwise unchanged; one that does has its matched prefix, and nothing
    else, replaced by its label and ": ".
  */
  lemma RenameStepCases(step: string)
    ensures var clean := Strip(step);
      !NumberDot(clean) ==> RenameStep(step) == clean
    ensures var clean := Strip(step);
      NumberDot(clean) ==>
        && 0 < PrefixMatch(clean) <= |clean|
        && RenameStep(step) == Classify(Lower(clean)).Name() + ": " + clean[PrefixMatch(clean)..]
  {
    PrefixMatchIff(Strip(step));
  }

  /** `[f(x) for x in s]`. */
  function MapSeq<A, B>(f: A -> B, s: seq<A>): (r: seq<B>)
    ensures |r| == |s| && forall k :: 0 <= k < |s| ==> r[k] == f(s[k])
  {
    seq(|s|, k requires 0 <= k < |s| => f(s[k]))
  }

  /** Mapping one more element appends its image. */
  lemma MapSeqSnoc<A, B>(f: A -> B, s: seq<A>, i: nat)
    requires i < |s|
    ensures MapSeq(f, s[..i + 1]) == MapSeq(f, s[..i]) + [f(s[i])]
  {
  }

  /** The renamed plan, as a value. */
  function Renamed(steps: seq<string>): seq<string> {
    MapSeq(RenameStep, steps)
  }

  /** The loop of `rename_plan_steps`: one renamed step per input step, in order. */
  method RenamePlanSteps(steps: seq<string>) returns (renamed: seq<string>)
    ensures renamed == Renamed(steps)
    ensures |renamed| == |steps|
    ensures forall i :: 0 <= i < |steps| ==> renamed[i] == RenameStep(steps[i])
  {
    renamed := [];
    for i := 0 to |steps|
      invariant renamed == MapSeq(RenameStep, steps[..i])
    {
      var stepClean := Strip(steps[i]);
      var lowerStep := Lower(stepClean);
      var newLabel := Classify(lowerStep);
      var newStep := RewritePrefix(stepClean, newLabel.Name());
      MapSeqSnoc(RenameStep, steps, i);
      renamed := renamed + [newStep];
    }
    assert steps[..|steps|] == steps;
  }
}
