/**
  The result key of a step (inside `run_step`): the lower-cased renamed step
  up to its first colon, each run of non-word characters replaced by "_",
  "_" stripped from both ends, and `step_{idx}` when nothing is left.
*/
module Keys {
  import opened Text
  import opened Renamer

  /** `re.sub(r"[^\w]+", "_", t)`. */
  function ReplaceNonWordRuns(t: string): (r: string)
    ensures forall k :: 0 <= k < |r| ==> IsWordChar(r[k])
    decreases |t|
  {
    if t == [] then []
    else if IsWordChar(t[0]) then [t[0]] + ReplaceNonWordRuns(t[1..])
    else "_" + ReplaceNonWordRuns(t[LeadingRun(t, c => !IsWordChar(c))..])
  }

  /** The replacement keeps every letter and digit, in order. */
  lemma {:induction false} ReplaceKeepsAlnums(t: string)
    ensures Alnums(ReplaceNonWordRuns(t)) == Alnums(t)
    decreases |t|
  {
    if t != [] {
      if IsWordChar(t[0]) {
        ReplaceKeepsAlnums(t[1..]);
        AlnumsConcat([t[0]], ReplaceNonWordRuns(t[1..]));
        assert [t[0]][1..] == [];
      } else {
        var n := LeadingRun(t, c => !IsWordChar(c));
        ReplaceKeepsAlnums(t[n..]);
        AlnumsConcat("_", ReplaceNonWordRuns(t[n..]));
        assert "_"[1..] == [];
        assert t == t[..n] + t[n..];
        AlnumsConcat(t[..n], t[n..]);
        AlnumsEmpty(t[..n]);
      }
    }
  }

  /** Word characters at the front pass through the replacement untouched. */
  lemma {:induction false} ReplaceWordPrefix(w: string, rest: string)
    requires forall k :: 0 <= k < |w| ==> IsWordChar(w[k])
    ensures ReplaceNonWordRuns(w + rest) == w + ReplaceNonWordRuns(rest)
    decreases |w|
  {
    if w != [] {
      var t := w + rest;
      assert t[0] == w[0] && t[1..] == w[1..] + rest;
      ReplaceWordPrefix(w[1..], rest);
      assert ReplaceNonWordRuns(t) == [w[0]] + (w[1..] + ReplaceNonWordRuns(rest));
      assert [w[0]] + w[1..] == w;
    } else {
      assert w + rest == rest;
    }
  }

  /**
    A whole run of non-word characters, however long, becomes one "_": the
    run ends at a word character or at the end of the text.
  */
  lemma ReplaceRun(sep: string, rest: string)
    requires sep != [] && forall k :: 0 <= k < |sep| ==> !IsWordChar(sep[k])
    requires rest == [] || IsWordChar(rest[0])
    ensures ReplaceNonWordRuns(sep + rest) == "_" + ReplaceNonWordRuns(rest)
  {
    var t := sep + rest;
    assert forall k :: 0 <= k < |sep| ==> t[k] == sep[k];
    assert |sep| < |t| ==> t[|sep|] == rest[0];
    LeadingRunExact(t, c => !IsWordChar(c), |sep|);
    assert t[|sep|..] == rest;
  }

  /** The slug: `re.sub(r"[^\w]+", "_", t).strip("_")`. */
  function Slug(t: string): string {
    StripBy(ReplaceNonWordRuns(t), IsUnderscore)
  }

  /** A key the executor can produce: non-empty, word characters only, no "_" at either end. */
  predicate WellFormedKey(key: string) {
    && key != []
    && (forall k :: 0 <= k < |key| ==> IsWordChar(key[k]))
    && key[0] != '_' && key[|key| - 1] != '_'
  }

  /**
    The slug spells the letters and digits of `t`, in order, and is a
    well-formed key unless `t` has none, in which case it is empty.
  */
  lemma SlugProperties(t: string)
    ensures Alnums(Slug(t)) == Alnums(t)
    ensures Slug(t) == [] <==> Alnums(t) == []
    ensures Slug(t) != [] ==> WellFormedKey(Slug(t))
  {
    var r := ReplaceNonWordRuns(t);
    ReplaceKeepsAlnums(t);
    StripByKeepsAlnums(r, IsUnderscore);
    var s := Slug(t);
    if s != [] {
      assert |s| <= |r|;
      var span := StripSpan(r, IsUnderscore);
      assert s == r[span.0..span.1];
      assert forall k :: 0 <= k < |s| ==> IsWordChar(s[k]);
      assert IsAlnum(s[0]);
      assert Alnums(s) != [] by { AlnumsEmpty(s); }
    }
  }

  /** A leading run of letters and digits survives the slug. */
  lemma SlugKeepsAlnumPrefix(w: string, rest: string)
    requires w != [] && forall k :: 0 <= k < |w| ==> IsAlnum(w[k])
    ensures StartsWith(Slug(w + rest), w)
  {
    ReplaceWordPrefix(w, rest);
    var r := ReplaceNonWordRuns(w + rest);
    assert StartsWith(r, w);
    StripByKeepsPrefix(r, w, IsUnderscore);
  }

  /** The key of the step at 1-based position `idx`. */
  function StepKey(idx: nat, renamed: string): (key: string)
    ensures WellFormedKey(key)
  {
    var head := BeforeColon(Lower(renamed));
    var slug := Slug(head);
    SlugProperties(head);
    if slug != [] then slug else FallbackKey(idx)
  }

  /** `f"step_{idx}"`. */
  function FallbackKey(idx: nat): (key: string)
    ensures WellFormedKey(key)
  {
    var digits := DecimalString(idx);
    var key := "step_" + digits;
    assert forall k :: 5 <= k < |key| ==> key[k] == digits[k - 5];
    key
  }

  /** Distinct positions give distinct fallback keys. */
  lemma FallbackKeyInjective(i: nat, j: nat)
    requires FallbackKey(i) == FallbackKey(j)
    ensures i == j
  {
    var a, b := DecimalString(i), DecimalString(j);
    assert a == FallbackKey(i)[5..] && b == FallbackKey(j)[5..];
    DecimalStringInjective(i, j);
  }

  /**
    The position is used only as a fallback: the key is `step_{idx}` exactly
    when the text before the first colon holds no letter or digit, and
    otherwise it spells that text's letters and digits.
  */
  lemma StepKeyFallback(idx: nat, renamed: string)
    ensures var head := BeforeColon(Lower(renamed));
      Alnums(head) == [] ==> StepKey(idx, renamed) == FallbackKey(idx)
    ensures var head := BeforeColon(Lower(renamed));
      Alnums(head) != [] ==> Alnums(StepKey(idx, renamed)) == Alnums(head)
  {
    SlugProperties(BeforeColon(Lower(renamed)));
  }

  /** The key every renamed step of a label gets. */
  function LabelKey(l: Label): string {
    match l
    case ConfidenceScoring => "confidence_scoring"
    case AnomalyClassification => "anomaly_classification"
    case Justification => "justification"
    case FollowUpRecommendation => "follow_up_recommendation"
    case AdditionalAnalysis => "additional_analysis"
  }

  /** The slug of two lower-case words joined by one separator. */
  lemma SlugTwoWords(a: string, sep: char, b: string)
    requires a != [] && b != []
    requires forall k :: 0 <= k < |a| ==> 'a' <= a[k] <= 'z' || IsDigit(a[k])
    requires forall k :: 0 <= k < |b| ==> 'a' <= b[k] <= 'z' || IsDigit(b[k])
    requires !IsWordChar(sep)
    ensures Slug(a + [sep] + b) == a + "_" + b
  {
    assert forall k :: 0 <= k < |a| ==> IsWordChar(a[k]);
    assert forall k :: 0 <= k < |b| ==> IsWordChar(b[k]);
    ReplaceTwoWords(a, sep, b);
    var r := a + "_" + b;
    assert r[0] == a[0] && r[|r| - 1] == b[|b| - 1];
    StripByNothing(r, IsUnderscore);
  }

  /** Two words joined by one separator are joined by "_" after the replacement. */
  lemma ReplaceTwoWords(a: string, sep: char, b: string)
    requires b != []
    requires forall k :: 0 <= k < |a| ==> IsWordChar(a[k])
    requires forall k :: 0 <= k < |b| ==> IsWordChar(b[k])
    requires !IsWordChar(sep)
    ensures ReplaceNonWordRuns(a + [sep] + b) == a + "_" + b
  {
    var x := [sep] + b;
    ReplaceSeparatorWord(sep, b);
    ReplaceWordPrefix(a, x);
    assert a + [sep] + b == a + x;
    assert a + ("_" + b) == a + "_" + b;
  }

  /** One separator before a word becomes "_" before the same word. */
  lemma ReplaceSeparatorWord(sep: char, b: string)
    requires b != []
    requires forall k :: 0 <= k < |b| ==> IsWordChar(b[k])
    requires !IsWordChar(sep)
    ensures ReplaceNonWordRuns([sep] + b) == "_" + b
  {
    ReplaceRun([sep], b);
    ReplaceAllWord(b);
  }

  /** A text of word characters only is left as it is. */
  lemma ReplaceAllWord(b: string)
    requires forall k :: 0 <= k < |b| ==> IsWordChar(b[k])
    ensures ReplaceNonWordRuns(b) == b
  {
    ReplaceWordPrefix(b, []);
    assert b + [] == b;
  }

  /** Lower-case letters and digits only. */
  predicate LowerWord(w: string) {
    w != [] && forall k :: 0 <= k < |w| ==> 'a' <= w[k] <= 'z' || IsDigit(w[k])
  }

  /** A name that lower-cases to two words has the two words, joined by "_", as its key. */
  lemma KeyOfTwoWords(name: string, a: string, sep: char, b: string, key: string)
    requires LowerWord(a) && LowerWord(b) && !IsWordChar(sep) && sep != ':'
    requires Lower(name) == a + [sep] + b
    requires key == a + "_" + b
    ensures forall k :: 0 <= k < |Lower(name)| ==> Lower(name)[k] != ':'
    ensures Slug(Lower(name)) == key
  {
    SlugTwoWords(a, sep, b);
  }

  /** Each separator character replaced by "_". */
  function Underscored(s: string): (r: string)
    ensures |r| == |s|
  {
    seq(|s|, k requires 0 <= k < |s| => if IsWordChar(s[k]) then s[k] else '_')
  }

  /** No two separators in a row. */
  predicate SingleSeparators(s: string) {
    forall k :: 0 <= k < |s| - 1 ==> IsWordChar(s[k]) || IsWordChar(s[k + 1])
  }

  /** Where separators come one at a time, the replacement maps them one by one to "_". */
  lemma {:induction false} ReplaceSingleSeparators(s: string)
    requires SingleSeparators(s)
    ensures ReplaceNonWordRuns(s) == Underscored(s)
    decreases |s|
  {
    if s != [] {
      var tail := s[1..];
      assert SingleSeparators(tail) by {
        forall k | 0 <= k < |tail| - 1 ensures IsWordChar(tail[k]) || IsWordChar(tail[k + 1]) {
          assert tail[k] == s[k + 1] && tail[k + 1] == s[k + 2];
        }
      }
      ReplaceSingleSeparators(tail);
      if !IsWordChar(s[0]) {
        assert LeadingRun(s, c => !IsWordChar(c)) == 1 by {
          if |s| > 1 { assert IsWordChar(s[1]); }
        }
      }
      assert Underscored(s) == [Underscored(s)[0]] + Underscored(tail);
    }
  }

  /**
    A lower-cased name, without a colon, that opens and ends with a letter or
    digit and has single separators: its slug is `key`.
  */
  predicate NameShape(lowered: string) {
    && lowered != [] && IsAlnum(lowered[0]) && IsAlnum(lowered[|lowered| - 1])
    && SingleSeparators(lowered)
    && (forall k :: 0 <= k < |lowered| ==> lowered[k] != ':')
  }

  lemma KeyOfName(name: string, lowered: string, key: string)
    requires Lower(name) == lowered && NameShape(lowered) && Underscored(lowered) == key
    ensures forall k :: 0 <= k < |Lower(name)| ==> Lower(name)[k] != ':'
    ensures Slug(Lower(name)) == key
  {
    ReplaceSingleSeparators(lowered);
    StripByNothing(Underscored(lowered), IsUnderscore);
  }

  /*
    Proof steps for LabelNameKey, not properties of the program in their own
    right. Each label name's key is shown from three facts about constant
    strings, one lemma each: the name lower-cased, the shape of that
    spelling, and its separators replaced by "_". Kept as separate lemmas,
    each fact is a small proof about literals; taken together in one proof
    they are too costly. The property they serve is LabelNameKey's.
  */

  /** The ConfidenceScoring label name, lower-cased. */
  lemma ConfidenceScoringLower(name: string, lowered: string)
    requires name == "Confidence Scoring" && lowered == "confidence scoring"
    ensures Lower(name) == lowered
  {
  }

  /** Its lower-cased spelling has one separator between words and no colon. */
  lemma ConfidenceScoringShape(lowered: string)
    requires lowered == "confidence scoring"
    ensures NameShape(lowered)
  {
  }

  /** With separators replaced it is the label key. */
  lemma ConfidenceScoringUnderscored(lowered: string, key: string)
    requires lowered == "confidence scoring" && key == "confidence_scoring"
    ensures Underscored(lowered) == key
  {
  }

  /** The ConfidenceScoring label's slug, from the three facts above. */
  lemma ConfidenceScoringKey(l: Label)
    requires l == ConfidenceScoring
    ensures forall k :: 0 <= k < |Lower(l.Name())| ==> Lower(l.Name())[k] != ':'
    ensures Slug(Lower(l.Name())) == LabelKey(l)
  {
    var lowered := "confidence scoring";
    ConfidenceScoringLower(l.Name(), lowered);
    ConfidenceScoringShape(lowered);
    ConfidenceScoringUnderscored(lowered, LabelKey(l));
    KeyOfName(l.Name(), lowered, LabelKey(l));
  }

  /** The AnomalyClassification label name, lower-cased. */
  lemma AnomalyClassificationLower(name: string, lowered: string)
    requires name == "Anomaly Classification" && lowered == "anomaly classification"
    ensures Lower(name) == lowered
  {
  }

  /** Its lower-cased spelling has one separator between words and no colon. */
  lemma AnomalyClassificationShape(lowered: string)
    requires lowered == "anomaly classification"
    ensures NameShape(lowered)
  {
  }

  /** With separators replaced it is the label key. */
  lemma AnomalyClassificationUnderscored(lowered: string, key: string)
    requires lowered == "anomaly classification" && key == "anomaly_classification"
    ensures Underscored(lowered) == key
  {
  }

  /** The AnomalyClassification label's slug, from the three facts above. */
  lemma AnomalyClassificationKey(l: Label)
    requires l == AnomalyClassification
    ensures forall k :: 0 <= k < |Lower(l.Name())| ==> Lower(l.Name())[k] != ':'
    ensures Slug(Lower(l.Name())) == LabelKey(l)
  {
    var lowered := "anomaly classification";
    AnomalyClassificationLower(l.Name(), lowered);
    AnomalyClassificationShape(lowered);
    AnomalyClassificationUnderscored(lowered, LabelKey(l));
    KeyOfName(l.Name(), lowered, LabelKey(l));
  }

  /** The Justification label name, lower-cased. */
  lemma JustificationLower(name: string, lowered: string)
    requires name == "Justification" && lowered == "justification"
    ensures Lower(name) == lowered
  {
  }

  /** Its lower-cased spelling has one separator between words and no colon. */
  lemma JustificationShape(lowered: string)
    requires lowered == "justification"
    ensures NameShape(lowered)
  {
  }

  /** With separators replaced it is the label key. */
  lemma JustificationUnderscored(lowered: string, key: string)
    requires lowered == "justification" && key == "justification"
    ensures Underscored(lowered) == key
  {
  }

  /** The Justification label's slug, from the three facts above. */
  lemma JustificationKey(l: Label)
    requires l == Justification
    ensures forall k :: 0 <= k < |Lower(l.Name())| ==> Lower(l.Name())[k] != ':'
    ensures Slug(Lower(l.Name())) == LabelKey(l)
  {
    var lowered := "justification";
    JustificationLower(l.Name(), lowered);
    JustificationShape(lowered);
    JustificationUnderscored(lowered, LabelKey(l));
    KeyOfName(l.Name(), lowered, LabelKey(l));
  }

  /** The FollowUpRecommendation label name, lower-cased. */
  lemma FollowUpRecommendationLower(name: string, lowered: string)
    requires name == "Follow-up Recommendation" && lowered == "follow-up recommendation"
    ensures Lower(name) == lowered
  {
  }

  /** Its lower-cased spelling has one separator between words and no colon. */
  lemma FollowUpRecommendationShape(lowered: string)
    requires lowered == "follow-up recommendation"
    ensures NameShape(lowered)
  {
  }

  /** With separators replaced it is the label key. */
  lemma FollowUpRecommendationUnderscored(lowered: string, key: string)
    requires lowered == "follow-up recommendation" && key == "follow_up_recommendation"
    ensures Underscored(lowered) == key
  {
  }

  /** The FollowUpRecommendation label's slug, from the three facts above. */
  lemma FollowUpRecommendationKey(l: Label)
    requires l == FollowUpRecommendation
    ensures forall k :: 0 <= k < |Lower(l.Name())| ==> Lower(l.Name())[k] != ':'
    ensures Slug(Lower(l.Name())) == LabelKey(l)
  {
    var lowered := "follow-up recommendation";
    FollowUpRecommendationLower(l.Name(), lowered);
    FollowUpRecommendationShape(lowered);
    FollowUpRecommendationUnderscored(lowered, LabelKey(l));
    KeyOfName(l.Name(), lowered, LabelKey(l));
  }

  /** The AdditionalAnalysis label name, lower-cased. */
  lemma AdditionalAnalysisLower(name: string, lowered: string)
    requires name == "Additional Analysis" && lowered == "additional analysis"
    ensures Lower(name) == lowered
  {
  }

  /** Its lower-cased spelling has one separator between words and no colon. */
  lemma AdditionalAnalysisShape(lowered: string)
    requires lowered == "additional analysis"
    ensures NameShape(lowered)
  {
  }

  /** With separators replaced it is the label key. */
  lemma AdditionalAnalysisUnderscored(lowered: string, key: string)
    requires lowered == "additional analysis" && key == "additional_analysis"
    ensures Underscored(lowered) == key
  {
  }

  /** The AdditionalAnalysis label's slug, from the three facts above. */
  lemma AdditionalAnalysisKey(l: Label)
    requires l == AdditionalAnalysis
    ensures forall k :: 0 <= k < |Lower(l.Name())| ==> Lower(l.Name())[k] != ':'
    ensures Slug(Lower(l.Name())) == LabelKey(l)
  {
    var lowered := "additional analysis";
    AdditionalAnalysisLower(l.Name(), lowered);
    AdditionalAnalysisShape(lowered);
    AdditionalAnalysisUnderscored(lowered, LabelKey(l));
    KeyOfName(l.Name(), lowered, LabelKey(l));
  }

  /** The label names, lower-cased, hold no colon, and slugged they give the label keys. */
  lemma LabelNameKey(l: Label)
    ensures forall k :: 0 <= k < |Lower(l.Name())| ==> Lower(l.Name())[k] != ':'
    ensures Slug(Lower(l.Name())) == LabelKey(l)
  {
    if l == ConfidenceScoring { ConfidenceScoringKey(l); }
    else if l == AnomalyClassification { AnomalyClassificationKey(l); }
    else if l == Justification { JustificationKey(l); }
    else if l == FollowUpRecommendation { FollowUpRecommendationKey(l); }
    else { AdditionalAnalysisKey(l); }
  }

  /** What `split(":")[0]` keeps of a lower-cased "<name>: <rest>". */
  lemma HeadOfLabelled(name: string, rest: string)
    requires forall k :: 0 <= k < |Lower(name)| ==> Lower(name)[k] != ':'
    ensures BeforeColon(Lower(name + ": " + rest)) == Lower(name)
  {
    assert name + ": " + rest == name + ":" + (" " + rest);
    LowerConcat(name + ":", " " + rest);
    LowerConcat(name, ":");
    assert Lower(":") == ":";
    BeforeColonAtColon(Lower(name), Lower(" " + rest));
  }

  /**
    A step whose stripped text opens with digits and a dot is renamed to its
    label, and its key is that label's key, whatever its position.
  */
  lemma NumberedStepKey(idx: nat, step: string)
    requires NumberDot(Strip(step))
    ensures StepKey(idx, RenameStep(step)) == LabelKey(Classify(Lower(Strip(step))))
  {
    var clean := Strip(step);
    RenameStepCases(step);
    LabelledKey(idx, Classify(Lower(clean)), clean[PrefixMatch(clean)..]);
  }

  /** The key of "<label>: <rest>". */
  lemma LabelledKey(idx: nat, l: Label, rest: string)
    ensures StepKey(idx, l.Name() + ": " + rest) == LabelKey(l)
  {
    LabelNameKey(l);
    KeyOfNamed(idx, l.Name(), rest, LabelKey(l));
  }

  /** A stripped step that opens with "step" in any case is not renamed: the pattern needs a leading digit. */
  lemma StepLineNotRenamed(step: string)
    requires StartsWith(Lower(Strip(step)), "step")
    ensures RenameStep(step) == Strip(step)
  {
    var clean := Strip(step);
    assert !IsDigit(clean[0]) by {
      assert Lower(clean)[0] == LowerChar(clean[0]);
    }
    RenameStepCases(step);
  }

  /** The key of a text whose lower-cased form opens with "step" starts with "step". */
  lemma StepHeadKey(idx: nat, s: string)
    requires StartsWith(Lower(s), "step")
    ensures StartsWith(StepKey(idx, s), "step")
  {
    var lowered := Lower(s);
    var w := lowered[..4];
    assert lowered == w + lowered[4..];
    BeforeColonOfPrefix(w, lowered[4..]);
    var head := BeforeColon(lowered);
    assert head == w + head[4..];
    SlugKeepsAlnumPrefix(w, head[4..]);
  }

  /**
    Lines that open with "Step" are not renamed, so their key starts with
    "step" too.
  */
  lemma StepLineKey(idx: nat, step: string)
    requires StartsWith(Lower(Strip(step)), "step")
    ensures StartsWith(StepKey(idx, RenameStep(step)), "step")
  {
    StepLineNotRenamed(step);
    StepHeadKey(idx, Strip(step));
  }

  /** The key of "<name>: <rest>" is the slug of `name` when `name` has no colon and a letter or digit. */
  lemma KeyOfNamed(idx: nat, name: string, rest: string, key: string)
    requires forall k :: 0 <= k < |Lower(name)| ==> Lower(name)[k] != ':'
    requires Slug(Lower(name)) == key && key != []
    ensures StepKey(idx, name + ": " + rest) == key
  {
    HeadOfLabelled(name, rest);
  }

  /** Lower-casing leaves ASCII digits alone. */
  lemma LowerDigits(digits: string)
    requires forall k :: 0 <= k < |digits| ==> IsDigit(digits[k])
    ensures Lower(digits) == digits
  {
  }

  /** "Step <n>" lower-cases to "step", a space and the digits. */
  lemma LowerStepNumber(digits: string)
    requires forall k :: 0 <= k < |digits| ==> IsDigit(digits[k])
    ensures Lower("Step " + digits) == "step" + [' '] + digits
  {
    var prefix := "Step ";
    assert Lower(prefix) == "step" + [' '] by {
      assert Lower(prefix)[0] == LowerChar('S');
    }
    LowerDigits(digits);
    LowerConcat(prefix, digits);
  }

  /** A text that lower-cases to "step..." keeps doing so with anything appended. */
  lemma StartsStepConcat(name: string, rest: string)
    requires StartsWith(Lower(name), "step")
    ensures StartsWith(Lower(name + rest), "step")
  {
    LowerConcat(name, rest);
  }

  /** The key of "Step <n>: <text>" at any position is `step_<n>`. */
  lemma StepNumberHeadKey(idx: nat, digits: string, rest: string)
    requires digits != [] && forall k :: 0 <= k < |digits| ==> IsDigit(digits[k])
    ensures StepKey(idx, "Step " + digits + ": " + rest) == "step_" + digits
  {
    var name := "Step " + digits;
    LowerStepNumber(digits);
    assert "step" + "_" + digits == "step_" + digits;
    KeyOfTwoWords(name, "step", ' ', digits, "step" + "_" + digits);
    KeyOfNamed(idx, name, rest, "step_" + digits);
  }

  /** "Step <n>: <text>" lower-cases to a text that starts with "step". */
  lemma StepNumberStartsStep(digits: string, rest: string)
    requires forall k :: 0 <= k < |digits| ==> IsDigit(digits[k])
    ensures StartsWith(Lower("Step " + digits + ": " + rest), "step")
  {
    var name := "Step " + digits;
    LowerStepNumber(digits);
    StartsStepConcat(name, ": " + rest);
    assert name + ": " + rest == name + (": " + rest);
  }

  /**
    A step the plan writes as "Step <n>: <text>" keeps its text, and its key is
    `step_<n>` at any position: before the colon there is nothing to rename.
  */
  lemma StepNumberKey(idx: nat, step: string, digits: string, rest: string)
    requires digits != [] && forall k :: 0 <= k < |digits| ==> IsDigit(digits[k])
    requires Strip(step) == "Step " + digits + ": " + rest
    ensures RenameStep(step) == Strip(step)
    ensures StepKey(idx, RenameStep(step)) == "step_" + digits
  {
    StepNumberStartsStep(digits, rest);
    StepLineNotRenamed(step);
    StepNumberHeadKey(idx, digits, rest);
  }
}
