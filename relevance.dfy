/** The relevance checker of chatapi.py: does the lowered question contain
    one of a fixed list of domain keywords? */
module Relevance {
  import opened PyStr

  /** `RELEVANT_KEYWORDS`, in the source's order. */
  const RelevantKeywords: seq<string> :=
    ["electricity", "power", "forecast", "demand", "load",
     "AI", "weather", "solar", "PowerCast", "renewable", "energy", "hi", "hello",
     "historical", "data", "analytics", "grid", "planning", "India"]

  /** The keywords that have no upper-case letter, in the same order. */
  const LowercaseKeywords: seq<string> :=
    ["electricity", "power", "forecast", "demand", "load",
     "weather", "solar", "renewable", "energy", "hi", "hello",
     "historical", "data", "analytics", "grid", "planning"]

  /** `any(kw in text for kw in kws)`, scanning the keywords in order. */
  function AnyIn(text: string, kws: seq<string>): bool {
    |kws| > 0 && (Contains(text, kws[0]) || AnyIn(text, kws[1..]))
  }

  /** The scan succeeds exactly when some keyword of the list occurs in the text. */
  lemma {:induction false} AnyInSpec(text: string, kws: seq<string>)
    ensures AnyIn(text, kws) <==> exists i :: 0 <= i < |kws| && Contains(text, kws[i])
  {
    if |kws| > 0 {
      AnyInSpec(text, kws[1..]);
      if exists i :: 0 <= i < |kws| && Contains(text, kws[i]) {
        var i :| 0 <= i < |kws| && Contains(text, kws[i]);
        if i > 0 {
          assert kws[1..][i - 1] == kws[i];
        }
      }
    }
  }

  /** `is_relevant(question)`. */
  function IsRelevant(question: string): bool {
    AnyIn(Lower(question), RelevantKeywords)
  }

  /** `is_relevant(q)` holds exactly when some keyword is a substring of `q.lower()`. */
  lemma IsRelevantSpec(q: string)
    ensures IsRelevant(q) <==>
      exists i :: 0 <= i < |RelevantKeywords| && IsSubstring(RelevantKeywords[i], Lower(q))
  {
    AnyInSpec(Lower(q), RelevantKeywords);
    forall i | 0 <= i < |RelevantKeywords| {
      ContainsIsSubstring(Lower(q), RelevantKeywords[i]);
    }
  }

  /** A listed keyword with an upper-case letter never matches a lowered question. */
  lemma UpperKeywordNeverMatches(q: string, i: nat)
    requires i < |RelevantKeywords| && !NoUpper(RelevantKeywords[i])
    ensures !Contains(Lower(q), RelevantKeywords[i])
  {
    var j :| 0 <= j < |RelevantKeywords[i]| && IsUpper(RelevantKeywords[i][j]);
    UpperNeverInLower(q, RelevantKeywords[i], j);
  }

  /** `LowercaseKeywords` holds exactly the listed keywords without an
      upper-case letter, and "AI", "PowerCast" and "India" are the others. */
  lemma LowercaseKeywordsCharacterised()
    ensures forall k :: k in LowercaseKeywords <==> k in RelevantKeywords && NoUpper(k)
    ensures forall i :: 0 <= i < |RelevantKeywords| ==>
      (NoUpper(RelevantKeywords[i]) <==> i != 5 && i != 8 && i != 18)
    ensures RelevantKeywords[5] == "AI" && RelevantKeywords[8] == "PowerCast"
    ensures RelevantKeywords[18] == "India"
  {
    assert IsUpper(RelevantKeywords[5][0]) && IsUpper(RelevantKeywords[8][0]);
    assert IsUpper(RelevantKeywords[18][0]);
    assert forall i :: 0 <= i < |LowercaseKeywords| ==> NoUpper(LowercaseKeywords[i]);
    assert forall i :: 0 <= i < |LowercaseKeywords| ==> LowercaseKeywords[i] in RelevantKeywords;
    assert forall i :: 0 <= i < |RelevantKeywords| && i != 5 && i != 8 && i != 18 ==>
      RelevantKeywords[i] in LowercaseKeywords;
  }

  /** Where each all-lowercase keyword sits in `RELEVANT_KEYWORDS`. */
  function ListedAt(j: nat): nat {
    if j < 5 then j else if j < 7 then j + 1 else j + 2
  }

  /** Where each other listed keyword sits in `LowercaseKeywords`. */
  function LowercaseAt(i: nat): nat {
    if i < 5 then i else if i < 8 then i - 1 else i - 2
  }

  /** `LowercaseKeywords` is `RELEVANT_KEYWORDS` with positions 5, 8 and 18 removed. */
  lemma KeywordPositions()
    ensures forall j :: 0 <= j < |LowercaseKeywords| ==>
      ListedAt(j) < |RelevantKeywords| && LowercaseKeywords[j] == RelevantKeywords[ListedAt(j)]
    ensures forall i :: 0 <= i < |RelevantKeywords| && i != 5 && i != 8 && i != 18 ==>
      LowercaseAt(i) < |LowercaseKeywords| && ListedAt(LowercaseAt(i)) == i
  {
  }

  /** The upper-case keywords are dead: `is_relevant` gives the same verdict
      with only the all-lowercase keywords. */
  lemma IsRelevantLowercaseKeywords(q: string)
    ensures IsRelevant(q) == AnyIn(Lower(q), LowercaseKeywords)
    ensures !Contains(Lower(q), "AI") && !Contains(Lower(q), "PowerCast")
    ensures !Contains(Lower(q), "India")
  {
    var t := Lower(q);
    assert IsUpper(RelevantKeywords[5][0]) && IsUpper(RelevantKeywords[8][0]);
    assert IsUpper(RelevantKeywords[18][0]);
    UpperKeywordNeverMatches(q, 5);
    UpperKeywordNeverMatches(q, 8);
    UpperKeywordNeverMatches(q, 18);
    KeywordPositions();
    AnyInSpec(t, RelevantKeywords);
    AnyInSpec(t, LowercaseKeywords);
    if IsRelevant(q) {
      var i :| 0 <= i < |RelevantKeywords| && Contains(t, RelevantKeywords[i]);
      assert Contains(t, LowercaseKeywords[LowercaseAt(i)]);
    }
    if AnyIn(t, LowercaseKeywords) {
      var j :| 0 <= j < |LowercaseKeywords| && Contains(t, LowercaseKeywords[j]);
      assert Contains(t, RelevantKeywords[ListedAt(j)]);
    }
  }

  /** Case does not matter to `is_relevant`. */
  lemma IsRelevantCaseInsensitive(q: string)
    ensures IsRelevant(q) == IsRelevant(Lower(q))
  {
    LowerIdempotent(q);
  }

  /** Every keyword has at least two letters, so no shorter question is relevant. */
  lemma ShortQuestionNotRelevant(q: string)
    requires |q| < 2
    ensures !IsRelevant(q)
  {
    IsRelevantSpec(q);
    assert forall i :: 0 <= i < |RelevantKeywords| ==> |RelevantKeywords[i]| >= 2;
  }

  /** In particular the empty question is never relevant. */
  lemma EmptyNotRelevant()
    ensures !IsRelevant("")
  {
    ShortQuestionNotRelevant("");
  }

  /** With the upper-case keywords dead, "hi" is the only keyword of two
      letters, so a two-letter question is relevant only if it is "hi" in some case. */
  lemma TwoLetterQuestion(q: string)
    requires |q| == 2
    ensures IsRelevant(q) <==> Lower(q) == "hi"
  {
    var t := Lower(q);
    IsRelevantLowercaseKeywords(q);
    AnyInSpec(t, LowercaseKeywords);
    forall i | 0 <= i < |LowercaseKeywords| && i != 9 ensures !Contains(t, LowercaseKeywords[i]) {
      assert |LowercaseKeywords[i]| > 2;
    }
    assert LowercaseKeywords[9] == "hi";
    assert t[..2] == t;
    assert Contains(t, "hi") <==> t == "hi";
  }

  /** Anything containing "hi" is relevant, whatever else it says. */
  lemma ContainsHiIsRelevant(q: string)
    requires Contains(Lower(q), "hi")
    ensures IsRelevant(q)
  {
    AnyInSpec(Lower(q), RelevantKeywords);
    assert RelevantKeywords[11] == "hi";
  }

  /** "hi" matches inside ordinary words: an off-topic question about a movie
      passes because of "this". */
  lemma HiInsideWord()
    ensures IsRelevant("Tell me about this movie")
  {
    var q := "Tell me about this movie";
    assert Lower(q)[15] == 'h' && Lower(q)[16] == 'i';
    ContainsAt(Lower(q), "hi", 15);
    ContainsHiIsRelevant(q);
  }

  /** As written, the question "AI", which is itself a listed keyword, is not relevant. */
  lemma KeywordAINotRelevant()
    ensures RelevantKeywords[5] == "AI" && Contains("AI", RelevantKeywords[5])
    ensures !IsRelevant("AI")
  {
    assert "AI"[..2] == "AI";
    assert Lower("AI")[0] == 'a';
    TwoLetterQuestion("AI");
  }

  /** The first letters of the keywords that can match. */
  const KeywordInitials: set<char> := {'a', 'd', 'e', 'f', 'g', 'h', 'l', 'p', 'r', 's', 'w'}

  /** A question none of whose lowered letters starts a keyword is not relevant. */
  lemma NoKeywordInitialNotRelevant(q: string)
    requires forall j :: 0 <= j < |q| ==> LowerChar(q[j]) !in KeywordInitials
    ensures !IsRelevant(q)
  {
    var t := Lower(q);
    IsRelevantLowercaseKeywords(q);
    AnyInSpec(t, LowercaseKeywords);
    assert forall i :: 0 <= i < |LowercaseKeywords| ==>
      |LowercaseKeywords[i]| > 0 && LowercaseKeywords[i][0] in KeywordInitials;
    forall i | 0 <= i < |LowercaseKeywords| ensures !Contains(t, LowercaseKeywords[i]) {
      var k := LowercaseKeywords[i];
      forall p | 0 <= p && p + |k| <= |t| ensures !OccursAt(k, t, p) {
        assert t[p..p + |k|][0] == t[p];
      }
      ContainsIsSubstring(t, k);
    }
  }

  /** An off-topic question that the checker rejects. */
  lemma QuizQuestionNotRelevant()
    ensures !IsRelevant("Quiz on TV?")
  {
    forall q | q == "Quiz on TV?" ensures !IsRelevant(q) {
      NoKeywordInitialNotRelevant(q);
    }
  }

  // ---------------------------------------------------------------------
  // The evidently intended checker: keywords are lowered as well.

  function LowerAll(kws: seq<string>): seq<string> {
    seq(|kws|, i requires 0 <= i < |kws| => Lower(kws[i]))
  }

  /** Relevance with both the question and the keywords lowered. */
  function IsRelevantFolded(question: string): bool {
    AnyIn(Lower(question), LowerAll(RelevantKeywords))
  }

  /** The corrected checker holds exactly when some keyword occurs in the
      question with case ignored on both sides. */
  lemma FoldedSpec(q: string)
    ensures IsRelevantFolded(q) <==>
      exists i :: 0 <= i < |RelevantKeywords| && Contains(Lower(q), Lower(RelevantKeywords[i]))
  {
    var folded := LowerAll(RelevantKeywords);
    assert |folded| == |RelevantKeywords|;
    assert forall i :: 0 <= i < |folded| ==> folded[i] == Lower(RelevantKeywords[i]);
    AnyInSpec(Lower(q), folded);
  }

  /** A question that contains a listed keyword verbatim is relevant to the
      corrected checker, whatever the case of that keyword. */
  lemma FoldedFindsEveryKeyword(q: string, i: nat)
    requires i < |RelevantKeywords| && Contains(q, RelevantKeywords[i])
    ensures IsRelevantFolded(q)
  {
    ContainsLower(q, RelevantKeywords[i]);
    FoldedSpec(q);
  }

  /** The corrected checker still accepts every question the original accepts. */
  lemma FoldedExtendsIsRelevant(q: string)
    requires IsRelevant(q)
    ensures IsRelevantFolded(q)
  {
    AnyInSpec(Lower(q), RelevantKeywords);
    var i :| 0 <= i < |RelevantKeywords| && Contains(Lower(q), RelevantKeywords[i]);
    if !NoUpper(RelevantKeywords[i]) {
      UpperKeywordNeverMatches(q, i);
    }
    LowerNoUpper(RelevantKeywords[i]);
    FoldedSpec(q);
  }

  /** Unlike the original, the corrected checker accepts "AI". */
  lemma FoldedAcceptsAI()
    ensures IsRelevantFolded("AI")
  {
    assert "AI"[..2] == "AI";
    FoldedFindsEveryKeyword("AI", 5);
  }
}
