/** `analyzePassword`: runs the checks, scores them, and assembles the report
    from the scorer, the crack-time estimator and the feedback generator. */
module Analyzer {
  import opened PasswordChecks
  import opened Scoring
  import opened Feedback
  import CrackTime

  /** The report returned for one password. */
  datatype PasswordAnalysis = PasswordAnalysis(
    strength: Strength,
    score: int,
    checks: seq<Check>,
    crackTime: string,
    suggestions: seq<string>,
    explanation: string)

  /** The report `analyzePassword` builds, as a function of the password: its
      checks are the check table of the password, and its crack time reads
      "Instantly" exactly for the empty password. */
  function AnalysisOf(password: string): (r: PasswordAnalysis)
    ensures r.checks == GetPasswordChecks(password)
    ensures r.crackTime == "Instantly" <==> password == []
  {
    ReportOf(GetPasswordChecks(password), CrackTime.Render(CrackTime.CrackTimeOf(password)))
  }

  /** The report around a check list and a crack-time text: score, tier,
      suggestions and explanation depend on the checks alone. */
  function ReportOf(checks: seq<Check>, crackTime: string): (r: PasswordAnalysis)
    requires |checks| > 0
    ensures r.checks == checks && r.crackTime == crackTime
    ensures 0 <= r.score <= 100
    ensures r.strength == StrengthLevel(r.score)
    ensures |r.suggestions| <= |checks| - PassedCount(checks)
  {
    var score := Score(PassedCount(checks), |checks|);
    var strength := StrengthLevel(score);
    PasswordAnalysis(
      strength,
      score,
      checks,
      crackTime,
      SuggestionsOf(FailedChecks(checks)),
      GetExplanation(strength, checks))
  }

  /** `analyzePassword`: every password, the empty one included, gets a full
      report with the seven checks in table order, a score between 0 and 100
      that is 100 exactly when every check passed (and exactly when there is
      nothing to suggest), and the tier of that score. */
  method AnalyzePassword(password: string) returns (analysis: PasswordAnalysis)
    ensures analysis == AnalysisOf(password)
    ensures |analysis.checks| == 7
    ensures forall k :: 0 <= k < 7 ==> analysis.checks[k].id == CheckIds[k]
    ensures 0 <= analysis.score <= 100
    ensures analysis.score == 100 <==> forall k :: 0 <= k < 7 ==> analysis.checks[k].passed
    ensures analysis.suggestions == [] <==> analysis.score == 100
    ensures analysis.strength == StrengthLevel(analysis.score)
  {
    var checks := GetPasswordChecks(password);
    var passedChecks := PassedCount(checks);
    var score := Score(passedChecks, |checks|);
    var strength := StrengthLevel(score);
    var suggestions := GetSuggestions(checks);
    var crackTime := CrackTime.EstimateCrackTime(password);
    var explanation := GetExplanation(strength, checks);
    analysis := PasswordAnalysis(strength, score, checks, CrackTime.Render(crackTime), suggestions, explanation);
    SuggestionsForPassword(password);
  }

  /** With seven checks the score is `round(passed * 100 / 7)`: the integer
      nearest to the percentage of checks passed, halves rounded up. */
  lemma ReportScore(checks: seq<Check>, crackTime: string)
    requires |checks| == 7
    ensures var score := ReportOf(checks, crackTime).score;
            14 * score <= 200 * PassedCount(checks) + 7 < 14 * score + 14
  {
    ReportFieldsAreScoreAndTier(checks, crackTime);
    ScoreIsRoundedPercentage(PassedCount(checks), 7);
  }

  /** With seven checks the tier is weak for at most three passed checks,
      medium for four or five and strong for six or seven. */
  lemma ReportTier(checks: seq<Check>, crackTime: string)
    requires |checks| == 7
    ensures ReportOf(checks, crackTime).strength == Weak <==> PassedCount(checks) <= 3
    ensures ReportOf(checks, crackTime).strength == Medium <==> 4 <= PassedCount(checks) <= 5
    ensures ReportOf(checks, crackTime).strength == Strong <==> 6 <= PassedCount(checks)
  {
    ReportFieldsAreScoreAndTier(checks, crackTime);
    TierOfCheckList(checks);
  }

  /** The tier bands of `StrengthOfSeven`, restated on the length of a check
      list; a proof step kept separate so that each proof stays small. */
  lemma TierOfCheckList(checks: seq<Check>)
    requires |checks| == 7
    ensures StrengthLevel(Score(PassedCount(checks), |checks|)) == Weak <==> PassedCount(checks) <= 3
    ensures StrengthLevel(Score(PassedCount(checks), |checks|)) == Medium <==> 4 <= PassedCount(checks) <= 5
    ensures StrengthLevel(Score(PassedCount(checks), |checks|)) == Strong <==> 6 <= PassedCount(checks)
  {
    StrengthOfSeven(PassedCount(checks));
  }

  /** The score and tier fields of a report, unfolded once; a proof step kept
      separate so that the lemmas using it stay small. */
  lemma ReportFieldsAreScoreAndTier(checks: seq<Check>, crackTime: string)
    requires |checks| == 7
    ensures ReportOf(checks, crackTime).score == Score(PassedCount(checks), |checks|)
    ensures ReportOf(checks, crackTime).strength == StrengthLevel(Score(PassedCount(checks), |checks|))
  {
  }

  /** With the seven checks of the table there is one suggestion per failed
      check, none exactly when the score is 100, and the explanation is the
      tier's template with the pass count and 7 filled in. */
  lemma ReportFeedback(checks: seq<Check>, crackTime: string)
    requires |checks| == |CheckIds|
    requires forall k :: 0 <= k < |checks| ==> checks[k].id == CheckIds[k]
    ensures |ReportOf(checks, crackTime).suggestions| == 7 - PassedCount(checks)
    ensures ReportOf(checks, crackTime).suggestions == [] <==> ReportOf(checks, crackTime).score == 100
    ensures ReportOf(checks, crackTime).explanation ==
            FillTemplate(ReportOf(checks, crackTime).strength, PassedCount(checks), 7)
  {
    SuggestionsMatchFailedChecks(checks);
  }

  /** "password" has eight characters, all lower-case letters, and contains a
      blacklisted token: it passes only `length` and `lowercase`, scores 29,
      is weak, and gets five suggestions in check order. The string is a
      parameter fixed by the precondition, which keeps the verifier from
      unfolding the whole analysis on a literal. */
  lemma PasswordExample(password: string)
    requires password == "password"
    ensures var a := AnalysisOf(password);
            PassedCount(a.checks) == 2 &&
            a.score == 29 &&
            a.strength == Weak &&
            a.suggestions == [SuggestionTexts[1], SuggestionTexts[2], SuggestionTexts[4],
                              SuggestionTexts[5], SuggestionTexts[6]]
  {
    var checks := GetPasswordChecks(password);
    var crackTime := CrackTime.Render(CrackTime.CrackTimeOf(password));
    PasswordOutcomes(password);
    SuggestionsOfLengthAndLowerOnly(checks, crackTime);
    ScoreOfLengthAndLowerOnly(checks, crackTime);
  }

  /** A table in which only `length` and `lowercase` pass scores 29 and is weak. */
  lemma ScoreOfLengthAndLowerOnly(checks: seq<Check>, crackTime: string)
    requires |checks| == 7
    requires PassedCount(checks) == 2
    ensures ReportOf(checks, crackTime).score == 29
    ensures ReportOf(checks, crackTime).strength == Weak
  {
    ReportFieldsAreScoreAndTier(checks, crackTime);
    ScoreOfSeven(2);
  }

  /** A table in which only `length` and `lowercase` pass gets the suggestions
      for the other five checks, in table order. */
  lemma SuggestionsOfLengthAndLowerOnly(checks: seq<Check>, crackTime: string)
    requires |checks| == 7
    requires forall k :: 0 <= k < 7 ==> checks[k].id == CheckIds[k]
    requires checks[0].passed && !checks[1].passed && !checks[2].passed && checks[3].passed
    requires !checks[4].passed && !checks[5].passed && !checks[6].passed
    ensures PassedCount(checks) == 2
    ensures ReportOf(checks, crackTime).suggestions ==
            [SuggestionTexts[1], SuggestionTexts[2], SuggestionTexts[4], SuggestionTexts[5], SuggestionTexts[6]]
  {
    FailedOfLengthAndLowerOnly(checks);
    SuggestionsOfFive([checks[1], checks[2], checks[4], checks[5], checks[6]]);
  }

  lemma SuggestionsOfFive(failed: seq<Check>)
    requires |failed| == 5
    requires failed[0].id == CheckIds[1] && failed[1].id == CheckIds[2] && failed[2].id == CheckIds[4]
    requires failed[3].id == CheckIds[5] && failed[4].id == CheckIds[6]
    ensures SuggestionsOf(failed) ==
            [SuggestionTexts[1], SuggestionTexts[2], SuggestionTexts[4], SuggestionTexts[5], SuggestionTexts[6]]
  {
    assert forall j :: 0 <= j < |failed| ==> failed[j].id in CheckIds;
    SuggestionsOfKnownChecks(failed);
    SameFive(SuggestionsOf(failed), SuggestionTexts[1], SuggestionTexts[2], SuggestionTexts[4],
             SuggestionTexts[5], SuggestionTexts[6]);
  }

  lemma SameFive(r: seq<string>, s0: string, s1: string, s2: string, s3: string, s4: string)
    requires |r| == 5 && r[0] == s0 && r[1] == s1 && r[2] == s2 && r[3] == s3 && r[4] == s4
    ensures r == [s0, s1, s2, s3, s4]
  {
  }

  /** A table in which only `length` and `lowercase` pass has two passed
      checks and fails the other five, in table order. */
  lemma FailedOfLengthAndLowerOnly(checks: seq<Check>)
    requires |checks| == 7
    requires checks[0].passed && !checks[1].passed && !checks[2].passed && checks[3].passed
    requires !checks[4].passed && !checks[5].passed && !checks[6].passed
    ensures PassedCount(checks) == 2
    ensures FailedChecks(checks) == [checks[1], checks[2], checks[4], checks[5], checks[6]]
  {
    assert checks[..1][..0] == [];
    assert FailedChecks(checks[..1]) == [];
    assert checks[..2][..1] == checks[..1];
    assert FailedChecks(checks[..2]) == [checks[1]];
    assert checks[..3][..2] == checks[..2];
    assert FailedChecks(checks[..3]) == [checks[1], checks[2]];
    assert checks[..4][..3] == checks[..3];
    assert FailedChecks(checks[..4]) == [checks[1], checks[2]];
    assert checks[..5][..4] == checks[..4];
    assert FailedChecks(checks[..5]) == [checks[1], checks[2], checks[4]];
    assert checks[..6][..5] == checks[..5];
    assert FailedChecks(checks[..6]) == [checks[1], checks[2], checks[4], checks[5]];
    assert checks[..6] == checks[..|checks| - 1];
  }
}
