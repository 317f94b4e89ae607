/** The feedback generator: one suggestion per failed check, in check order
    (`getSuggestions`), and the strength-dependent explanation (`getExplanation`). */
module Feedback {
  import opened CharClasses
  import opened Decimal
  import opened PasswordChecks
  import opened Scoring

  datatype Option<T> = None | Some(value: T)

  /** The suggestion texts, in the order of `CheckIds`. */
  const SuggestionTexts: seq<string> :=
    [ "Add more characters to reach at least 8",
      "Try to use 12 or more characters for maximum security",
      "Add an uppercase letter (A-Z)",
      "Add a lowercase letter (a-z)",
      "Include at least one number (0-9)",
      "Add a special character like !@#$%^&*",
      "Avoid common words and patterns" ]

  /** The `switch (check.id)` of `getSuggestions`: the suggestion for a known
      id, nothing for any other id. */
  function SuggestionFor(id: string): (r: Option<string>)
    ensures r.Some? <==> id in CheckIds
    ensures forall k :: 0 <= k < |CheckIds| && id == CheckIds[k] ==> r == Some(SuggestionTexts[k])
  {
    CheckIdsDistinct();
    if id == CheckIds[0] then Some(SuggestionTexts[0])
    else if id == CheckIds[1] then Some(SuggestionTexts[1])
    else if id == CheckIds[2] then Some(SuggestionTexts[2])
    else if id == CheckIds[3] then Some(SuggestionTexts[3])
    else if id == CheckIds[4] then Some(SuggestionTexts[4])
    else if id == CheckIds[5] then Some(SuggestionTexts[5])
    else if id == CheckIds[6] then Some(SuggestionTexts[6])
    else None
  }

  /** The suggestion texts are pairwise distinct. */
  lemma SuggestionTextsDistinct()
    ensures forall j, k :: 0 <= j < k < |SuggestionTexts| ==> SuggestionTexts[j] != SuggestionTexts[k]
  {
  }

  /** `checks.filter(check => !check.passed)`: the failed checks, as many as
      the checks that did not pass. */
  function FailedChecks(checks: seq<Check>): (r: seq<Check>)
    ensures |r| + PassedCount(checks) == |checks|
    ensures forall j :: 0 <= j < |r| ==> !r[j].passed
  {
    if checks == [] then []
    else
      var last := checks[|checks| - 1];
      FailedChecks(checks[..|checks| - 1]) + (if last.passed then [] else [last])
  }

  /** The positions of the failed checks, in increasing order. */
  function FailedPositions(checks: seq<Check>): (r: seq<nat>)
    ensures forall j :: 0 <= j < |r| ==> r[j] < |checks|
    ensures forall j, k :: 0 <= j < k < |r| ==> r[j] < r[k]
  {
    if checks == [] then []
    else
      FailedPositions(checks[..|checks| - 1])
      + (if checks[|checks| - 1].passed then [] else [|checks| - 1])
  }

  /** `FailedChecks` is exactly the subsequence of `checks` at the positions
      where a check failed, taken in evaluator order. */
  lemma {:induction false} FailedChecksIsFailedSubsequence(checks: seq<Check>)
    ensures var r := FailedPositions(checks);
            |r| == |FailedChecks(checks)| &&
            (forall j :: 0 <= j < |r| ==> checks[r[j]] == FailedChecks(checks)[j]) &&
            (forall i :: 0 <= i < |checks| ==> (!checks[i].passed <==> i in r))
  {
    FailedPositionsPickFailed(checks);
    FailedPositionsCoverFailed(checks);
  }

  /** The checks at the failed positions are the failed checks, in order. */
  lemma {:induction false} FailedPositionsPickFailed(checks: seq<Check>)
    ensures var r := FailedPositions(checks);
            |r| == |FailedChecks(checks)| &&
            forall j :: 0 <= j < |r| ==> checks[r[j]] == FailedChecks(checks)[j]
  {
    if checks != [] {
      var init := checks[..|checks| - 1];
      var last := checks[|checks| - 1];
      FailedPositionsPickFailed(init);
      var before := FailedPositions(init);
      var r := FailedPositions(checks);
      var f := FailedChecks(checks);
      assert f == FailedChecks(init) + (if last.passed then [] else [last]);
      assert r == before + (if last.passed then [] else [|checks| - 1]);
      forall j | 0 <= j < |r|
        ensures checks[r[j]] == f[j]
      {
        if j < |before| {
          assert r[j] == before[j] && init[before[j]] == checks[before[j]];
        }
      }
    }
  }

  /** A position is among the failed positions exactly when its check failed. */
  lemma {:induction false} FailedPositionsCoverFailed(checks: seq<Check>)
    ensures var r := FailedPositions(checks);
            forall i :: 0 <= i < |checks| ==> (!checks[i].passed <==> i in r)
  {
    if checks != [] {
      var init := checks[..|checks| - 1];
      var last := checks[|checks| - 1];
      FailedPositionsCoverFailed(init);
      var before := FailedPositions(init);
      var r := FailedPositions(checks);
      var tail: seq<nat> := if last.passed then [] else [|checks| - 1];
      assert r == before + tail;
      forall i | 0 <= i < |checks|
        ensures !checks[i].passed <==> i in r
      {
        assert i in r <==> i in before || i in tail;
        if i < |init| {
          assert init[i] == checks[i];
          assert !init[i].passed <==> i in before;
          assert i !in tail;
        } else {
          assert i !in before;
        }
      }
    }
  }

  /** The suggestions for a list of failed checks, in the same order; a check
      whose id has no suggestion contributes nothing. */
  function SuggestionsOf(failed: seq<Check>): (r: seq<string>)
    ensures |r| <= |failed|
  {
    if failed == [] then []
    else SuggestionsOf(failed[..|failed| - 1]) + SuggestionOf(failed[|failed| - 1])
  }

  /** When every failed check has a known id, there is exactly one suggestion
      per failed check, and the `j`-th is the one for the `j`-th id. */
  lemma {:induction false} SuggestionsOfKnownChecks(failed: seq<Check>)
    requires forall j :: 0 <= j < |failed| ==> failed[j].id in CheckIds
    ensures |SuggestionsOf(failed)| == |failed|
    ensures forall j :: 0 <= j < |failed| ==> Some(SuggestionsOf(failed)[j]) == SuggestionFor(failed[j].id)
  {
    if failed != [] {
      var init := failed[..|failed| - 1];
      var last := failed[|failed| - 1];
      SuggestionsOfKnownChecks(init);
      var before, more := SuggestionsOf(init), SuggestionOf(last);
      var r := SuggestionsOf(failed);
      assert r == before + more;
      assert |more| == 1 && Some(more[0]) == SuggestionFor(last.id);
      forall j | 0 <= j < |failed|
        ensures Some(r[j]) == SuggestionFor(failed[j].id)
      {
        if j < |init| {
          assert r[j] == before[j] && init[j] == failed[j];
        } else {
          assert r[j] == more[0];
        }
      }
    }
  }

  /** The suggestion for one failed check, as a list of zero or one texts. */
  function SuggestionOf(check: Check): (r: seq<string>)
    ensures |r| <= 1
    ensures check.id in CheckIds ==> |r| == 1 && Some(r[0]) == SuggestionFor(check.id)
  {
    match SuggestionFor(check.id)
    case Some(s) => [s]
    case None => []
  }

  /** Taking one more failed check adds its suggestion, if any, at the end. */
  lemma SuggestionsOfPrefix(failed: seq<Check>, i: nat)
    requires i < |failed|
    ensures SuggestionsOf(failed[..i + 1]) == SuggestionsOf(failed[..i]) + SuggestionOf(failed[i])
  {
    assert failed[..i + 1][..i] == failed[..i];
  }

  /** `getSuggestions`: walks the failed checks in order and appends the
      suggestion for each. */
  method GetSuggestions(checks: seq<Check>) returns (suggestions: seq<string>)
    ensures suggestions == SuggestionsOf(FailedChecks(checks))
  {
    suggestions := [];
    var failedChecks := FailedChecks(checks);
    for i := 0 to |failedChecks|
      invariant suggestions == SuggestionsOf(failedChecks[..i])
    {
      SuggestionsOfPrefix(failedChecks, i);
      match SuggestionFor(failedChecks[i].id)
      case Some(s) =>
        suggestions := suggestions + [s];
      case None =>
    }
    assert failedChecks[..|failedChecks|] == failedChecks;
  }

  /** For a list of checks with the seven ids in table order: one suggestion
      per failed check, so as many as the checks that did not pass, none
      exactly when every check passed, and the suggestion of check `k` present
      exactly when check `k` failed. */
  lemma SuggestionsMatchFailedChecks(checks: seq<Check>)
    requires |checks| == |CheckIds|
    requires forall k :: 0 <= k < |checks| ==> checks[k].id == CheckIds[k]
    ensures var suggestions := SuggestionsOf(FailedChecks(checks));
            |suggestions| == |checks| - PassedCount(checks) &&
            (suggestions == [] <==> PassedCount(checks) == |checks|) &&
            forall k :: 0 <= k < |checks| ==> (SuggestionTexts[k] in suggestions <==> !checks[k].passed)
  {
    var positions := FailedPositions(checks);
    FailedChecksIsFailedSubsequence(checks);
    SuggestionsAtFailedPositions(checks, positions);
    SuggestionPresentIffFailed(checks, positions);
  }

  /** The `j`-th suggestion is the text of the check at the `j`-th failed position. */
  lemma SuggestionsAtFailedPositions(checks: seq<Check>, positions: seq<nat>)
    requires |checks| == |CheckIds|
    requires forall k :: 0 <= k < |checks| ==> checks[k].id == CheckIds[k]
    requires |positions| == |FailedChecks(checks)|
    requires forall j :: 0 <= j < |positions| ==> positions[j] < |checks| && checks[positions[j]] == FailedChecks(checks)[j]
    ensures var suggestions := SuggestionsOf(FailedChecks(checks));
            |suggestions| == |positions| &&
            forall j :: 0 <= j < |positions| ==> suggestions[j] == SuggestionTexts[positions[j]]
  {
    var failed := FailedChecks(checks);
    forall j | 0 <= j < |failed|
      ensures failed[j].id == CheckIds[positions[j]]
    {
      assert failed[j] == checks[positions[j]];
    }
    SuggestionsOfKnownIds(failed, positions);
  }

  /** For failed checks whose ids are known, the `j`-th suggestion is the text
      for the `j`-th id. */
  lemma SuggestionsOfKnownIds(failed: seq<Check>, index: seq<nat>)
    requires |index| == |failed|
    requires forall j :: 0 <= j < |failed| ==> index[j] < |CheckIds| && failed[j].id == CheckIds[index[j]]
    ensures |SuggestionsOf(failed)| == |failed|
    ensures forall j :: 0 <= j < |failed| ==> SuggestionsOf(failed)[j] == SuggestionTexts[index[j]]
  {
    forall j | 0 <= j < |failed|
      ensures failed[j].id in CheckIds
    {
      assert failed[j].id == CheckIds[index[j]];
    }
    SuggestionsOfKnownChecks(failed);
  }

  /** The suggestion of check `k` is present exactly when check `k` failed. */
  lemma SuggestionPresentIffFailed(checks: seq<Check>, positions: seq<nat>)
    requires |checks| == |CheckIds|
    requires forall i :: 0 <= i < |checks| ==> (!checks[i].passed <==> i in positions)
    requires forall j :: 0 <= j < |positions| ==> positions[j] < |checks|
    requires var suggestions := SuggestionsOf(FailedChecks(checks));
             |suggestions| == |positions| &&
             forall j :: 0 <= j < |positions| ==> suggestions[j] == SuggestionTexts[positions[j]]
    ensures var suggestions := SuggestionsOf(FailedChecks(checks));
            forall k :: 0 <= k < |checks| ==> (SuggestionTexts[k] in suggestions <==> !checks[k].passed)
  {
    var suggestions := SuggestionsOf(FailedChecks(checks));
    forall k | 0 <= k < |checks|
      ensures SuggestionTexts[k] in suggestions <==> !checks[k].passed
    {
      TextAtPositionIffListed(suggestions, positions, k);
    }
  }

  /** When the `j`-th text is the one for position `positions[j]`, the text
      for `k` is present exactly when `k` is listed. */
  lemma TextAtPositionIffListed(suggestions: seq<string>, positions: seq<nat>, k: nat)
    requires k < |SuggestionTexts|
    requires forall j :: 0 <= j < |positions| ==> positions[j] < |SuggestionTexts|
    requires |suggestions| == |positions|
    requires forall j :: 0 <= j < |positions| ==> suggestions[j] == SuggestionTexts[positions[j]]
    ensures SuggestionTexts[k] in suggestions <==> k in positions
  {
    if k in positions {
      var j :| 0 <= j < |positions| && positions[j] == k;
      assert suggestions[j] == SuggestionTexts[k];
    }
    if SuggestionTexts[k] in suggestions {
      var j :| 0 <= j < |suggestions| && suggestions[j] == SuggestionTexts[k];
      SuggestionTextsDistinct();
      assert SuggestionTexts[positions[j]] == SuggestionTexts[k];
    }
  }

  /** The same for the checks of any password: seven minus the pass count
      suggestions, in check order. */
  lemma SuggestionsForPassword(password: string)
    ensures var checks := GetPasswordChecks(password);
            var suggestions := SuggestionsOf(FailedChecks(checks));
            |suggestions| == 7 - PassedCount(checks) &&
            (suggestions == [] <==> PassedCount(checks) == 7) &&
            forall k :: 0 <= k < 7 ==> (SuggestionTexts[k] in suggestions <==> !checks[k].passed)
  {
    SuggestionsMatchFailedChecks(GetPasswordChecks(password));
  }

  /** The opening words of each explanation template, up to the pass count. */
  function Opening(strength: Strength): string {
    match strength
    case Weak => "Your password meets only "
    case Medium => "Your password meets "
    case Strong => "Excellent! Your password meets "
  }

  /** The rest of each explanation template, after the total count: the
      same three words, then the tier's own advice. */
  function Closing(strength: Strength): (c: string)
    ensures |c| > 0 && c[0] == ' '
  {
    " security checks. " + Advice(strength)
  }

  function Advice(strength: Strength): string {
    match strength
    case Weak => WeakAdvice
    case Medium => MediumAdvice
    case Strong => StrongAdvice
  }

  const WeakAdvice := "Weak passwords can be cracked in minutes or seconds by automated tools. Hackers use \"dictionary attacks\" that try millions of common passwords and patterns."
  const MediumAdvice := "It's better than average, but could still be vulnerable to determined attackers. Adding more variety will make it much stronger."
  const StrongAdvice := "It uses a good mix of characters and length, making it very difficult for attackers to guess or crack using automated tools."

  /** `getExplanation`: the template of the given tier with the pass count and
      the total count filled in; the tier can be read back from the text. */
  function GetExplanation(strength: Strength, checks: seq<Check>): (r: string)
    ensures |r| > 20 && TierOf(r) == strength
  {
    var passedCount := PassedCount(checks);
    var totalCount := |checks|;
    FillTemplate(strength, passedCount, totalCount)
  }

  /** One of the three template literals, with both counts interpolated; its
      opening words identify the tier. */
  function FillTemplate(strength: Strength, passedCount: nat, totalCount: nat): (r: string)
    ensures |r| > 20 && TierOf(r) == strength
  {
    var counts := NatToString(passedCount) + (" of " + (NatToString(totalCount) + Closing(strength)));
    assert counts[0] == NatToString(passedCount)[0];
    TierOfOpening(strength, counts);
    Opening(strength) + counts
  }

  /** The explanation determines its tier, its pass count and its total count:
      two filled-in templates are equal only when all three agree. */
  lemma ExplanationInjective(s1: Strength, n1: nat, t1: nat, s2: Strength, n2: nat, t2: nat)
    requires FillTemplate(s1, n1, t1) == FillTemplate(s2, n2, t2)
    ensures s1 == s2 && n1 == n2 && t1 == t2
  {
    var p1, q1, p2, q2 := NatToString(n1), NatToString(t1), NatToString(n2), NatToString(t2);
    OpeningDeterminesStrength(s1, p1 + (" of " + (q1 + Closing(s1))), s2, p2 + (" of " + (q2 + Closing(s2))));
    CountsAfterOpening(Opening(s1), p1, q1, p2, q2, Closing(s1));
    NatToStringInjective(n1, n2);
    NatToStringInjective(t1, t2);
  }

  /** Behind a common opening, "<p> of <t><closing>" determines both digit strings. */
  lemma CountsAfterOpening(opening: string, p1: string, t1: string, p2: string, t2: string, closing: string)
    requires AllDigits(p1) && AllDigits(t1) && AllDigits(p2) && AllDigits(t2)
    requires |closing| > 0 && closing[0] == ' '
    requires opening + (p1 + (" of " + (t1 + closing))) == opening + (p2 + (" of " + (t2 + closing)))
    ensures p1 == p2 && t1 == t2
  {
    var rest1 := p1 + (" of " + (t1 + closing));
    var rest2 := p2 + (" of " + (t2 + closing));
    var e := opening + rest1;
    assert rest1 == e[|opening|..] == rest2;
    CountsDeterminedByText(p1, t1, p2, t2, closing);
  }

  /** In "<p> of <t><closing>", with `p` and `t` digit strings and the closing
      words starting with a space, both numbers can be read back. */
  lemma CountsDeterminedByText(p1: string, t1: string, p2: string, t2: string, closing: string)
    requires AllDigits(p1) && AllDigits(t1) && AllDigits(p2) && AllDigits(t2)
    requires |closing| > 0 && closing[0] == ' '
    requires p1 + (" of " + (t1 + closing)) == p2 + (" of " + (t2 + closing))
    ensures p1 == p2 && t1 == t2
  {
    DigitsThenNonDigit(p1, " of " + (t1 + closing), p2, " of " + (t2 + closing));
    var tail1, tail2 := t1 + closing, t2 + closing;
    assert tail1 == (" of " + tail1)[4..] == (" of " + tail2)[4..] == tail2;
    DigitsThenNonDigit(t1, closing, t2, closing);
  }

  /** Reads the tier back from the first characters of an explanation: the
      strong template alone opens with `E`, and at position 20 the weak
      template still has its opening words while the medium one has reached
      the pass count. Only its use in contracts matters; it is a ghost
      function chosen to keep those proofs short. */
  ghost function TierOf(e: string): Strength
    requires |e| > 20
  {
    if e[0] == 'E' then Strong
    else if e[20] == 'o' then Weak
    else Medium
  }

  /** An explanation's opening words, followed by a digit, identify the tier. */
  lemma OpeningDeterminesStrength(s1: Strength, rest1: string, s2: Strength, rest2: string)
    requires |rest1| > 0 && IsDigit(rest1[0]) && |rest2| > 0 && IsDigit(rest2[0])
    requires Opening(s1) + rest1 == Opening(s2) + rest2
    ensures s1 == s2
  {
    TierOfOpening(s1, rest1);
    TierOfOpening(s2, rest2);
  }

  lemma TierOfOpening(s: Strength, rest: string)
    requires |rest| > 0 && IsDigit(rest[0])
    ensures |Opening(s) + rest| > 20 && TierOf(Opening(s) + rest) == s
  {
    var e := Opening(s) + rest;
    assert e[0] == Opening(s)[0];
    match s
    case Weak =>
      assert e[20] == Opening(s)[20];
    case Medium =>
      assert e[20] == rest[0];
    case Strong =>
  }
}
