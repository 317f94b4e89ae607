/** The scorer: pass count, percentage score and the three strength tiers. */
module Scoring {
  import opened PasswordChecks

  /** `'weak' | 'medium' | 'strong'` */
  datatype Strength = Weak | Medium | Strong

  /** Position of a tier in the order weak < medium < strong. */
  function Rank(s: Strength): nat {
    match s
    case Weak => 0
    case Medium => 1
    case Strong => 2
  }

  /** `checks.filter(c => c.passed).length`: how many checks passed; all of
      them exactly when every check passed, none exactly when every check failed. */
  function PassedCount(checks: seq<Check>): (n: nat)
    ensures n <= |checks|
    ensures n == |checks| <==> forall i :: 0 <= i < |checks| ==> checks[i].passed
    ensures n == 0 <==> forall i :: 0 <= i < |checks| ==> !checks[i].passed
  {
    if checks == [] then 0
    else
      var init := checks[..|checks| - 1];
      assert forall i :: 0 <= i < |init| ==> init[i] == checks[i];
      PassedCount(init) + (if checks[|checks| - 1].passed then 1 else 0)
  }

  /** `Math.round((passed / total) * 100)` with exact arithmetic: the
      percentage of checks passed, rounded to the nearest integer with halves
      rounded up. It is 100 when every check passed and, for fewer than 200
      checks, only then. */
  function Score(passed: nat, total: nat): (score: int)
    requires 0 < total && passed <= total
    ensures 0 <= score <= 100
    ensures passed == total ==> score == 100
    ensures total < 200 && passed < total ==> score < 100
  {
    var score := (200 * passed + total) / (2 * total);
    ScoreBounds(passed, total, score);
    score
  }

  /** The score is the nearest integer to `passed * 100 / total`, halves
      rounded up: `score - 1/2 <= passed * 100 / total < score + 1/2`. */
  lemma ScoreIsRoundedPercentage(passed: nat, total: nat)
    requires 0 < total && passed <= total
    ensures var score := Score(passed, total);
            2 * score * total <= 200 * passed + total < 2 * (score + 1) * total
  {
    ScoreBounds(passed, total, Score(passed, total));
  }

  lemma ScoreBounds(passed: nat, total: nat, score: int)
    requires 0 < total && passed <= total
    requires score == (200 * passed + total) / (2 * total)
    ensures 0 <= score <= 100
    ensures 2 * score * total <= 200 * passed + total < 2 * (score + 1) * total
    ensures passed == total ==> score == 100
    ensures total < 200 && passed < total ==> score < 100
  {
    var n, d := 200 * passed + total, 2 * total;
    DivBracket(n, d);
    assert 2 * score * total <= n < 2 * (score + 1) * total by {
      assert 2 * score * total == score * d;
      assert 2 * (score + 1) * total == (score + 1) * d;
    }
    assert 0 <= score <= 100 by {
      assert n < 101 * d;
      MulCancelLt(score, 101, d);
      MulCancelLt(0, score + 1, d);
    }
    if passed == total {
      assert 100 * d < n;
      MulCancelLt(100, score + 1, d);
    }
    if total < 200 && passed < total {
      assert n < 100 * d;
      MulCancelLt(score, 100, d);
    }
  }

  /** The quotient brackets the dividend between two consecutive multiples. */
  lemma DivBracket(n: int, d: int)
    requires d > 0
    ensures (n / d) * d <= n < (n / d + 1) * d
  {
    assert n == (n / d) * d + n % d;
  }

  /** Multiplying by a positive number preserves strict order, read backwards. */
  lemma MulCancelLt(a: int, b: int, d: int)
    requires d > 0 && a * d < b * d
    ensures a < b
  {
    if a >= b {
      MulMonotone(b, a, d);
    }
  }

  lemma MulMonotone(a: int, b: int, d: int)
    requires a <= b && d >= 0
    ensures a * d <= b * d
  {
    assert b * d - a * d == (b - a) * d;
  }

  /** Passing more checks never lowers the score. */
  lemma ScoreMonotone(p1: nat, p2: nat, total: nat)
    requires 0 < total && p1 <= p2 <= total
    ensures Score(p1, total) <= Score(p2, total)
  {
    var s1, s2, d := Score(p1, total), Score(p2, total), 2 * total;
    assert s1 * d <= 200 * p1 + total by {
      ScoreIsRoundedPercentage(p1, total);
      assert 2 * s1 * total == s1 * d;
    }
    assert 200 * p2 + total < (s2 + 1) * d by {
      ScoreIsRoundedPercentage(p2, total);
      assert 2 * (s2 + 1) * total == (s2 + 1) * d;
    }
    MulCancelLt(s1, s2 + 1, d);
  }

  /** With seven checks the score takes the values 0, 14, 29, 43, 57, 71, 86, 100. */
  lemma ScoreOfSeven(passed: nat)
    requires passed <= 7
    ensures passed == 0 ==> Score(passed, 7) == 0
    ensures passed == 1 ==> Score(passed, 7) == 14
    ensures passed == 2 ==> Score(passed, 7) == 29
    ensures passed == 3 ==> Score(passed, 7) == 43
    ensures passed == 4 ==> Score(passed, 7) == 57
    ensures passed == 5 ==> Score(passed, 7) == 71
    ensures passed == 6 ==> Score(passed, 7) == 86
    ensures passed == 7 ==> Score(passed, 7) == 100
  {
  }

  /** `getStrengthLevel`: weak below 50, medium from 50 up to but not
      including 75, strong from 75 on. */
  function StrengthLevel(score: int): (s: Strength)
    ensures s == Weak <==> score < 50
    ensures s == Medium <==> 50 <= score < 75
    ensures s == Strong <==> 75 <= score
  {
    if score < 50 then Weak
    else if score < 75 then Medium
    else Strong
  }

  /** With seven checks: weak for at most three passed checks, medium for
      four or five, strong for six or seven. */
  lemma StrengthOfSeven(passed: nat)
    requires passed <= 7
    ensures StrengthLevel(Score(passed, 7)) == Weak <==> passed <= 3
    ensures StrengthLevel(Score(passed, 7)) == Medium <==> 4 <= passed <= 5
    ensures StrengthLevel(Score(passed, 7)) == Strong <==> 6 <= passed
  {
    ScoreOfSeven(passed);
    if passed <= 3 {
      ScoreMonotone(passed, 3, 7);
    } else if passed <= 5 {
      ScoreMonotone(4, passed, 7);
      ScoreMonotone(passed, 5, 7);
    } else {
      ScoreMonotone(6, passed, 7);
    }
  }

  /** A higher score never gives a lower tier. */
  lemma StrengthMonotone(s1: int, s2: int)
    requires s1 <= s2
    ensures Rank(StrengthLevel(s1)) <= Rank(StrengthLevel(s2))
  {
  }
}
