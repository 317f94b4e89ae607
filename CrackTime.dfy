/** The crack-time estimator: character-set size, brute-force search space at
    ten billion guesses per second, and the human-readable duration buckets of
    `formatTime`. Arithmetic is exact (unbounded integers and reals). */
module CrackTime {
  import opened CharClasses
  import opened Decimal

  /** The assumed attack rate. */
  const GuessesPerSecond: nat := 10_000_000_000

  /** Unit lengths in seconds: 30-day months and 12-month years. */
  const SecondsPerMinute: nat := 60
  const SecondsPerHour: nat := 3600
  const SecondsPerDay: nat := 86400
  const SecondsPerMonth: nat := 2592000
  const SecondsPerYear: nat := 31104000

  /** The result of `estimateCrackTime`: a bucket, with its rounded count
      where the bucket has one. */
  datatype CrackTime =
    | Instantly
    | LessThanASecond
    | Seconds(n: nat)
    | Minutes(n: nat)
    | Hours(n: nat)
    | Days(n: nat)
    | Months(n: nat)
    | Years(n: nat)
    | ThousandYears(n: nat)
    | MillionYears(n: nat)
    | BillionYears(n: nat)
    | Centuries

  /** The position of a bucket on the time line. */
  function Rank(t: CrackTime): nat {
    match t
    case Instantly => 0
    case LessThanASecond => 1
    case Seconds(_) => 2
    case Minutes(_) => 3
    case Hours(_) => 4
    case Days(_) => 5
    case Months(_) => 6
    case Years(_) => 7
    case ThousandYears(_) => 8
    case MillionYears(_) => 9
    case BillionYears(_) => 10
    case Centuries => 11
  }

  /** `Math.pow` on non-negative integers, exactly. */
  function Pow(base: nat, exp: nat): (r: nat)
    ensures 1 <= base ==> 1 <= r
    ensures base == 0 && exp > 0 ==> r == 0
  {
    if exp == 0 then 1 else base * Pow(base, exp - 1)
  }

  /** A larger exponent never gives a smaller power of a positive base. */
  lemma {:induction false} PowMonotone(base: nat, e1: nat, e2: nat)
    requires 1 <= base && e1 <= e2
    ensures 1 <= Pow(base, e1) <= Pow(base, e2)
    decreases e2
  {
    if e1 < e2 {
      PowMonotone(base, e1, e2 - 1);
      PowStep(base, e2 - 1);
    } else if e1 > 0 {
      PowMonotone(base, e1 - 1, e1 - 1);
      PowStep(base, e1 - 1);
    }
  }

  lemma PowStep(base: nat, e: nat)
    requires 1 <= base && 1 <= Pow(base, e)
    ensures Pow(base, e) <= Pow(base, e + 1)
  {
    assert Pow(base, e + 1) == base * Pow(base, e);
  }

  /** `Math.round`: the nearest integer, halves rounded up. */
  function Round(x: real): (r: int)
    ensures r as real <= x + 0.5 < r as real + 1.0
  {
    (x + 0.5).Floor
  }

  /** Rounding never reverses the order of two numbers. */
  lemma RoundMonotone(x: real, y: real)
    requires x <= y
    ensures Round(x) <= Round(y)
  {
  }

  /** `formatTime`: the first bucket whose upper limit the duration is below,
      tested in the order second, minute, hour, day, month, year, thousand,
      million and billion years; the count is the duration in the bucket's
      unit, rounded only after the bucket has been chosen. */
  function FormatTime(seconds: real): (r: CrackTime)
    ensures r != Instantly
    ensures r == LessThanASecond <==> seconds < 1.0
    ensures r.Seconds? <==> 1.0 <= seconds < 60.0
    ensures r.Minutes? <==> 60.0 <= seconds < 3600.0
    ensures r.Hours? <==> 3600.0 <= seconds < 86400.0
    ensures r.Days? <==> 86400.0 <= seconds < 2592000.0
    ensures r.Months? <==> 2592000.0 <= seconds < 31104000.0
    ensures r.Years? <==> 31104000.0 <= seconds < 31104000000.0
    ensures r.ThousandYears? <==> 31104000000.0 <= seconds < 31104000000000.0
    ensures r.MillionYears? <==> 31104000000000.0 <= seconds < 31104000000000000.0
    ensures r.BillionYears? <==> 31104000000000000.0 <= seconds < 31104000000000000000.0
    ensures r == Centuries <==> 31104000000000000000.0 <= seconds
    ensures r.Seconds? ==> r.n == Round(seconds) && 1 <= r.n <= 60
    ensures r.Minutes? ==> r.n == Round(seconds / 60.0) && 1 <= r.n <= 60
    ensures r.Hours? ==> r.n == Round(seconds / 3600.0) && 1 <= r.n <= 24
    ensures r.Days? ==> r.n == Round(seconds / 86400.0) && 1 <= r.n <= 30
    ensures r.Months? ==> r.n == Round(seconds / 2592000.0) && 1 <= r.n <= 12
    ensures r.Years? ==> r.n == Round(seconds / 31104000.0) && 1 <= r.n <= 1000
    ensures r.ThousandYears? ==> r.n == Round(seconds / 31104000000.0) && 1 <= r.n <= 1000
    ensures r.MillionYears? ==> r.n == Round(seconds / 31104000000000.0) && 1 <= r.n <= 1000
    ensures r.BillionYears? ==> r.n == Round(seconds / 31104000000000000.0) && 1 <= r.n <= 1000
  {
    if seconds < 1.0 then LessThanASecond
    else if seconds < 60.0 then Seconds(Round(seconds))
    else
      var minutes := seconds / 60.0;
      if minutes < 60.0 then Minutes(Round(minutes))
      else
        var hours := minutes / 60.0;
        if hours < 24.0 then Hours(Round(hours))
        else
          var days := hours / 24.0;
          if days < 30.0 then Days(Round(days))
          else
            var months := days / 30.0;
            if months < 12.0 then Months(Round(months))
            else
              var years := months / 12.0;
              if years < 1000.0 then Years(Round(years))
              else if years < 1000000.0 then ThousandYears(Round(years / 1000.0))
              else if years < 1000000000.0 then MillionYears(Round(years / 1000000.0))
              else if years < 1000000000000.0 then BillionYears(Round(years / 1000000000.0))
              else Centuries
  }

  /** A longer duration never lands in an earlier bucket, and within one
      bucket never gets a smaller count. */
  lemma FormatTimeMonotone(s1: real, s2: real)
    requires s1 <= s2
    ensures Rank(FormatTime(s1)) <= Rank(FormatTime(s2))
    ensures Rank(FormatTime(s1)) == Rank(FormatTime(s2)) && 2 <= Rank(FormatTime(s1)) <= 10 ==>
              FormatTime(s1).n <= FormatTime(s2).n
  {
    var r1, r2 := FormatTime(s1), FormatTime(s2);
    if Rank(r1) == Rank(r2) {
      var unit: real := match r1
        case Minutes(_) => 60.0
        case Hours(_) => 3600.0
        case Days(_) => 86400.0
        case Months(_) => 2592000.0
        case Years(_) => 31104000.0
        case ThousandYears(_) => 31104000000.0
        case MillionYears(_) => 31104000000000.0
        case BillionYears(_) => 31104000000000000.0
        case _ => 1.0;
      RoundMonotone(s1 / unit, s2 / unit);
    }
  }

  /** The character-set size: 26 for lower-case letters, 26 for upper-case
      letters, 10 for digits and 32 for symbols, each counted once if the
      password has any character of that class; 26 if it has none. */
  function CharsetSize(password: string): (size: nat)
    ensures 10 <= size <= 94
    ensures (forall k: CharClass :: !ContainsClass(password, k)) ==> size == 26
    ensures ContainsClass(password, Lower) || ContainsClass(password, Upper) ==> size >= 26
  {
    var sum := (if ContainsClass(password, Lower) then 26 else 0)
             + (if ContainsClass(password, Upper) then 26 else 0)
             + (if ContainsClass(password, Digit) then 10 else 0)
             + (if ContainsClass(password, Symbol) then 32 else 0);
    if sum == 0 then 26 else sum
  }

  /** `combinations / guessesPerSecond`, with `combinations = charsetSize ^ length`. */
  function SecondsToCrack(password: string): (seconds: real)
    ensures seconds > 0.0
    ensures seconds * GuessesPerSecond as real == Pow(CharsetSize(password), |password|) as real
  {
    Pow(CharsetSize(password), |password|) as real / GuessesPerSecond as real
  }

  /** What `estimateCrackTime` returns: `Instantly` exactly for the empty
      password, otherwise the bucket of the brute-force duration. */
  function CrackTimeOf(password: string): (r: CrackTime)
    ensures r == Instantly <==> password == []
  {
    if password == [] then Instantly else FormatTime(SecondsToCrack(password))
  }

  /** `estimateCrackTime`: accumulates the character-set size class by class,
      then formats the brute-force duration. */
  method EstimateCrackTime(password: string) returns (crackTime: CrackTime)
    ensures crackTime == CrackTimeOf(password)
    ensures crackTime == Instantly <==> password == []
  {
    if |password| == 0 {
      return Instantly;
    }
    var charsetSize := 0;
    if ContainsClass(password, Lower) { charsetSize := charsetSize + 26; }
    if ContainsClass(password, Upper) { charsetSize := charsetSize + 26; }
    if ContainsClass(password, Digit) { charsetSize := charsetSize + 10; }
    if ContainsClass(password, Symbol) { charsetSize := charsetSize + 32; }
    if charsetSize == 0 {
      charsetSize := 26;
    }
    assert charsetSize == CharsetSize(password);
    var combinations := Pow(charsetSize, |password|);
    var seconds := combinations as real / GuessesPerSecond as real;
    assert seconds == SecondsToCrack(password);
    crackTime := FormatTime(seconds);
  }

  /** The bucket of a non-empty password, read off exactly from the integer
      search space `charset ^ length` against the guess rate times each
      bucket's limit in seconds: no floating point is needed to choose it. */
  lemma CrackBucketExact(password: string)
    requires password != []
    ensures var space := Pow(CharsetSize(password), |password|);
            var t := CrackTimeOf(password);
            (t == LessThanASecond <==> space < GuessesPerSecond) &&
            (t.Seconds? <==> GuessesPerSecond <= space < 60 * GuessesPerSecond) &&
            (t.Minutes? <==> 60 * GuessesPerSecond <= space < SecondsPerHour * GuessesPerSecond) &&
            (t.Hours? <==> SecondsPerHour * GuessesPerSecond <= space < SecondsPerDay * GuessesPerSecond) &&
            (t.Days? <==> SecondsPerDay * GuessesPerSecond <= space < SecondsPerMonth * GuessesPerSecond) &&
            (t.Months? <==> SecondsPerMonth * GuessesPerSecond <= space < SecondsPerYear * GuessesPerSecond) &&
            (t.Years? <==> SecondsPerYear * GuessesPerSecond <= space < SecondsPerYear * 1000 * GuessesPerSecond) &&
            (t.ThousandYears? <==>
               SecondsPerYear * 1000 * GuessesPerSecond <= space < SecondsPerYear * 1000000 * GuessesPerSecond) &&
            (t.MillionYears? <==>
               SecondsPerYear * 1000000 * GuessesPerSecond <= space < SecondsPerYear * 1000000000 * GuessesPerSecond) &&
            (t.BillionYears? <==>
               SecondsPerYear * 1000000000 * GuessesPerSecond <= space < SecondsPerYear * 1000000000000 * GuessesPerSecond) &&
            (t == Centuries <==> SecondsPerYear * 1000000000000 * GuessesPerSecond <= space)
  {
    CrackBucketsUpToYears(password);
    CrackBucketsFromThousandYears(password);
  }

  lemma CrackBucketsUpToYears(password: string)
    requires password != []
    ensures var space := Pow(CharsetSize(password), |password|);
            var t := CrackTimeOf(password);
            (t == LessThanASecond <==> space < GuessesPerSecond) &&
            (t.Seconds? <==> GuessesPerSecond <= space < 60 * GuessesPerSecond) &&
            (t.Minutes? <==> 60 * GuessesPerSecond <= space < SecondsPerHour * GuessesPerSecond) &&
            (t.Hours? <==> SecondsPerHour * GuessesPerSecond <= space < SecondsPerDay * GuessesPerSecond) &&
            (t.Days? <==> SecondsPerDay * GuessesPerSecond <= space < SecondsPerMonth * GuessesPerSecond) &&
            (t.Months? <==> SecondsPerMonth * GuessesPerSecond <= space < SecondsPerYear * GuessesPerSecond) &&
            (t.Years? <==> SecondsPerYear * GuessesPerSecond <= space < SecondsPerYear * 1000 * GuessesPerSecond)
  {
  }

  lemma CrackBucketsFromThousandYears(password: string)
    requires password != []
    ensures var space := Pow(CharsetSize(password), |password|);
            var t := CrackTimeOf(password);
            (t.ThousandYears? <==>
               SecondsPerYear * 1000 * GuessesPerSecond <= space < SecondsPerYear * 1000000 * GuessesPerSecond) &&
            (t.MillionYears? <==>
               SecondsPerYear * 1000000 * GuessesPerSecond <= space < SecondsPerYear * 1000000000 * GuessesPerSecond) &&
            (t.BillionYears? <==>
               SecondsPerYear * 1000000000 * GuessesPerSecond <= space < SecondsPerYear * 1000000000000 * GuessesPerSecond) &&
            (t == Centuries <==> SecondsPerYear * 1000000000000 * GuessesPerSecond <= space)
  {
  }

  /** For a fixed character set, a longer password never gets an earlier bucket. */
  lemma CrackTimeMonotoneInLength(p: string, q: string)
    requires p != [] && |p| <= |q| && CharsetSize(p) == CharsetSize(q)
    ensures Rank(CrackTimeOf(p)) <= Rank(CrackTimeOf(q))
  {
    PowMonotone(CharsetSize(p), |p|, |q|);
    FormatTimeMonotone(SecondsToCrack(p), SecondsToCrack(q));
  }

  /** The empty password is cracked instantly; a single lower-case letter in
      less than a second. */
  lemma ShortPasswords()
    ensures CrackTimeOf("") == Instantly
    ensures CrackTimeOf("a") == LessThanASecond
  {
    assert IsLower("a"[0]);
    assert !ContainsClass("a", Upper) && !ContainsClass("a", Digit) && !ContainsClass("a", Symbol);
    assert CharsetSize("a") == 26;
  }

  /** "Tr0ub4dor&3" has all four classes (94 characters) and 11 characters:
      94^11 / 10^10 seconds is about 16,278 years, shown as 16 thousand years. */
  lemma Troubadour()
    ensures CharsetSize("Tr0ub4dor&3") == 94
    ensures CrackTimeOf("Tr0ub4dor&3") == ThousandYears(16)
  {
    TroubadourHasAllClasses();
    assert Pow(94, 11) == 5062982072492057196544;
  }

  lemma TroubadourHasAllClasses()
    ensures forall k :: ContainsClass("Tr0ub4dor&3", k)
  {
    var p := "Tr0ub4dor&3";
    assert IsUpper(p[0]) && IsLower(p[1]) && IsDigit(p[2]) && IsSymbol(p[9]);
  }

  /** A password with no character of any class gets the fallback size 26;
      appending one digit gives it the digit class, whose size is only 10. */
  lemma FallbackExceedsDigitClass(password: string)
    requires forall k :: !ContainsClass(password, k)
    ensures CharsetSize(password) == 26
    ensures CharsetSize(password + "1") == 10
  {
    var q := password + "1";
    assert IsDigit(q[|password|]);
    forall k | k != Digit
      ensures !ContainsClass(q, k)
    {
      ClassesDisjoint('1', Digit, k);
      forall i | 0 <= i < |q|
        ensures !InClass(q[i], k)
      {
        if i < |password| {
          assert !ContainsClass(password, k);
          assert q[i] == password[i];
          assert !InClass(password[i], k);
        } else {
          assert q[i] == '1';
        }
      }
    }
  }

  /** So appending a digit can lower the estimate: eight tildes (a tilde is
      in no class) take 26^8 / 10^10, about 21 seconds, while eight tildes and
      a digit take 10^9 / 10^10 seconds, less than a second. */
  lemma AppendingCanShortenEstimate()
    ensures CrackTimeOf("~~~~~~~~") == Seconds(21)
    ensures CrackTimeOf("~~~~~~~~" + "1") == LessThanASecond
  {
    EightTildes("~~~~~~~~");
    EightTildesAndADigit("~~~~~~~~");
  }

  /** Eight tildes match none of the four classes. As in the two lemmas
      below, the string is a parameter fixed by the precondition, which keeps
      the verifier from unfolding the definitions on a literal. */
  lemma TildesHaveNoClass(p: string)
    requires p == "~~~~~~~~"
    ensures forall k :: !ContainsClass(p, k)
  {
    assert forall i :: 0 <= i < |p| ==> p[i] == '~';
    TildeAndBackquoteAreNotSymbols();
  }

  /** 26^8 / 10^10 is about 20.9 seconds, shown as 21 seconds. */
  lemma EightTildes(p: string)
    requires p == "~~~~~~~~"
    ensures CrackTimeOf(p) == Seconds(21)
  {
    TildesHaveNoClass(p);
    assert CharsetSize(p) == 26;
    assert Pow(26, 8) == 208827064576;
  }

  /** 10^9 / 10^10 is a tenth of a second. */
  lemma EightTildesAndADigit(p: string)
    requires p == "~~~~~~~~"
    ensures CrackTimeOf(p + "1") == LessThanASecond
  {
    TildesHaveNoClass(p);
    FallbackExceedsDigitClass(p);
    assert |p + "1"| == 9;
    assert Pow(10, 9) == 1000000000;
  }

  /** The unit text after the count of a bucket that has one. */
  function Unit(t: CrackTime): (u: string)
    requires 2 <= Rank(t) <= 10
    ensures |u| > 0 && !IsDigit(u[0])
  {
    match t
    case Seconds(_) => " seconds"
    case Minutes(_) => " minutes"
    case Hours(_) => " hours"
    case Days(_) => " days"
    case Months(_) => " months"
    case Years(_) => " years"
    case ThousandYears(_) => "K years"
    case MillionYears(_) => "M years"
    case BillionYears(_) => "B years"
  }

  /** The string `estimateCrackTime` returns for a bucket; "Instantly" is
      returned for the empty password and never as a formatted duration. */
  function Render(t: CrackTime): (r: string)
    ensures r == "Instantly" <==> t == Instantly
  {
    match t
    case Instantly => "Instantly"
    case LessThanASecond => "Less than a second"
    case Centuries => "Centuries"
    case _ =>
      var r := NatToString(t.n) + Unit(t);
      assert r[0] == NatToString(t.n)[0];
      r
  }

  /** A rendering starts with a digit exactly when the bucket carries a count. */
  lemma RenderStartsWithDigit(t: CrackTime)
    ensures |Render(t)| > 0
    ensures IsDigit(Render(t)[0]) <==> 2 <= Rank(t) <= 10
  {
    if 2 <= Rank(t) <= 10 {
      assert Render(t)[0] == NatToString(t.n)[0];
    }
  }

  /** Different buckets, or different counts, render differently. */
  lemma RenderInjective(a: CrackTime, b: CrackTime)
    requires Render(a) == Render(b)
    ensures a == b
  {
    RenderStartsWithDigit(a);
    RenderStartsWithDigit(b);
    if 2 <= Rank(a) <= 10 {
      DigitsThenNonDigit(NatToString(a.n), Unit(a), NatToString(b.n), Unit(b));
      NatToStringInjective(a.n, b.n);
    }
  }
}
