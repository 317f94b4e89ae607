/** ASCII character classes used by the analyzer's regular-expression tests,
    and the ASCII part of `String.prototype.toLowerCase`. */
module CharClasses {

  /** The four bracket expressions the analyzer tests a password against. */
  datatype CharClass = Upper | Lower | Digit | Symbol

  /** `[A-Z]` */
  predicate IsUpper(c: char) { 'A' <= c <= 'Z' }

  /** `[a-z]` */
  predicate IsLower(c: char) { 'a' <= c <= 'z' }

  /** `[0-9]` */
  predicate IsDigit(c: char) { '0' <= c <= '9' }

  /** The members of the bracket expression `[!@#$%^&*()_+\-=\[\]{};':"\\|,.<>\/?]`,
      in the order the expression lists them. */
  const SymbolChars: string := "!@#$%^&*()_+-=[]{};':\"\\|,.<>/?"

  predicate IsSymbol(c: char) { c in SymbolChars }

  predicate InClass(c: char, k: CharClass) {
    match k
    case Upper => IsUpper(c)
    case Lower => IsLower(c)
    case Digit => IsDigit(c)
    case Symbol => IsSymbol(c)
  }

  /** `/[...]/.test(s)` for the bracket expression of class `k`:
      true exactly when some character of `s` lies in the class. */
  function ContainsClass(s: string, k: CharClass): (r: bool)
    ensures r <==> exists i :: 0 <= i < |s| && InClass(s[i], k)
  {
    if s == [] then false
    else if InClass(s[0], k) then true
    else
      var rest := ContainsClass(s[1..], k);
      assert forall i :: 1 <= i < |s| ==> s[i] == s[1..][i - 1];
      rest
  }

  /** The symbol bracket expression has 30 members: the printable ASCII
      punctuation characters except the backquote and the tilde. */
  lemma SymbolCharsCount()
    ensures |SymbolChars| == 30
    ensures forall i, j :: 0 <= i < j < |SymbolChars| ==> SymbolChars[i] != SymbolChars[j]
  {
    SymbolCharsDistinctLow();
    SymbolCharsDistinctHigh();
    SymbolCharsDistinctAcross();
  }

  lemma SymbolCharsDistinctLow()
    ensures forall i, j :: 0 <= i < j < 15 ==> SymbolChars[i] != SymbolChars[j]
  {
  }

  lemma SymbolCharsDistinctHigh()
    ensures forall i, j :: 15 <= i < j < 30 ==> SymbolChars[i] != SymbolChars[j]
  {
  }

  lemma SymbolCharsDistinctAcross()
    ensures forall i, j :: 0 <= i < 15 <= j < 30 ==> SymbolChars[i] != SymbolChars[j]
  {
  }

  /** The tilde and the backquote are printable punctuation missing from it. */
  lemma TildeAndBackquoteAreNotSymbols()
    ensures !IsSymbol('~') && !IsSymbol('`')
  {
  }

  /** The four classes are pairwise disjoint. */
  lemma ClassesDisjoint(c: char, k1: CharClass, k2: CharClass)
    requires k1 != k2
    ensures !(InClass(c, k1) && InClass(c, k2))
  {
    if IsSymbol(c) {
      SymbolsAreNotAlphanumeric();
      var i :| 0 <= i < |SymbolChars| && SymbolChars[i] == c;
    }
  }

  /** No symbol is a letter or a digit: every symbol lies outside `0-9`,
      `A-Z` and `a-z`. */
  lemma SymbolsAreNotAlphanumeric()
    ensures forall i :: 0 <= i < |SymbolChars| ==>
              !IsUpper(SymbolChars[i]) && !IsLower(SymbolChars[i]) && !IsDigit(SymbolChars[i])
  {
  }

  /** A non-empty string of lower-case letters contains the lower-case class
      and no other. */
  lemma OnlyLowerCase(s: string)
    requires |s| > 0 && forall i :: 0 <= i < |s| ==> IsLower(s[i])
    ensures ContainsClass(s, Lower)
    ensures forall k :: k != Lower ==> !ContainsClass(s, k)
  {
    assert InClass(s[0], Lower);
    forall k, i | k != Lower && 0 <= i < |s|
      ensures !InClass(s[i], k)
    {
      ClassesDisjoint(s[i], Lower, k);
    }
  }

  /** ASCII lower-casing of one character: `A`..`Z` map to `a`..`z`,
      everything else is unchanged. */
  function AsciiLowerChar(c: char): (r: char)
    ensures IsUpper(c) ==> IsLower(r) && r as int - c as int == 32
    ensures !IsUpper(c) ==> r == c
    ensures !IsUpper(r)
  {
    if IsUpper(c) then (c as int + 32) as char else c
  }

  /** `s.toLowerCase()`, restricted to ASCII. */
  function AsciiLower(s: string): (r: string)
    ensures |r| == |s|
    ensures forall i :: 0 <= i < |s| ==> r[i] == AsciiLowerChar(s[i])
  {
    seq(|s|, i requires 0 <= i < |s| => AsciiLowerChar(s[i]))
  }

  /** Lower-casing is idempotent and leaves no upper-case letter behind. */
  lemma AsciiLowerIdempotent(s: string)
    ensures AsciiLower(AsciiLower(s)) == AsciiLower(s)
    ensures !ContainsClass(AsciiLower(s), Upper)
  {
  }
}
