/** The criterion evaluator: the fixed, ordered table of seven checks that
    `getPasswordChecks` builds, and the common-pattern blacklist. */
module PasswordChecks {
  import opened CharClasses

  /** One requirement and whether the password meets it (`labelText` is the
      source's `label` field; `label` is a Dafny keyword). */
  datatype Check = Check(id: string, labelText: string, passed: bool, description: string)

  /** The ids of the seven checks, in table order. */
  const CheckIds: seq<string> :=
    ["length", "length-strong", "uppercase", "lowercase", "number", "symbol", "no-common"]

  /** The fifteen weak tokens, in the order `hasCommonPatterns` tries them. */
  const CommonPatterns: seq<string> :=
    [ "password", "123456", "qwerty", "abc123", "letmein",
      "111111", "123123", "admin", "welcome", "monkey",
      "1234", "pass", "test", "guest", "master" ]

  /** `pattern` occurs in `text` starting at position `i`. */
  predicate OccursAt(text: string, pattern: string, i: int) {
    0 <= i && i + |pattern| <= |text| && text[i..i + |pattern|] == pattern
  }

  /** An occurrence in `text[1..]` is an occurrence in `text` one place later. */
  lemma OccursAtShift(text: string, pattern: string, i: nat)
    requires |text| > 0
    ensures OccursAt(text[1..], pattern, i) <==> OccursAt(text, pattern, i + 1)
  {
    if i + |pattern| <= |text| - 1 {
      assert text[1..][i..i + |pattern|] == text[i + 1..i + 1 + |pattern|];
    }
  }

  /** `text.includes(pattern)`: true exactly when `pattern` occurs somewhere in `text`. */
  function Includes(text: string, pattern: string): (r: bool)
    ensures r <==> exists i :: OccursAt(text, pattern, i)
  {
    if |text| < |pattern| then
      assert forall i :: !OccursAt(text, pattern, i);
      false
    else if text[..|pattern|] == pattern then
      assert OccursAt(text, pattern, 0);
      true
    else
      var rest := Includes(text[1..], pattern);
      assert forall i: nat :: OccursAt(text[1..], pattern, i) <==> OccursAt(text, pattern, i + 1) by {
        forall i: nat ensures OccursAt(text[1..], pattern, i) <==> OccursAt(text, pattern, i + 1) {
          OccursAtShift(text, pattern, i);
        }
      }
      assert !OccursAt(text, pattern, 0);
      assert (exists i :: OccursAt(text, pattern, i)) ==> exists j :: OccursAt(text[1..], pattern, j) by {
        if exists i :: OccursAt(text, pattern, i) {
          var i :| OccursAt(text, pattern, i);
          assert OccursAt(text[1..], pattern, i - 1);
        }
      }
      rest
  }

  /** `hasCommonPatterns`: some blacklisted token occurs in the ASCII-lowercased password. */
  function HasCommonPatterns(password: string): (r: bool)
    ensures r <==> exists k, i :: 0 <= k < |CommonPatterns| && OccursAt(AsciiLower(password), CommonPatterns[k], i)
  {
    var lowerPassword := AsciiLower(password);
    exists k :: 0 <= k < |CommonPatterns| && Includes(lowerPassword, CommonPatterns[k])
  }

  /** The labels and descriptions of the seven checks, in table order. */
  const CheckLabels: seq<string> :=
    [ "At least 8 characters", "At least 12 characters", "Contains uppercase letter",
      "Contains lowercase letter", "Contains a number", "Contains a symbol", "Avoids common patterns" ]

  const CheckDescriptions: seq<string> :=
    [ "Longer passwords are harder to guess",
      "Very long passwords are extremely secure",
      "Mix of upper and lowercase increases complexity",
      "Lowercase letters are essential",
      "Numbers add another layer of complexity",
      "Symbols like !@#$% make passwords much stronger",
      "Avoid \"123\", \"abc\", \"password\", etc." ]

  /** `getPasswordChecks`: exactly seven checks with the fixed ids, in table
      order, each passing exactly when its condition holds of the password. */
  function GetPasswordChecks(password: string): (r: seq<Check>)
    ensures |r| == 7
    ensures forall k :: 0 <= k < 7 ==> r[k].id == CheckIds[k]
    ensures forall k :: 0 <= k < 7 ==> r[k].labelText == CheckLabels[k] && r[k].description == CheckDescriptions[k]
    ensures r[0].passed <==> |password| >= 8
    ensures r[1].passed <==> |password| >= 12
    ensures r[1].passed ==> r[0].passed
    ensures r[2].passed <==> exists i :: 0 <= i < |password| && IsUpper(password[i])
    ensures r[3].passed <==> exists i :: 0 <= i < |password| && IsLower(password[i])
    ensures r[4].passed <==> exists i :: 0 <= i < |password| && IsDigit(password[i])
    ensures r[5].passed <==> exists i :: 0 <= i < |password| && IsSymbol(password[i])
    ensures r[6].passed <==> !exists k, i :: 0 <= k < |CommonPatterns| && OccursAt(AsciiLower(password), CommonPatterns[k], i)
  {
    [ Check(CheckIds[0], CheckLabels[0], |password| >= 8, CheckDescriptions[0]),
      Check(CheckIds[1], CheckLabels[1], |password| >= 12, CheckDescriptions[1]),
      Check(CheckIds[2], CheckLabels[2], ContainsClass(password, Upper), CheckDescriptions[2]),
      Check(CheckIds[3], CheckLabels[3], ContainsClass(password, Lower), CheckDescriptions[3]),
      Check(CheckIds[4], CheckLabels[4], ContainsClass(password, Digit), CheckDescriptions[4]),
      Check(CheckIds[5], CheckLabels[5], ContainsClass(password, Symbol), CheckDescriptions[5]),
      Check(CheckIds[6], CheckLabels[6], !HasCommonPatterns(password), CheckDescriptions[6]) ]
  }

  /** The check ids are pairwise distinct. */
  lemma CheckIdsDistinct()
    ensures forall j, k :: 0 <= j < k < |CheckIds| ==> CheckIds[j] != CheckIds[k]
  {
  }

  /** "password" contains the blacklisted token "password" and so fails `no-common`. */
  lemma PasswordIsCommon()
    ensures HasCommonPatterns("password")
  {
    assert Includes(AsciiLower("password"), CommonPatterns[0]) by {
      assert AsciiLower("password") == "password";
      assert OccursAt("password", "password", 0);
    }
  }

  /** "password" is eight lower-case letters containing a blacklisted token:
      it passes `length` and `lowercase` and fails the other five checks.
      The string is a parameter fixed by the precondition rather than a
      literal in the contract, which keeps the verifier from unfolding the
      whole check table on the literal. */
  lemma PasswordOutcomes(password: string)
    requires password == "password"
    ensures var r := GetPasswordChecks(password);
            r[0].passed && !r[1].passed && !r[2].passed && r[3].passed &&
            !r[4].passed && !r[5].passed && !r[6].passed
  {
    assert forall i :: 0 <= i < |password| ==> IsLower(password[i]);
    OnlyLowerCase(password);
    PasswordIsCommon();
  }

  /** Upper-case letters are folded before the blacklist is consulted. */
  lemma CaseIsIgnoredByBlacklist()
    ensures HasCommonPatterns("AdMiN!")
  {
    assert AsciiLower("AdMiN!") == "admin!";
    assert OccursAt("admin!", "admin", 0);
    assert Includes(AsciiLower("AdMiN!"), CommonPatterns[7]);
  }
}
