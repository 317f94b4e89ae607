# Password strength analyzer — a verified model

This project models the analysis core of a password-strength checker
(`src/lib/passwordAnalyzer.ts`). Given a password, `analyzePassword`:

- runs seven fixed checks, always in the same order: `length`, `length-strong`,
  `uppercase`, `lowercase`, `number`, `symbol` and `no-common`;
- turns the number of passed checks into a 0–100 score and then into a tier
  (weak, medium or strong);
- lists one suggestion for each failed check, in check order;
- estimates a brute-force crack time from the character-set size and the
  password length;
- fills in one of three explanation templates with the pass count and the
  total.

Modules, in dependency order:

- CharClasses: the four bracket expressions `[A-Z]`, `[a-z]`, `[0-9]` and the
  symbol set, the `test` of a bracket expression against a string, and ASCII
  lower-casing.
- Decimal: the decimal spelling of the counts placed into template strings.
- PasswordChecks: the check record, the seven-row check table
  (`getPasswordChecks`) and the common-pattern blacklist (`hasCommonPatterns`).
- Scoring: the pass count, the rounded percentage score and the tiers
  (`getStrengthLevel`).
- Feedback: the suggestions (`getSuggestions`, an imperative loop modelled
  as a method) and the explanation (`getExplanation`).
- CrackTime: the character-set size, the search space at ten billion
  guesses a second, and the duration buckets of `formatTime`.
  `estimateCrackTime` is a method that accumulates the set size step by step.
- Analyzer: `analyzePassword` as a method, with `AnalysisOf` as the function
  that specifies it.

Two facts about the code are worth knowing:

- The symbol bracket expression at line 98 of `src/lib/passwordAnalyzer.ts`
  has 30 members: the printable ASCII punctuation except the tilde and the
  backquote (`CharClasses.SymbolCharsCount`). The crack-time estimate nevertheless adds
  32 for the symbol class (line 185), and the model does the same.
- The fallback set size of 26 (line 188) is reachable: a password made only
  of tildes, backquotes or spaces matches no class. Because of it, appending
  a digit can lower the estimate. Eight tildes take about 21 seconds; eight
  tildes and a `1` take less than a second
  (`CrackTime.AppendingCanShortenEstimate`).

## Model

| member | source | states |
|---|---|---|
| `CharClasses.ContainsClass` | src/lib/passwordAnalyzer.ts:80-98 | `/[…]/.test(s)` is true exactly when some character of `s` lies in the class |
| `CharClasses.SymbolCharsCount` | src/lib/passwordAnalyzer.ts:98 | the symbol bracket expression lists 30 pairwise distinct characters |
| `CharClasses.TildeAndBackquoteAreNotSymbols` | src/lib/passwordAnalyzer.ts:98 | the tilde and the backquote are not in the symbol set |
| `CharClasses.ClassesDisjoint` | src/lib/passwordAnalyzer.ts:80-98 | no character lies in two of the four classes |
| `CharClasses.SymbolsAreNotAlphanumeric` | src/lib/passwordAnalyzer.ts:98 | no member of the symbol set is a letter or a digit |
| `CharClasses.OnlyLowerCase` | src/lib/passwordAnalyzer.ts:80-98 | a non-empty all-lower-case string passes the lower-case test and fails the other three |
| `CharClasses.AsciiLowerChar` | src/lib/passwordAnalyzer.ts:121 | `A`–`Z` move up by 32 to `a`–`z`, every other character is unchanged, and no upper-case letter results |
| `CharClasses.AsciiLower` | src/lib/passwordAnalyzer.ts:121 | `toLowerCase` keeps the length and lower-cases character by character |
| `CharClasses.AsciiLowerIdempotent` | src/lib/passwordAnalyzer.ts:121 | lower-casing twice is lower-casing once, and leaves no upper-case letter |
| `PasswordChecks.OccursAtShift` | src/lib/passwordAnalyzer.ts:122 | an occurrence in the tail of a text is an occurrence in the text one place later |
| `PasswordChecks.Includes` | src/lib/passwordAnalyzer.ts:122 | `text.includes(pattern)` holds exactly when the pattern occurs at some position |
| `PasswordChecks.HasCommonPatterns` | src/lib/passwordAnalyzer.ts:114-123 | true exactly when one of the fifteen tokens occurs in the lower-cased password |
| `PasswordChecks.GetPasswordChecks` | src/lib/passwordAnalyzer.ts:63-107 | seven checks with the fixed ids in order; each passes exactly when its condition holds; `length-strong` implies `length` |
| `PasswordChecks.CheckIdsDistinct` | src/lib/passwordAnalyzer.ts:66-102 | the seven ids are pairwise distinct |
| `PasswordChecks.PasswordIsCommon` | src/lib/passwordAnalyzer.ts:116-122 | "password" contains a blacklisted token |
| `PasswordChecks.PasswordOutcomes` | src/lib/passwordAnalyzer.ts:63-107 | "password" passes only `length` and `lowercase` |
| `PasswordChecks.CaseIsIgnoredByBlacklist` | src/lib/passwordAnalyzer.ts:121-122 | "AdMiN!" is caught by the blacklist because it is lower-cased first |
| `Scoring.PassedCount` | src/lib/passwordAnalyzer.ts:34 | the pass count is at most the number of checks; it equals it exactly when all pass and is 0 exactly when all fail |
| `Scoring.Score` | src/lib/passwordAnalyzer.ts:35 | the score lies in 0..100; it is 100 when all checks pass and, for fewer than 200 checks, only then |
| `Scoring.ScoreBounds` | src/lib/passwordAnalyzer.ts:35 | the integer quotient behind the score is in 0..100 and brackets the percentage |
| `Scoring.ScoreIsRoundedPercentage` | src/lib/passwordAnalyzer.ts:35 | the score is `passed*100/total` rounded to the nearest integer, halves up |
| `Scoring.ScoreMonotone` | src/lib/passwordAnalyzer.ts:35 | passing more checks never lowers the score |
| `Scoring.ScoreOfSeven` | src/lib/passwordAnalyzer.ts:34-35 | with seven checks the scores are 0, 14, 29, 43, 57, 71, 86 and 100 |
| `Scoring.StrengthLevel` | src/lib/passwordAnalyzer.ts:129-133 | weak exactly below 50, medium exactly in 50..74, strong exactly from 75 |
| `Scoring.StrengthOfSeven` | src/lib/passwordAnalyzer.ts:35-38 | with seven checks: weak iff at most 3 pass, medium iff 4 or 5 pass, strong iff 6 or 7 pass |
| `Scoring.StrengthMonotone` | src/lib/passwordAnalyzer.ts:129-133 | a higher score never gives a lower tier |
| `Feedback.SuggestionFor` | src/lib/passwordAnalyzer.ts:145-167 | the `switch` yields a text exactly for the seven known ids, and the text matching that id |
| `Feedback.SuggestionTextsDistinct` | src/lib/passwordAnalyzer.ts:146-166 | the seven suggestion texts are pairwise distinct |
| `Feedback.FailedChecks` | src/lib/passwordAnalyzer.ts:142 | the filter keeps only failed checks, as many as the checks that did not pass |
| `Feedback.FailedPositions` | src/lib/passwordAnalyzer.ts:142 | the positions of the failed checks are in range and strictly increasing |
| `Feedback.FailedChecksIsFailedSubsequence` | src/lib/passwordAnalyzer.ts:142 | the filtered list is the subsequence of checks at exactly the failed positions, in order |
| `Feedback.FailedPositionsPickFailed` | src/lib/passwordAnalyzer.ts:142 | the checks at the failed positions are the filtered checks, in order |
| `Feedback.FailedPositionsCoverFailed` | src/lib/passwordAnalyzer.ts:142 | a position is listed exactly when its check failed |
| `Feedback.SuggestionsOf` | src/lib/passwordAnalyzer.ts:144-168 | at most one suggestion per failed check |
| `Feedback.SuggestionOf` | src/lib/passwordAnalyzer.ts:145-167 | one failed check with a known id contributes exactly its own text |
| `Feedback.SuggestionsOfKnownChecks` | src/lib/passwordAnalyzer.ts:144-168 | with known ids, exactly one suggestion per failed check, the `j`-th for the `j`-th failed id |
| `Feedback.SuggestionsOfPrefix` | src/lib/passwordAnalyzer.ts:144-168 | one more loop iteration appends the current check's suggestion, if any |
| `Feedback.GetSuggestions` | src/lib/passwordAnalyzer.ts:139-171 | the loop returns the suggestions of the failed checks, in order |
| `Feedback.SuggestionsMatchFailedChecks` | src/lib/passwordAnalyzer.ts:139-171 | for the seven-check table: `7 - passed` suggestions, none iff all pass, and check `k`'s text present iff check `k` failed |
| `Feedback.SuggestionsAtFailedPositions` | src/lib/passwordAnalyzer.ts:139-171 | the `j`-th suggestion is the text of the check at the `j`-th failed position |
| `Feedback.SuggestionsOfKnownIds` | src/lib/passwordAnalyzer.ts:144-168 | failed checks with known ids get their texts, position by position |
| `Feedback.SuggestionPresentIffFailed` | src/lib/passwordAnalyzer.ts:139-171 | a check's suggestion text is present exactly when that check failed |
| `Feedback.TextAtPositionIffListed` | src/lib/passwordAnalyzer.ts:139-171 | with distinct texts, the text for position `k` is present exactly when `k` is a failed position |
| `Feedback.SuggestionsForPassword` | src/lib/passwordAnalyzer.ts:41 | for any password: `7 - passed` suggestions, none iff all pass, present iff failed |
| `Feedback.Closing` | src/lib/passwordAnalyzer.ts:245-249 | the text after the total count starts with a space |
| `Feedback.GetExplanation` | src/lib/passwordAnalyzer.ts:236-251 | the explanation's opening words give back the tier it was asked for; with `ExplanationInjective` the text determines tier, pass count and total, and `ReportFeedback` states it is the tier's template filled with the pass count and 7 |
| `Feedback.FillTemplate` | src/lib/passwordAnalyzer.ts:243-250 | each of the three template literals, filled in, opens with words that identify its tier |
| `Feedback.ExplanationInjective` | src/lib/passwordAnalyzer.ts:236-251 | the explanation determines the tier, the pass count and the total count |
| `Feedback.CountsAfterOpening` | src/lib/passwordAnalyzer.ts:245-249 | after equal opening words, the two counts can be read back |
| `Feedback.CountsDeterminedByText` | src/lib/passwordAnalyzer.ts:245-249 | in "`p` of `t` security checks…" both numbers can be read back |
| `Feedback.OpeningDeterminesStrength` | src/lib/passwordAnalyzer.ts:243-250 | the opening words before the pass count identify the tier |
| `Feedback.TierOfOpening` | src/lib/passwordAnalyzer.ts:243-250 | the 1st and 21st characters of an explanation give its tier |
| `Decimal.DigitChar` | src/lib/passwordAnalyzer.ts:245 | a digit value becomes the matching digit character |
| `Decimal.NatToString` | src/lib/passwordAnalyzer.ts:245 | `${n}` is a digit string without a leading zero that reads back as `n` |
| `Decimal.NatToStringInjective` | src/lib/passwordAnalyzer.ts:245 | different counts render differently |
| `Decimal.DigitsThenNonDigit` | src/lib/passwordAnalyzer.ts:245 | a digit run followed by a non-digit splits in one way only |
| `CrackTime.PowMonotone` | src/lib/passwordAnalyzer.ts:192 | a longer password never has a smaller search space |
| `CrackTime.PowStep` | src/lib/passwordAnalyzer.ts:192 | one more character never shrinks the search space |
| `CrackTime.Pow` | src/lib/passwordAnalyzer.ts:192 | `Math.pow` on naturals is at least 1 for a positive base and 0 for base 0 with a positive exponent; `PowMonotone` is its partner |
| `CrackTime.Round` | src/lib/passwordAnalyzer.ts:208 | `Math.round` gives the nearest integer, halves up |
| `CrackTime.RoundMonotone` | src/lib/passwordAnalyzer.ts:208 | rounding preserves order |
| `CrackTime.FormatTime` | src/lib/passwordAnalyzer.ts:206-230 | each bucket is chosen exactly on its interval of seconds; the count is the rounded duration in the bucket's unit and lies within the unit's range |
| `CrackTime.FormatTimeMonotone` | src/lib/passwordAnalyzer.ts:206-230 | a longer duration never gets an earlier bucket, nor a smaller count in the same bucket |
| `CrackTime.CharsetSize` | src/lib/passwordAnalyzer.ts:181-188 | the set size lies in 10..94; it is 26 when no class is present, and at least 26 when letters are present |
| `CrackTime.SecondsToCrack` | src/lib/passwordAnalyzer.ts:192-196 | the duration is positive, and at ten billion guesses a second it covers exactly the whole search space `charset ^ length` |
| `CrackTime.CrackTimeOf` | src/lib/passwordAnalyzer.ts:177-200 | "Instantly" exactly for the empty password |
| `CrackTime.EstimateCrackTime` | src/lib/passwordAnalyzer.ts:177-200 | the step-by-step sum gives the estimate of `CrackTimeOf`, "Instantly" exactly for the empty password |
| `CrackTime.CrackBucketExact` | src/lib/passwordAnalyzer.ts:192-229 | the bucket follows from comparing the integer search space with the guess rate times the bucket limits |
| `CrackTime.CrackBucketsUpToYears` | src/lib/passwordAnalyzer.ts:192-223 | the buckets from "less than a second" to years, read off the integer search space |
| `CrackTime.CrackBucketsFromThousandYears` | src/lib/passwordAnalyzer.ts:192-229 | the thousand-, million- and billion-year buckets and `Centuries`, read off the integer search space |
| `CrackTime.CrackTimeMonotoneInLength` | src/lib/passwordAnalyzer.ts:177-200 | with the same set size, a longer password never gets an earlier bucket |
| `CrackTime.ShortPasswords` | src/lib/passwordAnalyzer.ts:178-207 | "" is cracked instantly and "a" in less than a second |
| `CrackTime.Troubadour` | src/lib/passwordAnalyzer.ts:177-225 | "Tr0ub4dor&3" has set size 94 and is shown as 16 thousand years |
| `CrackTime.TroubadourHasAllClasses` | src/lib/passwordAnalyzer.ts:181-185 | "Tr0ub4dor&3" contains all four classes |
| `CrackTime.FallbackExceedsDigitClass` | src/lib/passwordAnalyzer.ts:181-188 | a classless password has set size 26; with a digit appended its set size is 10 |
| `CrackTime.AppendingCanShortenEstimate` | src/lib/passwordAnalyzer.ts:177-208 | eight tildes give 21 seconds, and eight tildes plus a digit less than a second |
| `CrackTime.TildesHaveNoClass` | src/lib/passwordAnalyzer.ts:181-188 | eight tildes match none of the four classes |
| `CrackTime.EightTildes` | src/lib/passwordAnalyzer.ts:177-208 | eight tildes give an estimate of 21 seconds |
| `CrackTime.EightTildesAndADigit` | src/lib/passwordAnalyzer.ts:177-207 | eight tildes and a digit give less than a second |
| `CrackTime.Unit` | src/lib/passwordAnalyzer.ts:208-227 | each unit text after a count starts with a non-digit, so the count can be read back (`RenderInjective`) |
| `CrackTime.Render` | src/lib/passwordAnalyzer.ts:178-229 | "Instantly" is rendered exactly for the `Instantly` result; with `RenderStartsWithDigit` and `RenderInjective`, distinct results give distinct strings |
| `CrackTime.RenderStartsWithDigit` | src/lib/passwordAnalyzer.ts:207-229 | a rendered estimate starts with a digit exactly when its bucket carries a count |
| `CrackTime.RenderInjective` | src/lib/passwordAnalyzer.ts:207-229 | different estimates render to different strings |
| `Analyzer.AnalysisOf` | src/lib/passwordAnalyzer.ts:29-57 | the report carries the check table of the password, and its crack time reads "Instantly" exactly for the empty password |
| `Analyzer.ReportOf` | src/lib/passwordAnalyzer.ts:34-56 | the report keeps the checks and crack time it is given, has a score in 0..100 with the tier of that score, and at most one suggestion per failed check |
| `Analyzer.AnalyzePassword` | src/lib/passwordAnalyzer.ts:29-57 | seven checks in table order; score in 0..100 and 100 iff every check passed; no suggestions iff score 100; tier of the score |
| `Analyzer.ReportScore` | src/lib/passwordAnalyzer.ts:34-35 | with seven checks the score is `round(passed*100/7)` |
| `Analyzer.ReportTier` | src/lib/passwordAnalyzer.ts:34-38 | the report's tier is weak for ≤3 passed, medium for 4–5, strong for 6–7 |
| `Analyzer.ReportFeedback` | src/lib/passwordAnalyzer.ts:40-47 | `7 - passed` suggestions, none iff score 100, and the explanation embeds the pass count, 7 and the tier's template |
| `Analyzer.PasswordExample` | src/lib/passwordAnalyzer.ts:29-57 | "password" passes 2 checks, scores 29, is weak and gets five suggestions in check order |
| `Analyzer.ScoreOfLengthAndLowerOnly` | src/lib/passwordAnalyzer.ts:34-38 | two passed checks out of seven score 29 and are weak |
| `Analyzer.SuggestionsOfLengthAndLowerOnly` | src/lib/passwordAnalyzer.ts:41 | when only `length` and `lowercase` pass, the other five texts are suggested, in order |
| `Analyzer.SuggestionsOfFive` | src/lib/passwordAnalyzer.ts:144-168 | five failed checks with known ids get their five texts in order |
| `Analyzer.FailedOfLengthAndLowerOnly` | src/lib/passwordAnalyzer.ts:142 | when only checks 0 and 3 pass, the filter keeps checks 1, 2, 4, 5 and 6 |

## Left out

- The user interface, the page around the analyzer and any input handling are
  not part of this model.
- CrackTime.FormatTime: JavaScript numbers are IEEE doubles, and
  `Math.pow` can overflow to `Infinity`. The model computes the search space
  and the duration exactly, with unbounded integers and reals. Near a bucket
  limit or a rounding half, double rounding could in principle choose the
  other side. Very long passwords land in `Centuries`, which is also what
  `Infinity` gives.
- Scoring.Score: the score uses exact rational rounding, not double
  arithmetic. For seven checks no percentage is a tie, so the two agree there.
- CharClasses.AsciiLower: `toLowerCase` is modelled only on ASCII. Unicode
  case mappings are not modelled, and neither are length changes from those
  mappings or UTF-16 code units.
- PasswordChecks.GetPasswordChecks: lengths are counted in code points, not
  in UTF-16 code units as `password.length` counts them, so a character
  outside the Basic Multilingual Plane counts once here and twice in the
  source; the `length` and `length-strong` outcomes can differ for such
  passwords.
- CrackTime.CrackTimeOf: for the same reason the exponent of the search space
  is the number of code points, so a password with characters outside the
  Basic Multilingual Plane gets a smaller estimate here than in the source.
- Decimal.NatToString: number-to-string conversion is modelled only for the
  non-negative integers the templates receive.
- The `label` field of a check is named `labelText`, because `label` is a
  Dafny keyword.
- The crack-time text is a rendered `CrackTime` value. The score, tier,
  suggestions and explanation are stated about `ReportOf`, which takes the
  checks and the crack-time text separately, because those fields do not
  depend on the crack time.
