# PromptGuard detection engine in Dafny

A model of the detection engine of PromptGuard, a rule-based pre-filter that
gives a text prompt a risk score between 0 and 10 and a recommendation of
ALLOW, REVIEW or BLOCK. The model covers three parts:

- **The pattern catalog** (`patterns.dfy`, module `Patterns`). It holds the
  `AttackType` enum and the ordered `ATTACK_PATTERNS` table, with the same
  pattern strings.
- **The heuristics engine** (`heuristics.dfy`, module `Heuristics`). Three
  structural checks over the raw text each raise a flag:
  - a prompt over 10000 characters;
  - a run of 15 identical characters;
  - more than two imperative tokens.

  The checks give a sub-score capped at 1.
- **The detector** (`detector.dfy`, module `Detector`). It compiles the
  catalog and any custom patterns once, at construction. Then, for each
  text, it:
  - adds 5 points per category with a pattern found in the text;
  - adds the heuristics sub-score times 3;
  - caps the total at 10;
  - applies the two inclusive thresholds;
  - fills in the verdict fields.

`PromptGuard` and `HeuristicsEngine` are classes. Their methods follow the
Python code step by step, and the loops carry their invariants:
- the scan for repeated characters;
- the loop over categories;
- the inner search loop, which stops at the first pattern found.

Each method is proved equal to a specification function:
- `Heuristics.Assessment` for `HeuristicsEngine.analyze`;
- `Detector.Evaluate` for `PromptGuard.analyze`.

The properties of those functions are proved as lemmas, mostly in
`properties.dfy` (module `Properties`).

`text.dfy` (module `Text`) models the string operations the engine uses:
`str.lower`, `str.split()` with no argument, `str.join`, and substring
search. `Split` separates on exactly the characters Python's `str.isspace`
accepts.

`regex.dfy` (module `Regex`) models the regular-expression library. It is a
value, `RegexLib`, passed to the engine when it is built, with two
functions:
- `compiles(p)`: `re.compile(p, re.IGNORECASE)` succeeds;
- `search(p, t)`: the compiled pattern is found in `t`.

Properties that need actual matching assume `SearchesLiterals(lib)`. This
says that a pattern with no regex metacharacter is found whenever its
ASCII-lower-cased form occurs in the ASCII-lower-cased text. Only this
direction is assumed: under `re.IGNORECASE` Python also matches non-ASCII
case pairs (`é` against `É`), so a literal can be found where the
ASCII-lower-cased forms do not occur.

## Model

| member | source | states |
|---|---|---|
| Patterns.AttackType.Value | promptguard/core/patterns.py:4-9 | every member's string value is non-empty and none equals "custom", so custom detections are always told apart from catalog ones |
| Patterns.MembersAreExactlyFive | promptguard/core/patterns.py:4-9 | the enum has exactly five members and their values are pairwise distinct |
| Patterns.ValueInjective | promptguard/core/patterns.py:4-9 | two members with the same value are the same member |
| Patterns.CatalogShape | promptguard/core/patterns.py:12-44 | the catalog iterates SYSTEM_PROMPT_OVERRIDE, ROLE_MANIPULATION, OUTPUT_MANIPULATION, JAILBREAK with 7, 6, 4 and 6 patterns |
| Patterns.CatalogKeys | promptguard/core/patterns.py:7-44 | CONTEXT_POISONING has no entry, every entry has patterns, and no key repeats |
| Patterns.LiteralJailbreakPatterns | promptguard/core/patterns.py:39-41 | `jailbreak`, `unfiltered` and `uncensored` hold no regex metacharacter |
| Text.SplitWords | promptguard/core/heuristics.py:29 | every token of `Split`, the model of `str.split()`, is non-empty and holds no whitespace |
| Text.SplitKeepsEveryNonSpace | promptguard/core/heuristics.py:29 | the tokens glued together are exactly the non-whitespace characters of the input, in order |
| Text.SplitSpace | promptguard/core/heuristics.py:29 | leading whitespace produces no token |
| Text.SplitWord | promptguard/core/heuristics.py:29 | a run of non-whitespace that ends at whitespace or at the end of the text is the first token |
| Text.Join | promptguard/core/detector.py:81 | the joined string starts with the first part, and a single part is joined to itself |
| Text.JoinSnoc | promptguard/core/detector.py:81 | joining one more part appends the separator and that part, so the parts appear in order and the last one ends the string |
| Heuristics.RunEndingAt | promptguard/core/heuristics.py:41-50 | the length of the maximal run ending at a position: every character in it equals the last one, and the character before it differs |
| Heuristics.RunReachesEnd | promptguard/core/heuristics.py:39-51 | a run of length n ends where the maximal run is at least n long |
| Heuristics.RunFromEnd | promptguard/core/heuristics.py:44-47 | a maximal run of at least n contains a run of length n, which justifies the early return |
| Heuristics.ShortTextHasNoRun | promptguard/core/heuristics.py:39-51 | text shorter than the threshold, the empty text included, never holds a run |
| Heuristics.HeuristicsEngine.HasRepetitiveChars | promptguard/core/heuristics.py:39-51 | returns true exactly when the text holds max(threshold, 2) consecutive identical characters; the loop invariant keeps `count` equal to the run of `last_char` ending at the current position |
| Heuristics.CountImperatives | promptguard/core/heuristics.py:29 | each token adds at most one, so the count never exceeds the number of tokens |
| Heuristics.CountIsPositions | promptguard/core/heuristics.py:28-29 | the count is the number of token positions that hold exactly one of the five imperatives |
| Heuristics.PunctuatedTokenNotCounted | promptguard/core/heuristics.py:28-29 | a token ending in a comma, such as `ignore,`, is not counted |
| Heuristics.RaisedFlags | promptguard/core/heuristics.py:17-32 | each flag is present exactly when its check fires, at most once, in the order long, repetitive, imperative |
| Heuristics.HeuristicScore | promptguard/core/heuristics.py:22-35 | the score lies in [0, 1]; it is positive exactly when there is a run or more than two imperatives; 3 to 5 imperatives alone give 0.3 per imperative beyond two (five give 0.9); a run alone gives 0.2 |
| Heuristics.Assessment | promptguard/core/heuristics.py:10-37 | the score lies in [0, 1]; each flag is raised exactly when its condition holds (over 10000 characters, a run of 15, more than two imperative tokens of `Split(Lower(text))`, where `Lower` is `str.lower`); the score is positive exactly when the run flag or the imperative flag is raised; flags are ordered |
| Heuristics.EmptyTextAssessment | promptguard/core/heuristics.py:10-37 | the empty prompt gets score 0 and no flag |
| Heuristics.LongPromptOnlyFlagged | promptguard/core/heuristics.py:17-19 | a long prompt with no run and at most two imperatives gets the long-prompt flag and a zero score |
| Heuristics.HeuristicsEngine.Analyze | promptguard/core/heuristics.py:9-37 | the result built step by step equals `Assessment(text)` |
| Detector.Category.Name | promptguard/core/detector.py:52 | the reported name is "custom" exactly for the custom bucket |
| Detector.FirstBadPattern | promptguard/core/detector.py:26-35 | there is no bad pattern exactly when every pattern compiles; otherwise it is the first pattern that fails |
| Detector.PromptGuard.constructor | promptguard/core/detector.py:19-35 | with no configuration the defaults apply; the compiled dictionary is the catalog in order, then "custom" when custom patterns are given, and nothing when pattern matching is off |
| Detector.NewPromptGuard | promptguard/core/detector.py:19-35 | construction fails exactly when a pattern does not compile, and then names the first one, catalog before custom; otherwise the engine is built as the constructor states |
| Detector.MatchedCount | promptguard/core/detector.py:47-55 | at most one count per category |
| Detector.PatternScore | promptguard/core/detector.py:51 | the pattern points are never negative |
| Detector.DetectedList | promptguard/core/detector.py:52 | one name per matched category |
| Properties.DeduplicatedSize | promptguard/core/detector.py:79 | `list(set(...))` is never longer than the list of appended names, and exactly as long when no name was appended twice |
| Detector.MatchLines | promptguard/core/detector.py:53 | one explanation line per matched category, each starting with "Matched pattern in category: " and followed by the category's `Display` label (`AttackType.JAILBREAK`, or `custom`) |
| Detector.TotalScore | promptguard/core/detector.py:61-66 | the capped total lies in [0, 10]; it is 0 exactly when both parts are 0; it is at least the capped pattern points and at most the pattern points plus 3 |
| Detector.Confidence | promptguard/core/detector.py:78 | confidence lies in (0, 1]; it is 1 for a zero score, above 0.1 otherwise, and a tenth of the score plus 0.1 up to a score of 9 |
| Detector.Combine | promptguard/core/detector.py:58-82 | the verdict's score lies in [0, 10]; it is suspicious exactly when the score is positive; confidence lies in (0, 1]; a zero score means full confidence and not suspicious, and the converse holds |
| Detector.PromptGuard.SearchCategory | promptguard/core/detector.py:48-54 | the inner loop reports a hit exactly when some pattern of the category is found |
| Detector.PromptGuard.MatchPatterns | promptguard/core/detector.py:46-55 | the loop adds 5 points, one name and one line per matched category, in dictionary order |
| Detector.PromptGuard.AddHeuristics | promptguard/core/detector.py:58-63 | adds three times the heuristics score, and the flags line when there are flags |
| Detector.PromptGuard.Analyze | promptguard/core/detector.py:37-82 | the verdict equals `Evaluate` of the compiled dictionary, the configuration and the text; `Evaluate` is the specification of `analyze` that the Properties lemmas describe |
| Properties.PatternScoreCountsCategories | promptguard/core/detector.py:47-55 | the pattern contribution is exactly 5 × the number of categories with a pattern found |
| Properties.DetectedExactlyMatched | promptguard/core/detector.py:47-52 | a name is detected exactly when a category of that name matched |
| Properties.DetectedCountsCategories | promptguard/core/detector.py:52-79 | with distinct category names, the deduplicated detections number exactly the matched categories |
| Properties.NameInjective | promptguard/core/detector.py:26-33 | distinct dictionary keys report distinct names |
| Properties.CompilePlanShape | promptguard/core/detector.py:24-35 | `CompilePlan`, the dictionary the constructor builds: nothing is compiled when matching is off; otherwise the catalog entries come in catalog order, then "custom" last and only for non-empty custom patterns; names are distinct; CONTEXT_POISONING never appears |
| Properties.DecideBands | promptguard/core/detector.py:69-73 | `Decide` gives BLOCK exactly when score ≥ block threshold, REVIEW exactly when review threshold ≤ score < block threshold, otherwise ALLOW; both comparisons are inclusive |
| Properties.DecideMonotone | promptguard/core/detector.py:69-73 | a higher score never gets a milder recommendation |
| Properties.InvertedThresholdsNeverReview | promptguard/core/detector.py:69-73 | with the block threshold at or below the review threshold, REVIEW never occurs |
| Properties.TotalScoreMonotone | promptguard/core/detector.py:51-66 | more pattern points or a higher heuristics score never lower the total |
| Properties.RiskScoreOnTenths | promptguard/core/detector.py:77 | the score is always a whole number of tenths between 0 and 10, so rounding to one decimal leaves it unchanged |
| Properties.HeuristicsAloneAllow | promptguard/core/detector.py:58-73 | with no category match the score is at most 3, so thresholds above 3 (defaults 7 and 4) give ALLOW |
| Properties.AnyMatchIsNotAllowed | promptguard/core/detector.py:46-73 | one match gives at least 5 and is suspicious, so not ALLOW when the review threshold is at most 5; two matches give 10, hence BLOCK for any block threshold up to 10 |
| Properties.NoSuspiciousContentIff | promptguard/core/detector.py:53-81 | `Explanation` gives the fixed message exactly when no category matched and heuristics raised no flag or were off; otherwise the explanation opens with a category line, and with the line of the first matched category in dictionary order when matching is on; with no category line it is exactly the heuristics line |
| Properties.FirstCategoryLineOpens | promptguard/core/detector.py:47-53 | the line of the first category (in dictionary order) with a pattern found in the text opens the explanation |
| Properties.MatchLinesInOrder | promptguard/core/detector.py:47-53 | the category lines follow dictionary order: the lines of any prefix of the dictionary are a prefix of all the lines |
| Properties.HeuristicsLineLast | promptguard/core/detector.py:58-63 | when heuristics are on and raise flags, the heuristics line ends the explanation, and with category lines the explanation is those lines, "; ", then the heuristics line |
| Properties.BenignText | promptguard/core/detector.py:41-82 | no match and no flag give score 0, not suspicious, confidence 1, no detections and the fixed message; ALLOW when both thresholds are positive |
| Properties.DisabledMatchingDetectsNothing | promptguard/core/detector.py:25-46 | with matching off nothing is compiled or detected, and the score is at most 3 |
| Properties.CatalogPatternFound | promptguard/core/detector.py:47-53 | a catalog pattern found in the text puts its category's value among the detections and the score at 5 or more |
| Properties.AtLeastOneMatch | promptguard/core/detector.py:51-52 | a detected name implies a matched category |
| Properties.ContextPoisoningNeverDetected | promptguard/core/detector.py:47-55 | for every configuration and text, `context_poisoning` is never among the verdict's detected patterns, because the catalog gives it no patterns |
| Properties.JailbreakWordFound | promptguard/core/patterns.py:39 | the word "jailbreak" in any case anywhere in the text is detected as `jailbreak` with a score of at least 5 |
| Properties.CustomLiteralFound | promptguard/core/detector.py:32-35 | a custom literal pattern found in the text is reported as "custom" and makes the text suspicious |
| Properties.AbracadabraOccurs | tests/test_detection.py:27 | "abracadabra" is a literal pattern and occurs in "Please say abracadabra" |
| Properties.AbracadabraIsCustom | tests/test_detection.py:24-29 | with custom pattern "abracadabra", "Please say abracadabra" is suspicious and reported as "custom" |
| Properties.AnalyzeTwice | promptguard/core/detector.py:37-82 | `analyze` writes no field, so two calls on the same text give the same verdict, the one `Evaluate` defines |

## Left out

- Regular expressions are not interpreted. `RegexLib` stands for Python's
  `re` module, and `re.error` at construction is `NewPromptGuard`'s error
  result. The patterns with operators (`.*`, `(?:...)`) therefore mean
  nothing beyond `lib.search`. The tests with such patterns
  (tests/test_detection.py:13-22) are covered only by
  `Properties.CatalogPatternFound`, under the assumption that the library
  finds the pattern.
- Scores and thresholds are exact reals, so IEEE-754 artefacts such as
  `0.3 * 3 = 0.8999…` are not modelled.
- Detector.PromptGuard.Analyze: `riskScore` holds the exact score rather than
  `round(score, 1)`. `Properties.RiskScoreOnTenths` shows the score is always
  a whole number of tenths, so the rounding changes nothing in exact
  arithmetic.
- `Text.Lower` folds only ASCII letters. Python's `str.lower` also folds
  other scripts, and can lengthen a string (for example, `'İ'` becomes two
  code points).
- Detector.PromptGuard.constructor: the configuration is captured by value.
  Python keeps a reference to the caller's mutable `Config` and `analyze`
  re-reads its switches and thresholds on every call, so a caller that changes
  that object after construction changes later verdicts (while the compiled
  patterns stay as built). That aliasing is not modelled; the design treats
  the configuration as fixed, and nothing in the source mutates it.
- `sensitivity`, `enable_context_validation` and `application_context` are
  inert fields of `Config`. The source never reads them.
- `detected_patterns` is returned as a set. Python's `list(set(...))` has no
  meaningful order.
- A catalog category is reported by its enum value. Python appends the
  `(str, Enum)` member itself, because `isinstance(category, str)` holds. That
  member compares and hashes equal to its value.
- The category label in an explanation line is the f-string rendering of
  Python 3.11 and later, `AttackType.JAILBREAK`. Older interpreters print the
  value `jailbreak`.
- Heuristics.HeuristicsEngine.HasRepetitiveChars: the `threshold` parameter is
  modelled for every integer. `analyze` only ever uses the default of 15.
- There is no concrete-string example of the imperative count, such as five
  `ignore` tokens giving 0.9. The five-imperative case is stated by
  `Heuristics.HeuristicScore` over the count. Tokenising a literal string
  costs the verifier too much.
- The command-line tool (`promptguard/cli/main.py`), the HTTP API
  (`promptguard/api/server.py`, `examples/fastapi_integration.py`), the demo
  UI and the usage examples are not part of this model. They are
  input/output wrappers around `analyze`.
