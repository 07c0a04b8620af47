/** The detector: compiles the catalog and the caller's custom patterns once,
    then scores each text by pattern categories and heuristics, caps the
    score at 10 and turns it into a recommendation. */
module Detector {
  import opened Wrappers
  import opened Text
  import opened Regex
  import opened Patterns
  import opened Heuristics

  // ---------------------------------------------------------------------
  // Data

  /** A key of the compiled-pattern dictionary: a catalog attack type, or the
      bucket that holds the caller's own patterns. */
  datatype Category = Catalog(attack: AttackType) | Custom
  {
    /** The string reported in `detected_patterns`. */
    function Name(): (s: string)
      ensures s == "custom" <==> Custom?
    {
      match this
      case Catalog(a) => a.Value()
      case Custom => "custom"
    }

    /** The category as an f-string renders it in an explanation line. */
    function Display(): string
    {
      match this
      case Catalog(a) => a.Display()
      case Custom => "custom"
    }
  }

  /** One dictionary entry: a category and its compiled patterns, in order. */
  datatype CompiledCategory = CompiledCategory(category: Category, patterns: seq<string>)

  /** The engine's configuration. `sensitivity`, `enableContextValidation`
      and `applicationContext` are carried but never read. */
  datatype Config = Config(
    sensitivity: real,
    enablePatternMatching: bool,
    enableHeuristics: bool,
    enableContextValidation: bool,
    customPatterns: seq<string>,
    applicationContext: Option<string>,
    blockThreshold: real,
    reviewThreshold: real)

  const DefaultConfig: Config := Config(0.7, true, true, false, [], None, 7.0, 4.0)

  datatype Recommendation = Allow | Review | Block
  {
    function Name(): string
    {
      match this
      case Allow => "ALLOW"
      case Review => "REVIEW"
      case Block => "BLOCK"
    }

    /** How strongly the recommendation advises against the text. */
    function Severity(): nat
    {
      match this
      case Allow => 0
      case Review => 1
      case Block => 2
    }
  }

  /** The dictionary `analyze` returns. `riskScore` holds the exact score. */
  datatype Verdict = Verdict(
    isSuspicious: bool,
    riskScore: real,
    confidence: real,
    detectedPatterns: set<string>,
    recommendation: Recommendation,
    explanation: string)

  const MatchPrefix: string := "Matched pattern in category: "
  const FlagsPrefix: string := "Heuristics flags: "
  const NoSuspiciousContent: string := "No suspicious content detected"

  // ---------------------------------------------------------------------
  // Construction

  /** The catalog entries, each under its attack type, in catalog order. */
  function CatalogCategories(): seq<CompiledCategory>
  {
    seq(|AttackPatterns|, i requires 0 <= i < |AttackPatterns| =>
      CompiledCategory(Catalog(AttackPatterns[i].0), AttackPatterns[i].1))
  }

  /** What the constructor stores in `_compiled_patterns` for `config`. */
  function CompilePlan(config: Config): seq<CompiledCategory>
  {
    if !config.enablePatternMatching then []
    else
      CatalogCategories()
      + (if config.customPatterns != [] then [CompiledCategory(Custom, config.customPatterns)] else [])
  }

  /** Every pattern of `cs`, in the order the constructor compiles them. */
  function AllPatterns(cs: seq<CompiledCategory>): seq<string>
  {
    if cs == [] then [] else cs[0].patterns + AllPatterns(cs[1..])
  }

  /** The first pattern of `ps` that fails to compile, if any. */
  function FirstBadPattern(lib: RegexLib, ps: seq<string>): (r: Option<string>)
    ensures r.None? <==> forall k :: 0 <= k < |ps| ==> lib.compiles(ps[k])
    ensures r.Some? ==> exists k :: 0 <= k < |ps| && ps[k] == r.value && !lib.compiles(ps[k])
                          && forall m :: 0 <= m < k ==> lib.compiles(ps[m])
  {
    if ps == [] then None
    else if !lib.compiles(ps[0]) then Some(ps[0])
    else FirstBadPattern(lib, ps[1..])
  }

  /** The `re.error` that construction raises, if any. */
  function CompileError(config: Config, lib: RegexLib): Option<string>
  {
    FirstBadPattern(lib, AllPatterns(CompilePlan(config)))
  }

  function Resolve(config: Option<Config>): Config
  {
    if config.Some? then config.value else DefaultConfig
  }

  // ---------------------------------------------------------------------
  // Pattern layer, as the loop of `analyze` accumulates it over `cs`

  /** Some pattern of the category is found in the text. */
  predicate CategoryMatches(cc: CompiledCategory, search: (string, string) -> bool, text: string)
  {
    exists p :: p in cc.patterns && search(p, text)
  }

  function MatchedCount(cs: seq<CompiledCategory>, search: (string, string) -> bool, text: string): (n: nat)
    ensures n <= |cs|
  {
    if cs == [] then 0
    else MatchedCount(cs[..|cs| - 1], search, text) + (if CategoryMatches(cs[|cs| - 1], search, text) then 1 else 0)
  }

  /** The score of the pattern layer, five points per matched category, as
      the loop adds it up. */
  function PatternScore(cs: seq<CompiledCategory>, search: (string, string) -> bool, text: string): (score: real)
    ensures 0.0 <= score
  {
    if cs == [] then 0.0
    else PatternScore(cs[..|cs| - 1], search, text) + (if CategoryMatches(cs[|cs| - 1], search, text) then 5.0 else 0.0)
  }

  /** `detected_patterns` before deduplication: the name of every matched
      category, in dictionary order. */
  function DetectedList(cs: seq<CompiledCategory>, search: (string, string) -> bool, text: string): (names: seq<string>)
    ensures |names| == MatchedCount(cs, search, text)
  {
    if cs == [] then []
    else
      DetectedList(cs[..|cs| - 1], search, text)
      + (if CategoryMatches(cs[|cs| - 1], search, text) then [cs[|cs| - 1].category.Name()] else [])
  }

  /** `list(set(names))`, kept as the set: Python gives its order no meaning. */
  function Deduplicated(names: seq<string>): set<string>
  {
    set x | x in names
  }

  function MatchLine(c: Category): string
  {
    MatchPrefix + c.Display()
  }

  function MatchLines(cs: seq<CompiledCategory>, search: (string, string) -> bool, text: string): (lines: seq<string>)
    ensures |lines| == MatchedCount(cs, search, text)
    ensures forall k :: 0 <= k < |lines| ==> MatchPrefix <= lines[k]
  {
    if cs == [] then []
    else
      MatchLines(cs[..|cs| - 1], search, text)
      + (if CategoryMatches(cs[|cs| - 1], search, text) then [MatchLine(cs[|cs| - 1].category)] else [])
  }

  function FlagNames(flags: seq<Flag>): seq<string>
  {
    seq(|flags|, i requires 0 <= i < |flags| => flags[i].Name())
  }

  function HeuristicsLine(flags: seq<Flag>): string
  {
    FlagsPrefix + Join(", ", FlagNames(flags))
  }

  // ---------------------------------------------------------------------
  // Score and decision

  /** The capped total of the pattern points and the heuristics sub-score,
      which counts for at most three points. */
  function TotalScore(patternScore: real, heuristicScore: real): (score: real)
    requires 0.0 <= patternScore && 0.0 <= heuristicScore <= 1.0
    ensures 0.0 <= score <= 10.0
    ensures score == 0.0 <==> patternScore == 0.0 && heuristicScore == 0.0
    ensures score >= Min(patternScore, 10.0)
    ensures score <= patternScore + 3.0
  {
    Min(patternScore + heuristicScore * 3.0, 10.0)
  }

  function Decide(score: real, config: Config): Recommendation
  {
    if score >= config.blockThreshold then Block
    else if score >= config.reviewThreshold then Review
    else Allow
  }

  /** The crude confidence: full for a zero score, otherwise a tenth of the
      score plus 0.1, capped at 1. */
  function Confidence(score: real): (c: real)
    requires score >= 0.0
    ensures 0.0 < c <= 1.0
    ensures score == 0.0 ==> c == 1.0
    ensures 0.0 < score ==> 0.1 < c
    ensures 0.0 < score <= 9.0 ==> c * 10.0 == score + 1.0
  {
    if score > 0.0 then Min(score / 10.0 + 0.1, 1.0) else 1.0
  }

  function Explanation(lines: seq<string>): string
  {
    if lines != [] then Join("; ", lines) else NoSuspiciousContent
  }

  /** The verdict made from the outputs of the two layers: the points of
      the matched categories, their names and explanation lines, and the
      heuristics result (ignored when heuristics are disabled). */
  function Combine(config: Config, patternScore: real, detected: set<string>, matchLines: seq<string>, h: HeuristicResult): (v: Verdict)
    requires 0.0 <= patternScore && 0.0 <= h.score <= 1.0
    ensures 0.0 <= v.riskScore <= 10.0
    ensures v.isSuspicious <==> v.riskScore > 0.0
    ensures 0.0 < v.confidence <= 1.0
    ensures v.riskScore == 0.0 <==> v.confidence == 1.0 && !v.isSuspicious
    ensures v.detectedPatterns == detected
  {
    var score := TotalScore(patternScore, if config.enableHeuristics then h.score else 0.0);
    var lines := matchLines + (if config.enableHeuristics && h.flags != [] then [HeuristicsLine(h.flags)] else []);
    Verdict(score > 0.0, score, Confidence(score), detected, Decide(score, config), Explanation(lines))
  }

  /** The verdict `analyze` gives `text`, for the compiled dictionary `cs`. */
  ghost function Evaluate(cs: seq<CompiledCategory>, config: Config, search: (string, string) -> bool, text: string): Verdict
  {
    if config.enablePatternMatching then
      Combine(config, PatternScore(cs, search, text), Deduplicated(DetectedList(cs, search, text)), MatchLines(cs, search, text), Assessment(text))
    else
      Combine(config, 0.0, {}, [], Assessment(text))
  }

  /** The verdict of the layers' outputs, written as `analyze` finishes it:
      the raw total capped at 10, then the decision and the summary fields. */
  lemma CombineFromTotal(config: Config, patternScore: real, detected: set<string>, matchLines: seq<string>,
                         h: HeuristicResult, total: real, lines: seq<string>)
    requires 0.0 <= patternScore && 0.0 <= h.score <= 1.0
    requires total == patternScore + (if config.enableHeuristics then h.score * 3.0 else 0.0)
    requires lines == matchLines + (if config.enableHeuristics && h.flags != [] then [HeuristicsLine(h.flags)] else [])
    ensures var score := Min(total, 10.0);
      Combine(config, patternScore, detected, matchLines, h)
      == Verdict(score > 0.0, score, Confidence(score), detected, Decide(score, config), Explanation(lines))
  {
  }

  /** `Evaluate` is the verdict of the pattern layer's outputs for `cs`, or of
      nothing when the layer is off. */
  lemma EvaluateFromLayers(cs: seq<CompiledCategory>, config: Config, search: (string, string) -> bool, text: string,
                           patternScore: real, detected: seq<string>, matchLines: seq<string>)
    requires config.enablePatternMatching ==>
      patternScore == PatternScore(cs, search, text) && detected == DetectedList(cs, search, text)
      && matchLines == MatchLines(cs, search, text)
    requires !config.enablePatternMatching ==> patternScore == 0.0 && detected == [] && matchLines == []
    ensures 0.0 <= patternScore
    ensures Evaluate(cs, config, search, text) == Combine(config, patternScore, Deduplicated(detected), matchLines, Assessment(text))
  {
    if !config.enablePatternMatching {
      assert Deduplicated(detected) == {};
    }
  }

  // ---------------------------------------------------------------------
  // The engine

  class PromptGuard {
    const config: Config
    const lib: RegexLib
    const heuristics: HeuristicsEngine
    /** `_compiled_patterns`: filled once here, only read afterwards. */
    const compiledPatterns: seq<CompiledCategory>

    /** Builds the engine when every pattern compiles (see `NewPromptGuard`
        for the failing case). With no configuration the defaults apply. */
    constructor (config: Option<Config>, lib: RegexLib)
      requires CompileError(Resolve(config), lib).None?
      ensures this.config == Resolve(config) && this.lib == lib
      ensures compiledPatterns == CompilePlan(this.config)
    {
      var cfg := Resolve(config);
      var compiled: seq<CompiledCategory> := [];
      if cfg.enablePatternMatching {
        for i := 0 to |AttackPatterns|
          invariant compiled == CatalogCategories()[..i]
        {
          var (attack, patterns) := AttackPatterns[i];
          compiled := compiled + [CompiledCategory(Catalog(attack), patterns)];
        }
        if cfg.customPatterns != [] {
          compiled := compiled + [CompiledCategory(Custom, cfg.customPatterns)];
        }
      }
      this.config := cfg;
      this.lib := lib;
      this.heuristics := new HeuristicsEngine();
      this.compiledPatterns := compiled;
    }

    /** Layer 1 of `analyze`: every compiled category in dictionary order,
        each counted once, at its first pattern found in `text`. */
    method MatchPatterns(text: string) returns (score: real, detected: seq<string>, explanation: seq<string>)
      ensures score == PatternScore(compiledPatterns, lib.search, text)
      ensures detected == DetectedList(compiledPatterns, lib.search, text)
      ensures explanation == MatchLines(compiledPatterns, lib.search, text)
    {
      score, detected, explanation := 0.0, [], [];
      for i := 0 to |compiledPatterns|
        invariant score == PatternScore(compiledPatterns[..i], lib.search, text)
        invariant detected == DetectedList(compiledPatterns[..i], lib.search, text)
        invariant explanation == MatchLines(compiledPatterns[..i], lib.search, text)
      {
        var cc := compiledPatterns[i];
        var found := SearchCategory(cc, text);
        if found {
          score := score + 5.0;
          detected := detected + [cc.category.Name()];
          explanation := explanation + [MatchLine(cc.category)];
        }
        assert compiledPatterns[..i + 1][..i] == compiledPatterns[..i];
      }
      assert compiledPatterns[..|compiledPatterns|] == compiledPatterns;
    }

    /** The inner loop of layer 1: tries the category's patterns in order and
        stops at the first one found. */
    method SearchCategory(cc: CompiledCategory, text: string) returns (found: bool)
      ensures found <==> CategoryMatches(cc, lib.search, text)
    {
      for j := 0 to |cc.patterns|
        invariant forall k :: 0 <= k < j ==> !lib.search(cc.patterns[k], text)
      {
        if lib.search(cc.patterns[j], text) {
          return true;
        }
      }
      return false;
    }

    /** Layer 2 of `analyze`: adds the heuristics sub-score, scaled to at
        most three points, and a line naming the flags when there are any. */
    method AddHeuristics(text: string, score: real, explanation: seq<string>) returns (score': real, explanation': seq<string>)
      ensures var h := Assessment(text);
        && score' == score + h.score * 3.0
        && explanation' == explanation + (if h.flags != [] then [HeuristicsLine(h.flags)] else [])
    {
      var result := heuristics.Analyze(text);
      score' := score + result.score * 3.0;
      explanation' := explanation;
      if result.flags != [] {
        explanation' := explanation' + [HeuristicsLine(result.flags)];
      }
    }

    /** Scores `text`. Reads the engine and changes nothing. */
    method Analyze(text: string) returns (v: Verdict)
      ensures v == Evaluate(compiledPatterns, config, lib.search, text)
    {
      var score := 0.0;
      var detected: seq<string> := [];
      var explanation: seq<string> := [];

      // Layer 1: pattern matching.
      if config.enablePatternMatching {
        score, detected, explanation := MatchPatterns(text);
      }
      ghost var patternScore, matchLines := score, explanation;
      EvaluateFromLayers(compiledPatterns, config, lib.search, text, patternScore, detected, matchLines);

      // Layer 2: heuristics.
      if config.enableHeuristics {
        score, explanation := AddHeuristics(text, score, explanation);
      }
      CombineFromTotal(config, patternScore, Deduplicated(detected), matchLines, Assessment(text), score, explanation);

      score := Min(score, 10.0);
      var recommendation := Decide(score, config);
      v := Verdict(score > 0.0, score, Confidence(score), Deduplicated(detected), recommendation, Explanation(explanation));
    }
  }

  /** `PromptGuard(config)` with the compilation error made explicit: the
      first pattern, catalog first and custom last, that `re` rejects. */
  method NewPromptGuard(config: Option<Config>, lib: RegexLib) returns (r: Result<PromptGuard, string>)
    ensures r.Err? <==> CompileError(Resolve(config), lib).Some?
    ensures r.Err? ==> r.error == CompileError(Resolve(config), lib).value
    ensures r.Ok? ==> fresh(r.value) && r.value.config == Resolve(config) && r.value.lib == lib
                      && r.value.compiledPatterns == CompilePlan(Resolve(config))
  {
    var bad := CompileError(Resolve(config), lib);
    if bad.Some? {
      return Err(bad.value);
    }
    var guard := new PromptGuard(config, lib);
    return Ok(guard);
  }

}
