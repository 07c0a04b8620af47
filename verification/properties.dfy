/** What a verdict of the detector says about the text: how the score is made
    up, when a text is allowed, what the configuration switches do, and how
    the catalog order carries through to the compiled dictionary. */
module Properties {
  import opened Text
  import opened Regex
  import opened Patterns
  import opened Heuristics
  import opened Detector

  // ---------------------------------------------------------------------
  // The pattern layer

  /** Five points per matched category, each category counted once. */
  lemma {:induction false} PatternScoreCountsCategories(cs: seq<CompiledCategory>, search: (string, string) -> bool, text: string)
    ensures PatternScore(cs, search, text) == 5.0 * (MatchedCount(cs, search, text) as real)
    decreases |cs|
  {
    if cs != [] {
      PatternScoreCountsCategories(cs[..|cs| - 1], search, text);
    }
  }

  /** Some category of `cs` named `x` has a pattern found in the text. */
  ghost predicate MatchedName(cs: seq<CompiledCategory>, search: (string, string) -> bool, text: string, x: string)
  {
    exists i :: 0 <= i < |cs| && cs[i].category.Name() == x && CategoryMatches(cs[i], search, text)
  }

  /** A name is reported exactly when a category of that name matched. */
  lemma {:induction false} DetectedExactlyMatched(cs: seq<CompiledCategory>, search: (string, string) -> bool, text: string, x: string)
    ensures x in DetectedList(cs, search, text) <==> MatchedName(cs, search, text, x)
    decreases |cs|
  {
    if cs != [] {
      var n := |cs| - 1;
      var front := cs[..n];
      DetectedExactlyMatched(front, search, text, x);
      if MatchedName(front, search, text, x) {
        var i :| 0 <= i < |front| && front[i].category.Name() == x && CategoryMatches(front[i], search, text);
        assert cs[i] == front[i];
      }
      if MatchedName(cs, search, text, x) {
        var i :| 0 <= i < |cs| && cs[i].category.Name() == x && CategoryMatches(cs[i], search, text);
        if i < n {
          assert front[i] == cs[i];
        }
      }
    }
  }

  /** Deduplication never adds names and, on a list without repeats, loses
      none: the set is at most as large as the list, and exactly as large
      when no name occurs twice. */
  lemma {:induction false} DeduplicatedSize(names: seq<string>)
    ensures |Deduplicated(names)| <= |names|
    ensures (forall i, j :: 0 <= i < j < |names| ==> names[i] != names[j]) ==> |Deduplicated(names)| == |names|
    decreases |names|
  {
    if names != [] {
      var n := |names| - 1;
      var front := names[..n];
      DeduplicatedSize(front);
      assert Deduplicated(names) == Deduplicated(front) + {names[n]};
      if forall i, j :: 0 <= i < j < |names| ==> names[i] != names[j] {
        assert forall i, j :: 0 <= i < j < |front| ==> front[i] != front[j] by {
          forall i, j | 0 <= i < j < |front| ensures front[i] != front[j] {
            assert front[i] == names[i] && front[j] == names[j];
          }
        }
        assert names[n] !in Deduplicated(front);
      }
    }
  }

  /** No two entries of `cs` report the same name. */
  ghost predicate DistinctNames(cs: seq<CompiledCategory>)
  {
    forall i, j :: 0 <= i < j < |cs| ==> cs[i].category.Name() != cs[j].category.Name()
  }

  /** When the names are distinct, deduplication loses nothing: one name per
      matched category. */
  lemma {:induction false} DetectedCountsCategories(cs: seq<CompiledCategory>, search: (string, string) -> bool, text: string)
    requires DistinctNames(cs)
    ensures |Deduplicated(DetectedList(cs, search, text))| == MatchedCount(cs, search, text)
    decreases |cs|
  {
    if cs != [] {
      var n := |cs| - 1;
      var front := cs[..n];
      assert DistinctNames(front) by {
        forall i, j | 0 <= i < j < |front|
          ensures front[i].category.Name() != front[j].category.Name()
        {
          assert front[i] == cs[i] && front[j] == cs[j];
        }
      }
      DetectedCountsCategories(front, search, text);
      var before := DetectedList(front, search, text);
      if CategoryMatches(cs[n], search, text) {
        var name := cs[n].category.Name();
        DetectedExactlyMatched(front, search, text, name);
        assert name !in before;
        assert DetectedList(cs, search, text) == before + [name];
        assert Deduplicated(before + [name]) == Deduplicated(before) + {name};
      } else {
        assert DetectedList(cs, search, text) == before;
      }
    }
  }

  // ---------------------------------------------------------------------
  // The compiled dictionary

  /** Catalog names are the attack types' values, and "custom" is none of them. */
  lemma NameInjective(a: Category, b: Category)
    ensures a.Name() == b.Name() ==> a == b
  {
    if a.Catalog? && b.Catalog? {
      ValueInjective(a.attack, b.attack);
    }
  }

  /** What the constructor compiles: nothing when matching is off; otherwise
      the catalog entries in catalog order, then the custom bucket, last and
      only when custom patterns were given. No name occurs twice and the
      pattern-less `CONTEXT_POISONING` never appears. */
  lemma CompilePlanShape(config: Config)
    ensures !config.enablePatternMatching ==> CompilePlan(config) == []
    ensures config.enablePatternMatching ==>
      |CompilePlan(config)| == |AttackPatterns| + (if config.customPatterns != [] then 1 else 0)
    ensures config.enablePatternMatching ==> forall i :: 0 <= i < |AttackPatterns| ==>
      CompilePlan(config)[i] == CompiledCategory(Catalog(AttackPatterns[i].0), AttackPatterns[i].1)
    ensures config.enablePatternMatching && config.customPatterns != [] ==>
      CompilePlan(config)[|AttackPatterns|] == CompiledCategory(Custom, config.customPatterns)
    ensures forall i :: 0 <= i < |CompilePlan(config)| && CompilePlan(config)[i].category == Custom ==>
      i == |AttackPatterns| && config.customPatterns != []
    ensures forall i :: 0 <= i < |CompilePlan(config)| ==> CompilePlan(config)[i].category != Catalog(ContextPoisoning)
    ensures DistinctNames(CompilePlan(config))
  {
    CatalogKeys();
    var cs := CompilePlan(config);
    forall i, j | 0 <= i < j < |cs|
      ensures cs[i].category.Name() != cs[j].category.Name()
    {
      NameInjective(cs[i].category, cs[j].category);
    }
  }

  /** `CONTEXT_POISONING` has no patterns, so no verdict ever reports it. */
  lemma ContextPoisoningNeverDetected(config: Config, search: (string, string) -> bool, text: string)
    ensures ContextPoisoning.Value() !in Evaluate(CompilePlan(config), config, search, text).detectedPatterns
  {
    var cs := CompilePlan(config);
    var x := ContextPoisoning.Value();
    if config.enablePatternMatching {
      CompilePlanShape(config);
      DetectedExactlyMatched(cs, search, text, x);
      if MatchedName(cs, search, text, x) {
        var i :| 0 <= i < |cs| && cs[i].category.Name() == x && CategoryMatches(cs[i], search, text);
        NameInjective(cs[i].category, Catalog(ContextPoisoning));
        assert false;
      }
    }
  }

  // ---------------------------------------------------------------------
  // Score and recommendation

  /** The thresholds split the score line into three inclusive bands. */
  lemma DecideBands(score: real, config: Config)
    ensures Decide(score, config) == Block <==> score >= config.blockThreshold
    ensures Decide(score, config) == Review <==> config.reviewThreshold <= score < config.blockThreshold
    ensures Decide(score, config) == Allow <==> score < config.reviewThreshold && score < config.blockThreshold
  {
  }

  /** A higher score never gets a milder recommendation. */
  lemma DecideMonotone(s1: real, s2: real, config: Config)
    requires s1 <= s2
    ensures Decide(s1, config).Severity() <= Decide(s2, config).Severity()
  {
  }

  /** With the block threshold at or below the review threshold, REVIEW is
      never given. */
  lemma InvertedThresholdsNeverReview(score: real, config: Config)
    requires config.blockThreshold <= config.reviewThreshold
    ensures Decide(score, config) != Review
  {
  }

  /** More pattern points or a higher heuristics sub-score never lower the score. */
  lemma TotalScoreMonotone(p1: real, h1: real, p2: real, h2: real)
    requires 0.0 <= p1 <= p2 && 0.0 <= h1 <= h2 <= 1.0
    ensures TotalScore(p1, h1) <= TotalScore(p2, h2)
  {
  }

  /** The score of a verdict. */
  ghost function RiskScore(cs: seq<CompiledCategory>, config: Config, search: (string, string) -> bool, text: string): real
  {
    Evaluate(cs, config, search, text).riskScore
  }

  /** `k` tenths. */
  function Tenths(k: nat): real
  {
    (k as real) / 10.0
  }

  /** The unrounded score is always a whole number of tenths, so rounding it
      to one decimal, as `risk_score` does, changes nothing in exact arithmetic. */
  lemma RiskScoreOnTenths(cs: seq<CompiledCategory>, config: Config, search: (string, string) -> bool, text: string)
    ensures exists k: nat :: k <= 100 && RiskScore(cs, config, search, text) == Tenths(k)
  {
    var m := if config.enablePatternMatching then MatchedCount(cs, search, text) else 0;
    if config.enablePatternMatching {
      PatternScoreCountsCategories(cs, search, text);
    }
    var repetitive := HasRun(text, RepetitionThreshold);
    var count: int := ImperativeCount(text);
    var raw: int := (if repetitive then 2 else 0) + 3 * Max(count - 2, 0);
    var t := if raw <= 10 then raw else 10;
    assert Assessment(text).score == (t as real) / 10.0;
    var hs := if config.enableHeuristics then t else 0;
    var total := 50 * m + 3 * hs;
    var k: nat := if total <= 100 then total else 100;
    assert RiskScore(cs, config, search, text) == Tenths(k);
  }

  /** Without a category match the heuristics give at most three points, so
      a text is allowed whenever both thresholds lie above 3 (the defaults
      are 7 and 4). */
  lemma HeuristicsAloneAllow(cs: seq<CompiledCategory>, config: Config, search: (string, string) -> bool, text: string)
    requires !config.enablePatternMatching || MatchedCount(cs, search, text) == 0
    ensures Evaluate(cs, config, search, text).riskScore <= 3.0
    ensures config.reviewThreshold > 3.0 && config.blockThreshold > 3.0 ==>
      Evaluate(cs, config, search, text).recommendation == Allow
  {
    PatternScoreCountsCategories(cs, search, text);
  }

  /** One matched category gives at least five points, so a review threshold
      of at most 5 (the default is 4) rules out ALLOW; two give the full ten
      points, which reach any block threshold up to 10 (the default is 7). */
  lemma AnyMatchIsNotAllowed(cs: seq<CompiledCategory>, config: Config, search: (string, string) -> bool, text: string)
    requires config.enablePatternMatching && MatchedCount(cs, search, text) >= 1
    ensures Evaluate(cs, config, search, text).riskScore >= 5.0
    ensures Evaluate(cs, config, search, text).isSuspicious
    ensures config.reviewThreshold <= 5.0 ==> Evaluate(cs, config, search, text).recommendation != Allow
    ensures MatchedCount(cs, search, text) >= 2 ==> Evaluate(cs, config, search, text).riskScore == 10.0
    ensures MatchedCount(cs, search, text) >= 2 && config.blockThreshold <= 10.0 ==>
      Evaluate(cs, config, search, text).recommendation == Block
  {
    PatternScoreCountsCategories(cs, search, text);
  }

  // ---------------------------------------------------------------------
  // Explanation and benign text

  /** The fixed message appears exactly when no category matched and the
      heuristics raised no flag or were off; otherwise the explanation opens
      with the first category line, or with the heuristics line. */
  lemma NoSuspiciousContentIff(cs: seq<CompiledCategory>, config: Config, search: (string, string) -> bool, text: string)
    ensures Evaluate(cs, config, search, text).explanation == NoSuspiciousContent
      <==> (!config.enablePatternMatching || MatchedCount(cs, search, text) == 0)
           && (!config.enableHeuristics || Assessment(text).flags == [])
    ensures config.enablePatternMatching && MatchedCount(cs, search, text) > 0 ==>
      MatchPrefix <= Evaluate(cs, config, search, text).explanation
    ensures forall i :: config.enablePatternMatching && 0 <= i < |cs| && CategoryMatches(cs[i], search, text)
                        && (forall j :: 0 <= j < i ==> !CategoryMatches(cs[j], search, text)) ==>
      MatchLine(cs[i].category) <= Evaluate(cs, config, search, text).explanation
    ensures (!config.enablePatternMatching || MatchedCount(cs, search, text) == 0)
            && config.enableHeuristics && Assessment(text).flags != [] ==>
      Evaluate(cs, config, search, text).explanation == HeuristicsLine(Assessment(text).flags)
  {
    var h := Assessment(text);
    var matchLines := if config.enablePatternMatching then MatchLines(cs, search, text) else [];
    var lines := matchLines + (if config.enableHeuristics && h.flags != [] then [HeuristicsLine(h.flags)] else []);
    assert Evaluate(cs, config, search, text).explanation == Explanation(lines);
    forall i | config.enablePatternMatching && 0 <= i < |cs| && CategoryMatches(cs[i], search, text)
               && (forall j :: 0 <= j < i ==> !CategoryMatches(cs[j], search, text))
      ensures MatchLine(cs[i].category) <= Evaluate(cs, config, search, text).explanation
    {
      FirstCategoryLineOpens(cs, config, search, text, i);
    }
    if lines != [] {
      var first := lines[0];
      assert MatchPrefix <= first || FlagsPrefix <= first;
      assert first <= Join("; ", lines);
      assert Join("; ", lines)[0] == first[0];
      assert Join("; ", lines) != NoSuspiciousContent by {
        assert NoSuspiciousContent[0] == 'N';
      }
    }
  }

  /** No matched category, no explanation line. */
  lemma {:induction false} NoMatchNoLines(cs: seq<CompiledCategory>, search: (string, string) -> bool, text: string)
    requires forall j :: 0 <= j < |cs| ==> !CategoryMatches(cs[j], search, text)
    ensures MatchLines(cs, search, text) == []
    decreases |cs|
  {
    if cs != [] {
      var front := cs[..|cs| - 1];
      assert forall j :: 0 <= j < |front| ==> front[j] == cs[j];
      NoMatchNoLines(front, search, text);
    }
  }

  /** The first category (in dictionary order) with a pattern found in the
      text gives the first explanation line. */
  lemma {:induction false} FirstMatchLine(cs: seq<CompiledCategory>, search: (string, string) -> bool, text: string, i: nat)
    requires i < |cs| && CategoryMatches(cs[i], search, text)
    requires forall j :: 0 <= j < i ==> !CategoryMatches(cs[j], search, text)
    ensures MatchLines(cs, search, text) != []
    ensures MatchLines(cs, search, text)[0] == MatchLine(cs[i].category)
    decreases |cs|
  {
    var n := |cs| - 1;
    var front := cs[..n];
    if i == n {
      assert forall j :: 0 <= j < |front| ==> front[j] == cs[j];
      NoMatchNoLines(front, search, text);
    } else {
      assert forall j :: 0 <= j <= i ==> front[j] == cs[j];
      FirstMatchLine(front, search, text, i);
    }
  }

  /** The line of the first matched category opens the explanation. */
  lemma FirstCategoryLineOpens(cs: seq<CompiledCategory>, config: Config, search: (string, string) -> bool, text: string, i: nat)
    requires config.enablePatternMatching && i < |cs| && CategoryMatches(cs[i], search, text)
    requires forall j :: 0 <= j < i ==> !CategoryMatches(cs[j], search, text)
    ensures MatchLine(cs[i].category) <= Evaluate(cs, config, search, text).explanation
  {
    FirstMatchLine(cs, search, text, i);
    var h := Assessment(text);
    var lines := MatchLines(cs, search, text) + (if config.enableHeuristics && h.flags != [] then [HeuristicsLine(h.flags)] else []);
    assert Evaluate(cs, config, search, text).explanation == Join("; ", lines);
    assert lines[0] == MatchLine(cs[i].category);
  }

  /** The category lines follow dictionary order: the lines of a prefix of
      the dictionary are a prefix of the lines of the whole. */
  lemma {:induction false} MatchLinesInOrder(cs: seq<CompiledCategory>, search: (string, string) -> bool, text: string, m: nat)
    requires m <= |cs|
    ensures MatchLines(cs[..m], search, text) <= MatchLines(cs, search, text)
    decreases |cs| - m
  {
    if m < |cs| {
      var front := cs[..|cs| - 1];
      assert front[..m] == cs[..m];
      MatchLinesInOrder(front, search, text, m);
    } else {
      assert cs[..m] == cs;
    }
  }

  /** When heuristics are on and raise flags, their line closes the
      explanation, after the category lines and a "; " separator. */
  lemma HeuristicsLineLast(cs: seq<CompiledCategory>, config: Config, search: (string, string) -> bool, text: string)
    requires config.enableHeuristics && Assessment(text).flags != []
    ensures var e := Evaluate(cs, config, search, text).explanation;
      var line := HeuristicsLine(Assessment(text).flags);
      |line| <= |e| && e[|e| - |line|..] == line
    ensures config.enablePatternMatching && MatchLines(cs, search, text) != [] ==>
      Evaluate(cs, config, search, text).explanation
      == Join("; ", MatchLines(cs, search, text)) + "; " + HeuristicsLine(Assessment(text).flags)
  {
    var matchLines := if config.enablePatternMatching then MatchLines(cs, search, text) else [];
    var line := HeuristicsLine(Assessment(text).flags);
    JoinSnoc("; ", matchLines, line);
    assert Evaluate(cs, config, search, text).explanation == Join("; ", matchLines + [line]);
  }

  /** A text that matches no category and raises no heuristic flag gets a
      zero score, full confidence, no detections and the fixed message, and
      is allowed as long as both thresholds are positive. */
  lemma BenignText(cs: seq<CompiledCategory>, config: Config, search: (string, string) -> bool, text: string)
    requires !config.enablePatternMatching || MatchedCount(cs, search, text) == 0
    requires !config.enableHeuristics || Assessment(text).flags == []
    ensures var v := Evaluate(cs, config, search, text);
      && !v.isSuspicious && v.riskScore == 0.0 && v.confidence == 1.0
      && v.detectedPatterns == {} && v.explanation == NoSuspiciousContent
    ensures config.reviewThreshold > 0.0 && config.blockThreshold > 0.0 ==>
      Evaluate(cs, config, search, text).recommendation == Allow
  {
    PatternScoreCountsCategories(cs, search, text);
    NoSuspiciousContentIff(cs, config, search, text);
    if config.enablePatternMatching {
      assert |DetectedList(cs, search, text)| == 0;
    }
  }

  /** With pattern matching off nothing is compiled, nothing is detected and
      the heuristics alone decide the score. */
  lemma DisabledMatchingDetectsNothing(config: Config, search: (string, string) -> bool, text: string)
    requires !config.enablePatternMatching
    ensures CompilePlan(config) == []
    ensures Evaluate(CompilePlan(config), config, search, text).detectedPatterns == {}
    ensures Evaluate(CompilePlan(config), config, search, text).riskScore <= 3.0
  {
  }

  // ---------------------------------------------------------------------
  // Matches found by the regular-expression library

  /** A catalog pattern found in the text puts its category among the
      detections and the score at 5 or more. */
  lemma CatalogPatternFound(config: Config, lib: RegexLib, text: string, i: nat, k: nat)
    requires config.enablePatternMatching
    requires i < |AttackPatterns| && k < |AttackPatterns[i].1|
    requires lib.search(AttackPatterns[i].1[k], text)
    ensures AttackPatterns[i].0.Value() in Evaluate(CompilePlan(config), config, lib.search, text).detectedPatterns
    ensures Evaluate(CompilePlan(config), config, lib.search, text).riskScore >= 5.0
  {
    var cs := CompilePlan(config);
    CompilePlanShape(config);
    assert CategoryMatches(cs[i], lib.search, text);
    DetectedExactlyMatched(cs, lib.search, text, AttackPatterns[i].0.Value());
    AtLeastOneMatch(cs, lib.search, text, AttackPatterns[i].0.Value());
    AnyMatchIsNotAllowed(cs, config, lib.search, text);
  }

  /** A reported name means at least one matched category. */
  lemma AtLeastOneMatch(cs: seq<CompiledCategory>, search: (string, string) -> bool, text: string, x: string)
    requires x in DetectedList(cs, search, text)
    ensures MatchedCount(cs, search, text) >= 1
  {
  }

  /** With a library that treats literal patterns as case-insensitive
      substrings, the plain word "jailbreak" anywhere in the text is
      detected as the jailbreak category. */
  lemma JailbreakWordFound(config: Config, lib: RegexLib, text: string)
    requires SearchesLiterals(lib) && config.enablePatternMatching
    requires Contains(Lower(text), "jailbreak")
    ensures "jailbreak" in Evaluate(CompilePlan(config), config, lib.search, text).detectedPatterns
    ensures Evaluate(CompilePlan(config), config, lib.search, text).riskScore >= 5.0
  {
    LiteralJailbreakPatterns();
    assert Lower("jailbreak") == "jailbreak";
    CatalogPatternFound(config, lib, text, 3, 2);
  }

  /** A custom literal pattern found in the text is reported as "custom". */
  lemma CustomLiteralFound(config: Config, lib: RegexLib, text: string, p: string)
    requires SearchesLiterals(lib) && config.enablePatternMatching
    requires p in config.customPatterns && IsLiteral(p)
    requires Contains(Lower(text), Lower(p))
    ensures "custom" in Evaluate(CompilePlan(config), config, lib.search, text).detectedPatterns
    ensures Evaluate(CompilePlan(config), config, lib.search, text).isSuspicious
  {
    var cs := CompilePlan(config);
    CompilePlanShape(config);
    var n := |AttackPatterns|;
    assert cs[n] == CompiledCategory(Custom, config.customPatterns);
    assert CategoryMatches(cs[n], lib.search, text);
    DetectedExactlyMatched(cs, lib.search, text, "custom");
    AtLeastOneMatch(cs, lib.search, text, "custom");
    AnyMatchIsNotAllowed(cs, config, lib.search, text);
  }

  /** The configuration with one custom pattern, "abracadabra". */
  const AbracadabraConfig: Config := DefaultConfig.(customPatterns := ["abracadabra"])

  /** "Please say abracadabra" is suspicious and reported as "custom". */
  lemma AbracadabraIsCustom(lib: RegexLib)
    requires SearchesLiterals(lib)
    ensures "custom" in Evaluate(CompilePlan(AbracadabraConfig), AbracadabraConfig, lib.search, "Please say abracadabra").detectedPatterns
    ensures Evaluate(CompilePlan(AbracadabraConfig), AbracadabraConfig, lib.search, "Please say abracadabra").isSuspicious
  {
    AbracadabraOccurs();
    CustomLiteralFound(AbracadabraConfig, lib, "Please say abracadabra", "abracadabra");
  }

  lemma AbracadabraOccurs()
    ensures IsLiteral("abracadabra")
    ensures Contains(Lower("Please say abracadabra"), Lower("abracadabra"))
  {
    assert Lower("abracadabra") == "abracadabra";
    assert OccursAt(Lower("Please say abracadabra"), "abracadabra", 11);
  }

  // ---------------------------------------------------------------------
  // The engine object

  /** `analyze` changes nothing, so asking twice gives the same verdict. */
  method AnalyzeTwice(guard: PromptGuard, text: string) returns (first: Verdict, second: Verdict)
    ensures first == second
    ensures first == Evaluate(guard.compiledPatterns, guard.config, guard.lib.search, text)
  {
    first := guard.Analyze(text);
    second := guard.Analyze(text);
  }

}
