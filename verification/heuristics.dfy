/** The heuristics engine: three structural checks over the raw text that
    give a sub-score between 0 and 1 and an ordered list of flags. */
module Heuristics {
  import opened Wrappers
  import opened Text

  /** A prompt longer than this many characters is flagged. */
  const LongPromptLength: nat := 10000
  /** The default run length `_has_repetitive_chars` looks for. */
  const RepetitionThreshold: int := 15
  /** The imperative vocabulary, matched against whole tokens. */
  const Imperatives: seq<string> := ["ignore", "forget", "override", "bypass", "hack"]

  datatype Flag = UnusuallyLongPrompt | RepetitiveCharacters | HighImperativeCount
  {
    function Name(): string
    {
      match this
      case UnusuallyLongPrompt => "unusually_long_prompt"
      case RepetitiveCharacters => "repetitive_characters"
      case HighImperativeCount => "high_imperative_count"
    }

    /** The position of the check that raises the flag. */
    function Order(): nat
    {
      match this
      case UnusuallyLongPrompt => 0
      case RepetitiveCharacters => 1
      case HighImperativeCount => 2
    }
  }

  /** The `{"score": ..., "flags": [...]}` dictionary. */
  datatype HeuristicResult = HeuristicResult(score: real, flags: seq<Flag>)

  function Min(a: real, b: real): real
  {
    if a <= b then a else b
  }

  function Max(a: int, b: int): int
  {
    if a >= b then a else b
  }

  // ---------------------------------------------------------------------
  // Runs of identical characters

  /** `s[i..i+n]` is made of `n` copies of one character. */
  ghost predicate IsRun(s: string, i: int, n: int)
  {
    0 <= i && i + n <= |s| && forall k :: i <= k < i + n ==> s[k] == s[i]
  }

  /** Some `n` consecutive characters of `s` are identical. */
  ghost predicate HasRun(s: string, n: int)
  {
    exists i :: IsRun(s, i, n)
  }

  /** The length of the maximal run of copies of `s[j]` that ends at `j`. */
  function RunEndingAt(s: string, j: nat): (n: nat)
    requires j < |s|
    ensures 1 <= n <= j + 1
    ensures forall k :: j - n < k <= j ==> s[k] == s[j]
    ensures n <= j ==> s[j - n] != s[j]
  {
    if j > 0 && s[j - 1] == s[j] then RunEndingAt(s, j - 1) + 1 else 1
  }

  /** A run of length `n` ends where the maximal run is at least `n` long. */
  lemma {:induction false} RunReachesEnd(s: string, i: nat, n: nat)
    requires 1 <= n && IsRun(s, i, n)
    ensures RunEndingAt(s, i + n - 1) >= n
    decreases n
  {
    if n > 1 {
      assert IsRun(s, i, n - 1);
      RunReachesEnd(s, i, n - 1);
    }
  }

  /** Conversely a long maximal run contains a run of length `n`. */
  lemma RunFromEnd(s: string, j: nat, n: nat)
    requires j < |s| && 1 <= n <= RunEndingAt(s, j)
    ensures IsRun(s, j - n + 1, n)
  {
  }

  /** Text shorter than the threshold, the empty text included, never holds a run. */
  lemma ShortTextHasNoRun(s: string, n: int)
    requires |s| < n
    ensures !HasRun(s, n)
  {
  }

  // ---------------------------------------------------------------------
  // Imperative vocabulary

  /** How many of `words` are exactly one of the imperatives. */
  function CountImperatives(words: seq<string>): (n: nat)
    ensures n <= |words|
  {
    if words == [] then 0
    else CountImperatives(words[..|words| - 1]) + (if words[|words| - 1] in Imperatives then 1 else 0)
  }

  /** The positions of `words` that hold an imperative. */
  ghost function ImperativePositions(words: seq<string>): set<nat>
  {
    set i: nat | i < |words| && words[i] in Imperatives
  }

  /** The count is the number of positions whose token is an imperative. */
  lemma {:induction false} CountIsPositions(words: seq<string>)
    ensures CountImperatives(words) == |ImperativePositions(words)|
    decreases |words|
  {
    if words != [] {
      var n := |words| - 1;
      var front := words[..n];
      CountIsPositions(front);
      var last: set<nat> := if words[n] in Imperatives then {n} else {};
      assert ImperativePositions(words) == ImperativePositions(front) + last;
      assert n !in ImperativePositions(front);
    }
  }

  /** The number of imperative tokens of `text`, after lower-casing. */
  function ImperativeCount(text: string): nat
  {
    CountImperatives(Split(Lower(text)))
  }

  /** A token that carries punctuation is not an imperative. */
  lemma PunctuatedTokenNotCounted(w: string)
    requires w != [] && w[|w| - 1] == ','
    ensures CountImperatives([w]) == 0
  {
    assert w != "ignore" && w != "forget" && w != "override" && w != "bypass" && w != "hack";
  }

  // ---------------------------------------------------------------------
  // The assessment as a whole

  /** The flags raised by the three checks, in the order the checks run. */
  function RaisedFlags(long: bool, repetitive: bool, imperative: bool): (flags: seq<Flag>)
    ensures UnusuallyLongPrompt in flags <==> long
    ensures RepetitiveCharacters in flags <==> repetitive
    ensures HighImperativeCount in flags <==> imperative
    ensures forall i, j :: 0 <= i < j < |flags| ==> flags[i].Order() < flags[j].Order()
  {
    (if long then [UnusuallyLongPrompt] else [])
    + (if repetitive then [RepetitiveCharacters] else [])
    + (if imperative then [HighImperativeCount] else [])
  }

  /** The capped score: 0.2 for a long run, 0.3 per imperative beyond two. */
  function HeuristicScore(repetitive: bool, count: nat): (score: real)
    ensures 0.0 <= score <= 1.0
    ensures score > 0.0 <==> repetitive || count > 2
    ensures !repetitive && 2 < count <= 5 ==> score == 0.3 * ((count - 2) as real)
    ensures repetitive && count <= 2 ==> score == 0.2
  {
    Min((if repetitive then 0.2 else 0.0) + 0.3 * (Max(count - 2, 0) as real), 1.0)
  }

  /** What `HeuristicsEngine.analyze` returns for `text`. */
  ghost function Assessment(text: string): (r: HeuristicResult)
    ensures 0.0 <= r.score <= 1.0
    ensures UnusuallyLongPrompt in r.flags <==> |text| > LongPromptLength
    ensures RepetitiveCharacters in r.flags <==> HasRun(text, RepetitionThreshold)
    ensures HighImperativeCount in r.flags <==> ImperativeCount(text) > 2
    ensures r.score > 0.0 <==> RepetitiveCharacters in r.flags || HighImperativeCount in r.flags
    ensures forall i, j :: 0 <= i < j < |r.flags| ==> r.flags[i].Order() < r.flags[j].Order()
  {
    var repetitive := HasRun(text, RepetitionThreshold);
    var count := ImperativeCount(text);
    HeuristicResult(
      HeuristicScore(repetitive, count),
      RaisedFlags(|text| > LongPromptLength, repetitive, count > 2))
  }

  /** A long prompt is flagged but gets no points of its own. */
  lemma LongPromptOnlyFlagged(text: string)
    requires |text| > LongPromptLength
    requires !HasRun(text, RepetitionThreshold) && ImperativeCount(text) <= 2
    ensures Assessment(text) == HeuristicResult(0.0, [UnusuallyLongPrompt])
  {
  }

  /** The empty prompt raises no flag and scores nothing. */
  lemma EmptyTextAssessment()
    ensures Assessment("") == HeuristicResult(0.0, [])
  {
    ShortTextHasNoRun("", RepetitionThreshold);
    assert Lower("") == "";
  }

  class HeuristicsEngine {

    constructor ()
    {
    }

    /** The three checks, each adding to the score or to the flags. */
    method Analyze(text: string) returns (r: HeuristicResult)
      ensures r == Assessment(text)
    {
      r := HeuristicResult(0.0, []);
      var long := |text| > LongPromptLength;
      if long {
        r := r.(flags := r.flags + [UnusuallyLongPrompt]);
      }
      ghost var flags1 := r.flags;
      assert flags1 == if long then [UnusuallyLongPrompt] else [];
      var repetitive := HasRepetitiveChars(text);
      if repetitive {
        r := r.(score := r.score + 0.2, flags := r.flags + [RepetitiveCharacters]);
      }
      ghost var flags2 := r.flags;
      assert flags2 == flags1 + if repetitive then [RepetitiveCharacters] else [];
      var count := CountImperatives(Split(Lower(text)));
      if count > 2 {
        r := r.(score := r.score + 0.3 * ((count - 2) as real), flags := r.flags + [HighImperativeCount]);
      }
      assert r.flags == flags2 + if count > 2 then [HighImperativeCount] else [];
      r := r.(score := Min(r.score, 1.0));
      assert r == HeuristicResult(HeuristicScore(repetitive, count), RaisedFlags(long, repetitive, count > 2));
    }

    /** Scans `text` once, keeping the last character seen and the length of
        its current run, and stops at the first run that reaches `threshold`.
        The run length is compared only after it grows, so a threshold below
        2 behaves like 2. */
    method HasRepetitiveChars(text: string, threshold: int := RepetitionThreshold) returns (found: bool)
      ensures found <==> HasRun(text, Max(threshold, 2))
    {
      ghost var t := Max(threshold, 2);
      var count := 0;
      var last: Option<char> := None;
      for i := 0 to |text|
        invariant i == 0 ==> count == 0 && last == None
        invariant i > 0 ==> last == Some(text[i - 1]) && count == RunEndingAt(text, i - 1)
        invariant forall j :: 0 <= j < i ==> RunEndingAt(text, j) < t
      {
        var c := text[i];
        if last == Some(c) {
          count := count + 1;
          if count >= threshold {
            RunFromEnd(text, i, t);
            return true;
          }
        } else {
          count := 1;
          last := Some(c);
        }
      }
      if HasRun(text, t) {
        var i :| IsRun(text, i, t);
        RunReachesEnd(text, i, t);
        assert false;
      }
      return false;
    }
  }

}
