/** The attack categories and the static pattern catalog. */
module Patterns {
  import opened Regex

  /** The `AttackType` string enum. */
  datatype AttackType =
    | SystemPromptOverride
    | RoleManipulation
    | ContextPoisoning
    | OutputManipulation
    | Jailbreak
  {
    /** The member's string value, which is what the engine reports. */
    function Value(): (s: string)
      ensures s != "custom"
      ensures s != []
    {
      match this
      case SystemPromptOverride => "system_prompt_override"
      case RoleManipulation => "role_manipulation"
      case ContextPoisoning => "context_poisoning"
      case OutputManipulation => "output_manipulation"
      case Jailbreak => "jailbreak"
    }

    /** How an f-string renders the member: `AttackType` mixes `str` into
        `Enum` without being a `StrEnum`, so Python 3.11 and later format it
        as the class and member name. */
    function Display(): string
    {
      match this
      case SystemPromptOverride => "AttackType.SYSTEM_PROMPT_OVERRIDE"
      case RoleManipulation => "AttackType.ROLE_MANIPULATION"
      case ContextPoisoning => "AttackType.CONTEXT_POISONING"
      case OutputManipulation => "AttackType.OUTPUT_MANIPULATION"
      case Jailbreak => "AttackType.JAILBREAK"
    }
  }

  /** The enum's members in declaration order. */
  const Members: seq<AttackType> :=
    [SystemPromptOverride, RoleManipulation, ContextPoisoning, OutputManipulation, Jailbreak]

  /** `ATTACK_PATTERNS`: an insertion-ordered dictionary, kept as the ordered
      list of its (key, patterns) items. */
  const AttackPatterns: seq<(AttackType, seq<string>)> := [
    (SystemPromptOverride, [
      "ignore.*(?:previous|all).*instructions",
      "ignore.*(?:system|safety).*guidelines?",
      "disregard.*(?:previous|all).*instructions",
      "forget.*(?:previous|all).*instructions",
      "override.*(?:system|safety).*instructions",
      "reveal.*(?:system|hidden).*prompt",
      "what.*are.*your.*instructions"
    ]),
    (RoleManipulation, [
      "you.*are.*no.*longer.*(?:a|an|the).*",
      "act.*as.*(?:a|an).*",
      "pretend.*to.*be.*",
      "roleplay.*as.*",
      "from.*now.*on.*you.*are.*",
      "stay.*in.*character"
    ]),
    (OutputManipulation, [
      "output.*(?:as|in).*json",
      "output.*the.*following.*code",
      "print.*(?:the|this).*",
      "repeat.*after.*me"
    ]),
    (Jailbreak, [
      "do.*anything.*now",
      "dan.*mode",
      "jailbreak",
      "unfiltered",
      "uncensored",
      "always.*say.*yes"
    ])
  ]

  /** The enum has exactly five members, and their values tell them apart. */
  lemma MembersAreExactlyFive()
    ensures |Members| == 5
    ensures forall a: AttackType :: a in Members
    ensures forall i, j :: 0 <= i < j < |Members| ==> Members[i].Value() != Members[j].Value()
  {
    forall a: AttackType ensures a in Members {
      match a
      case SystemPromptOverride => assert Members[0] == a;
      case RoleManipulation => assert Members[1] == a;
      case ContextPoisoning => assert Members[2] == a;
      case OutputManipulation => assert Members[3] == a;
      case Jailbreak => assert Members[4] == a;
    }
  }

  /** Distinct members have distinct values. */
  lemma ValueInjective(a: AttackType, b: AttackType)
    ensures a.Value() == b.Value() ==> a == b
  {
    if a.Value() == b.Value() {
      match a
      case SystemPromptOverride => assert b.Value()[0] == 's';
      case RoleManipulation => assert b.Value()[0] == 'r';
      case ContextPoisoning => assert b.Value()[..3] == "con";
      case OutputManipulation => assert b.Value()[0] == 'o';
      case Jailbreak => assert b.Value()[0] == 'j';
    }
  }

  /** The catalog's keys, in iteration order, and the size of each list. */
  lemma CatalogShape()
    ensures |AttackPatterns| == 4
    ensures AttackPatterns[0].0 == SystemPromptOverride && |AttackPatterns[0].1| == 7
    ensures AttackPatterns[1].0 == RoleManipulation && |AttackPatterns[1].1| == 6
    ensures AttackPatterns[2].0 == OutputManipulation && |AttackPatterns[2].1| == 4
    ensures AttackPatterns[3].0 == Jailbreak && |AttackPatterns[3].1| == 6
  {
  }

  /** `CONTEXT_POISONING` is declared but has no patterns, and no key repeats. */
  lemma CatalogKeys()
    ensures forall i :: 0 <= i < |AttackPatterns| ==> AttackPatterns[i].0 != ContextPoisoning
    ensures forall i :: 0 <= i < |AttackPatterns| ==> AttackPatterns[i].1 != []
    ensures forall i, j :: 0 <= i < j < |AttackPatterns| ==> AttackPatterns[i].0 != AttackPatterns[j].0
  {
  }

  /** Three of the jailbreak patterns are plain words: they hold no
      regular-expression operator at all. */
  lemma LiteralJailbreakPatterns()
    ensures AttackPatterns[3].1[2] == "jailbreak" && IsLiteral("jailbreak")
    ensures AttackPatterns[3].1[3] == "unfiltered" && IsLiteral("unfiltered")
    ensures AttackPatterns[3].1[4] == "uncensored" && IsLiteral("uncensored")
  {
  }

}
