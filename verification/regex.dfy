/** Python's `re` module as the detection engine sees it. The engine never
    inspects a regular expression itself: it asks whether a pattern compiles
    and whether a compiled, case-insensitive pattern is found somewhere in a
    text. Both questions are answered by the library value given to the
    engine when it is built. */
module Regex {
  import opened Text

  /** `compiles(p)`: `re.compile(p, re.IGNORECASE)` raises no `re.error`.
      `search(p, t)`: `re.compile(p, re.IGNORECASE).search(t)` is not None. */
  datatype RegexLib = RegexLib(compiles: string -> bool, search: (string, string) -> bool)

  /** No character of `p` has a special meaning in a Python regular expression. */
  predicate IsLiteral(p: string)
  {
    forall i :: 0 <= i < |p| ==> !IsMetaChar(p[i])
  }

  /** The characters with a special meaning in Python's regex syntax. */
  predicate IsMetaChar(c: char)
  {
    || c == '.' || c == '^' || c == '$' || c == '*' || c == '+' || c == '?'
    || c == '{' || c == '}' || c == '[' || c == ']' || c == '\\' || c == '|'
    || c == '(' || c == ')'
  }

  /** What `re` guarantees for a literal pattern under `re.IGNORECASE`: it is
      found whenever its ASCII-lower-cased form occurs in the ASCII-lower-cased
      text. The converse does not hold in general, since `re` also pairs
      non-ASCII letters (`é` with `É`, `s` with `ſ`) that `Lower` leaves alone. */
  ghost predicate SearchesLiterals(lib: RegexLib)
  {
    forall p, t :: IsLiteral(p) && Contains(Lower(t), Lower(p)) ==> lib.search(p, t)
  }

}
