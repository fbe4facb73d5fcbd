/** The string methods of Python that the model needs. */
module Strings {
  /** `str.isspace` for one character. */
  predicate IsSpace(c: char) {
    || '\t' <= c <= '\r' || '\U{1c}' <= c <= ' ' || c == '\U{85}' || c == '\U{a0}' || c == '\U{1680}'
    || '\U{2000}' <= c <= '\U{200a}' || c == '\U{2028}' || c == '\U{2029}' || c == '\U{202f}'
    || c == '\U{205f}' || c == '\U{3000}'
  }

  /** `str.strip`. */
  function Strip(s: string): string {
    if s != "" && IsSpace(s[0]) then Strip(s[1..])
    else if s != "" && IsSpace(s[|s| - 1]) then Strip(s[..|s| - 1])
    else s
  }

  /** What comes before the first dot. */
  function BeforeDot(s: string): (base: string)
    ensures base <= s && '.' !in base
    ensures base != s ==> s[|base|] == '.'
  {
    if s == "" || s[0] == '.' then "" else [s[0]] + BeforeDot(s[1..])
  }

  lemma BeforeDotSplits(s: string)
    requires BeforeDot(s) != s
    ensures s == BeforeDot(s) + "." + s[|BeforeDot(s)| + 1..]
  {
  }

  lemma {:induction false} BeforeDotIs(base: string, rest: string)
    requires '.' !in base
    ensures BeforeDot(base + "." + rest) == base
  {
    var s := base + "." + rest;
    if base != "" {
      BeforeDotIs(base[1..], rest);
      assert s[1..] == base[1..] + "." + rest;
    }
  }

  /** `str.lower`, for the letters A to Z. */
  function Lower(s: string): string {
    seq(|s|, i requires 0 <= i < |s| => if 'A' <= s[i] <= 'Z' then s[i] - 'A' + 'a' else s[i])
  }
}
