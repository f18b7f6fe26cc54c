/** Strings as the controllers handle them: Go's `strings` package on sequences of characters. */
module Text {

  datatype Option<+T> = None | Some(value: T)

  /** strings.Contains */
  predicate Contains(s: string, sub: string) {
    exists i :: 0 <= i <= |s| - |sub| && sub <= s[i..]
  }

  /** strings.TrimPrefix */
  function TrimPrefix(s: string, prefix: string): string {
    if prefix <= s then s[|prefix|..] else s
  }

  /** strings.HasSuffix */
  predicate HasSuffix(s: string, suffix: string) {
    |suffix| <= |s| && s[|s| - |suffix|..] == suffix
  }

  /** unicode.IsSpace */
  predicate IsSpace(c: char) {
    || '\t' <= c <= '\r' || c == ' ' || c == '\U{85}' || c == '\U{A0}' || c == '\U{1680}'
    || '\U{2000}' <= c <= '\U{200A}' || c == '\U{2028}' || c == '\U{2029}' || c == '\U{202F}'
    || c == '\U{205F}' || c == '\U{3000}'
  }

  function TrimLeft(s: string): string {
    if s != "" && IsSpace(s[0]) then TrimLeft(s[1..]) else s
  }

  function TrimRight(s: string): string {
    if s != "" && IsSpace(s[|s| - 1]) then TrimRight(s[..|s| - 1]) else s
  }

  /** strings.TrimSpace */
  function TrimSpace(s: string): string {
    TrimRight(TrimLeft(s))
  }

  /**
   * unicode.ToLower, as far as ASCII results go. Besides 'A' to 'Z' only U+0130 and U+212A have an ASCII
   * lower case, so a test of a lowered string against an ASCII prefix is exact.
   */
  function LowerChar(c: char): char {
    if 'A' <= c <= 'Z' then c - 'A' + 'a'
    else if c == '\U{0130}' then 'i'
    else if c == '\U{212A}' then 'k'
    else c
  }

  /** strings.ToLower */
  function ToLower(s: string): (r: string)
    ensures |r| == |s| && forall i :: 0 <= i < |s| ==> r[i] == LowerChar(s[i])
  {
    seq(|s|, i requires 0 <= i < |s| => LowerChar(s[i]))
  }

  /** What is left after trimming the right end is a prefix, and the whole string only when no space ends it. */
  lemma {:induction false} TrimRightPrefix(s: string)
    ensures TrimRight(s) <= s
    ensures TrimRight(s) == s <==> (s == "" || !IsSpace(s[|s| - 1]))
  {
    if s != "" && IsSpace(s[|s| - 1]) {
      TrimRightPrefix(s[..|s| - 1]);
    }
  }

  /** Trimming keeps a prefix that starts and ends with visible characters. */
  lemma {:induction false} TrimSpaceKeepsPrefix(p: string, s: string)
    requires p <= s && p != "" && !IsSpace(p[0]) && !IsSpace(p[|p| - 1])
    ensures p <= TrimSpace(s)
    decreases |s|
  {
    assert TrimLeft(s) == s;
    if IsSpace(s[|s| - 1]) {
      var t := s[..|s| - 1];
      assert p[|p| - 1] == s[|p| - 1];
      assert p <= t;
      TrimSpaceKeepsPrefix(p, t);
      assert TrimLeft(t) == t;
    }
  }

  /** A string is contained in a prefix of itself only when it is that prefix. */
  lemma ContainedInOwnPrefix(s: string, p: string)
    requires p <= s
    ensures Contains(p, s) <==> p == s
  {
    if p == s {
      assert p[0..] == p;
    }
  }
}
