/** The few text primitives of Rust's standard library that the hook relies on:
    `str::trim` (with `char::is_whitespace`), `str::starts_with` and
    `str::to_uppercase` (restricted to ASCII), plus the two character classes
    `[A-Z]` and `[0-9]` of the hook's regular expressions. */
module Chars {

  /** The regular-expression class `[A-Z]`. */
  predicate IsUpper(c: char) { 'A' <= c <= 'Z' }

  /** The regular-expression class `[0-9]`. */
  predicate IsDigit(c: char) { '0' <= c <= '9' }

  predicate IsLower(c: char) { 'a' <= c <= 'z' }

  predicate AllUpper(s: string) { forall i :: 0 <= i < |s| ==> IsUpper(s[i]) }

  predicate AllDigits(s: string) { forall i :: 0 <= i < |s| ==> IsDigit(s[i]) }

  /** `char::is_whitespace`: the Unicode White_Space property. */
  predicate IsWhitespace(c: char)
  {
    ('\t' <= c <= '\r') || c == ' ' || c == '\U{85}' || c == '\U{A0}' || c == '\U{1680}'
    || ('\U{2000}' <= c <= '\U{200A}') || c == '\U{2028}' || c == '\U{2029}'
    || c == '\U{202F}' || c == '\U{205F}' || c == '\U{3000}'
  }

  predicate StartsWith(s: string, prefix: string)
  {
    |prefix| <= |s| && s[..|prefix|] == prefix
  }

  /** Texts that differ at some position within both do not start one
      with the other. */
  lemma DiffersAt(s: string, p: string, j: nat)
    requires j < |s| && j < |p| && s[j] != p[j]
    ensures !StartsWith(s, p)
  {
    if |p| <= |s| {
      assert s[..|p|][j] == s[j];
    }
  }

  /** Uppercasing of one character, for the ASCII letters `a`..`z`. */
  function ToUpper(c: char): (u: char)
    ensures IsLower(c) ==> IsUpper(u) && u as int - c as int == 'A' as int - 'a' as int
    ensures !IsLower(c) ==> u == c
  {
    if IsLower(c) then (c as int - 'a' as int + 'A' as int) as char else c
  }

  /** `str::to_uppercase`, character by character. */
  function Uppercase(s: string): (r: string)
    ensures |r| == |s|
    ensures forall i :: 0 <= i < |r| ==> !IsLower(r[i])
    ensures forall i :: 0 <= i < |r| ==>
      r[i] == s[i] || (IsLower(s[i]) && r[i] as int - s[i] as int == 'A' as int - 'a' as int)
  {
    seq(|s|, i requires 0 <= i < |s| => ToUpper(s[i]))
  }

  /** Uppercasing twice is uppercasing once: the branch matcher sees the same
      text whether or not the branch name was already in upper case. */
  lemma UppercaseIdempotent(s: string)
    ensures Uppercase(Uppercase(s)) == Uppercase(s)
  {
  }

  /** `str::trim_start`: drops the leading whitespace. */
  function TrimStart(s: string): (r: string)
    ensures |r| <= |s| && r == s[|s| - |r|..]
    ensures forall i :: 0 <= i < |s| - |r| ==> IsWhitespace(s[i])
    ensures r == [] || !IsWhitespace(r[0])
    decreases |s|
  {
    if s != [] && IsWhitespace(s[0]) then TrimStart(s[1..]) else s
  }

  /** `str::trim_end`: drops the trailing whitespace. */
  function TrimEnd(s: string): (r: string)
    ensures |r| <= |s| && r == s[..|r|]
    ensures forall i :: |r| <= i < |s| ==> IsWhitespace(s[i])
    ensures r == [] || !IsWhitespace(r[|r| - 1])
    decreases |s|
  {
    if s != [] && IsWhitespace(s[|s| - 1]) then TrimEnd(s[..|s| - 1]) else s
  }

  /** `str::trim`: drops whitespace at both ends. */
  function Trim(s: string): (r: string)
    ensures |r| <= |s|
    ensures r == [] || (!IsWhitespace(r[0]) && !IsWhitespace(r[|r| - 1]))
  {
    TrimInWhitespace(s);
    TrimEnd(TrimStart(s))
  }

  /** What `Trim` keeps is one slice of its input with only whitespace on
      either side of it. */
  lemma TrimKeepsMiddle(s: string)
    ensures exists lo :: InWhitespace(s, Trim(s), lo)
  {
    TrimInWhitespace(s);
    assert InWhitespace(s, Trim(s), |s| - |TrimStart(s)|);
  }

  lemma TrimInWhitespace(s: string)
    ensures InWhitespace(s, TrimEnd(TrimStart(s)), |s| - |TrimStart(s)|)
    ensures TrimEnd(TrimStart(s)) == [] || !IsWhitespace(TrimEnd(TrimStart(s))[0])
  {
    var t := TrimStart(s);
    var r := TrimEnd(t);
    SliceInWhitespace(s, |s| - |t|, t, r);
  }

  lemma SliceInWhitespace(s: string, lo: nat, t: string, r: string)
    requires lo <= |s| && t == s[lo..] && |r| <= |t| && r == t[..|r|]
    requires forall i :: 0 <= i < lo ==> IsWhitespace(s[i])
    requires forall i :: |r| <= i < |t| ==> IsWhitespace(t[i])
    requires t == [] || !IsWhitespace(t[0])
    ensures InWhitespace(s, r, lo)
    ensures r == [] || !IsWhitespace(r[0])
  {
    assert s[lo..lo + |r|] == r;
    forall i | lo + |r| <= i < |s| ensures IsWhitespace(s[i]) {
      assert s[i] == t[i - lo];
    }
    if r != [] {
      assert r[0] == t[0];
    }
  }

  /** `s` is `r` at offset `lo` with only whitespace around it. */
  predicate InWhitespace(s: string, r: string, lo: nat)
  {
    lo + |r| <= |s| && s[lo..lo + |r|] == r
    && (forall i :: 0 <= i < lo ==> IsWhitespace(s[i]))
    && (forall i :: lo + |r| <= i < |s| ==> IsWhitespace(s[i]))
  }

  /** Trimming leaves nothing exactly when every character is whitespace. */
  lemma TrimEmptyIffBlank(s: string)
    ensures Trim(s) == [] <==> forall i :: 0 <= i < |s| ==> IsWhitespace(s[i])
  {
    var r := TrimStart(s);
    if r == [] {
      assert Trim(s) == TrimEnd(r) == [];
    } else {
      assert r[0] == s[|s| - |r|] && !IsWhitespace(r[0]);
    }
  }
}
