/** The two regular expressions of the hook, written as deterministic scanners.

    - the branch pattern `^([A-Z]+/)?([A-Z]+-[0-9]+)`, applied to the
      upper-cased branch name, whose second group is the desired prefix
      (src/lib.rs:24-29);
    - the message pattern `^([A-Z]+-[0-9]+):? `, applied to the message as it
      is, whose first group is the prefix already present (src/lib.rs:38-43).

    Both patterns are anchored and each of their choices is decided by the
    next character, so no backtracking alternative can ever succeed: a
    letter run stops at the first non-letter, a scope exists exactly when
    that character is `/`, and the greedy digit run stops at the first
    non-digit. The scanners below follow that reading; the lemmas
    `ExtractTicketMatchesPattern` and `ExistingPrefixMatchesPattern` prove
    them equal to declarative statements of what each pattern captures. */
module Tickets {
  import opened Wrappers
  import opened Chars

  /** `[A-Z]+-[0-9]+` matched by the whole of `t`. */
  ghost predicate IsTicket(t: string)
  {
    exists k :: 0 < k < |t| - 1 && t[k] == '-' && AllUpper(t[..k]) && AllDigits(t[k + 1..])
  }

  /** `[A-Z]+/` matched by the whole of `p`. */
  ghost predicate IsScope(p: string)
  {
    |p| >= 2 && p[|p| - 1] == '/' && AllUpper(p[..|p| - 1])
  }

  /** On the text `u`, `^([A-Z]+/)?([A-Z]+-[0-9]+)` matches with group 2
      capturing `t`: `t` starts at the beginning or right after a scope, and
      the greedy `[0-9]+` leaves no digit right after it. */
  ghost predicate BranchPatternCaptures(u: string, t: string)
    ensures BranchPatternCaptures(u, t) ==> IsTicket(t) && |t| <= |u|
  {
    IsTicket(t) &&
    exists i :: 0 <= i && i + |t| <= |u| && (i == 0 || IsScope(u[..i])) && u[i..i + |t|] == t
      && (i + |t| == |u| || !IsDigit(u[i + |t|]))
  }

  /** On the text `m`, `^([A-Z]+-[0-9]+):? ` matches with group 1 capturing `t`. */
  ghost predicate MessagePatternCaptures(m: string, t: string)
    ensures MessagePatternCaptures(m, t) ==> |t| < |m| && m[..|t|] == t
  {
    IsTicket(t) && (StartsWith(m, t + " ") || StartsWith(m, t + ": "))
  }

  /** End of the maximal run of `[A-Z]` that starts at `i`. */
  function LetterEnd(s: string, i: nat): (k: nat)
    requires i <= |s|
    ensures i <= k <= |s|
    ensures forall j :: i <= j < k ==> IsUpper(s[j])
    ensures k == |s| || !IsUpper(s[k])
    decreases |s| - i
  {
    if i < |s| && IsUpper(s[i]) then LetterEnd(s, i + 1) else i
  }

  /** End of the maximal run of `[0-9]` that starts at `i`. */
  function DigitEnd(s: string, i: nat): (k: nat)
    requires i <= |s|
    ensures i <= k <= |s|
    ensures forall j :: i <= j < k ==> IsDigit(s[j])
    ensures k == |s| || !IsDigit(s[k])
    decreases |s| - i
  {
    if i < |s| && IsDigit(s[i]) then DigitEnd(s, i + 1) else i
  }

  lemma TicketShape(s: string, i: nat, k: nat, d: nat)
    requires i < k && k + 1 < d <= |s| && s[k] == '-'
    requires forall j :: i <= j < k ==> IsUpper(s[j])
    requires forall j :: k + 1 <= j < d ==> IsDigit(s[j])
    ensures IsTicket(s[i..d])
  {
    var t := s[i..d];
    var letters, digits := t[..k - i], t[k - i + 1..];
    assert t[k - i] == '-';
    forall j | 0 <= j < |letters| ensures IsUpper(letters[j]) {
      assert letters[j] == s[i + j];
    }
    forall j | 0 <= j < |digits| ensures IsDigit(digits[j]) {
      assert digits[j] == s[k + 1 + j];
    }
  }

  /** `[A-Z]+-[0-9]+` with a greedy digit run, anchored at position `i`. */
  function TicketAt(s: string, i: nat): (r: Option<string>)
    requires i <= |s|
    ensures r.Some? ==> IsTicket(r.value) && i + |r.value| <= |s| && s[i..i + |r.value|] == r.value
    ensures r.Some? ==> i + |r.value| == |s| || !IsDigit(s[i + |r.value|])
  {
    var k := LetterEnd(s, i);
    if i < k < |s| && s[k] == '-' then
      var d := DigitEnd(s, k + 1);
      if k + 1 < d then
        TicketShape(s, i, k, d);
        Some(s[i..d])
      else None
    else None
  }

  /** Where the ticket must start: after a leading `[A-Z]+/` scope if there is
      one, else at the beginning. */
  function ScopeEnd(u: string): (i: nat)
    ensures i <= |u|
    ensures i == 0 || IsScope(u[..i])
  {
    var k := LetterEnd(u, 0);
    if 0 < k < |u| && u[k] == '/' then
      assert u[..k + 1][..k] == u[..k];
      k + 1
    else 0
  }

  /** The desired prefix: group 2 of `^([A-Z]+/)?([A-Z]+-[0-9]+)` on the
      upper-cased branch name (src/lib.rs:24-29). */
  function ExtractTicket(branch: string): (r: Option<string>)
    ensures r.Some? ==> IsTicket(r.value)
  {
    var u := Uppercase(branch);
    TicketAt(u, ScopeEnd(u))
  }

  /** The prefix already in the message: group 1 of `^([A-Z]+-[0-9]+):? `
      (src/lib.rs:38-43). */
  function ExistingPrefix(msg: string): (r: Option<string>)
    ensures r.Some? ==> IsTicket(r.value)
  {
    match TicketAt(msg, 0)
    case Some(t) =>
      var rest := msg[|t|..];
      if StartsWith(rest, " ") || StartsWith(rest, ": ") then Some(t) else None
    case None => None
  }

  /** Any text that is all `[A-Z]` up to a non-letter has that non-letter as
      the end of its letter run. */
  lemma LetterEndAt(s: string, i: nat, k: nat)
    requires i <= k <= |s|
    requires forall j :: i <= j < k ==> IsUpper(s[j])
    requires k == |s| || !IsUpper(s[k])
    ensures LetterEnd(s, i) == k
  {
  }

  lemma DigitEndAt(s: string, i: nat, k: nat)
    requires i <= k <= |s|
    requires forall j :: i <= j < k ==> IsDigit(s[j])
    requires k == |s| || !IsDigit(s[k])
    ensures DigitEnd(s, i) == k
  {
  }

  /** A ticket that sits at `i` with no digit after it is what `TicketAt` finds. */
  lemma TicketAtFinds(s: string, i: nat, t: string)
    requires IsTicket(t) && i + |t| <= |s| && s[i..i + |t|] == t
    requires i + |t| == |s| || !IsDigit(s[i + |t|])
    ensures TicketAt(s, i) == Some(t)
  {
    var k :| 0 < k < |t| - 1 && t[k] == '-' && AllUpper(t[..k]) && AllDigits(t[k + 1..]);
    TicketLettersEnd(s, i, t, k);
    TicketDigitsEnd(s, i, t, k);
    assert s[i + k] == t[k];
    assert TicketAt(s, i) == Some(s[i..i + |t|]);
  }

  lemma TicketLettersEnd(s: string, i: nat, t: string, k: nat)
    requires i + |t| <= |s| && s[i..i + |t|] == t
    requires 0 < k < |t| && t[k] == '-' && AllUpper(t[..k])
    ensures LetterEnd(s, i) == i + k
  {
    forall j | i <= j < i + k ensures IsUpper(s[j]) {
      assert s[j] == t[..k][j - i];
    }
    assert s[i + k] == t[k];
    LetterEndAt(s, i, i + k);
  }

  lemma TicketDigitsEnd(s: string, i: nat, t: string, k: nat)
    requires i + |t| <= |s| && s[i..i + |t|] == t
    requires k < |t| && AllDigits(t[k + 1..])
    requires i + |t| == |s| || !IsDigit(s[i + |t|])
    ensures DigitEnd(s, i + k + 1) == i + |t|
  {
    forall j | i + k + 1 <= j < i + |t| ensures IsDigit(s[j]) {
      assert s[j] == t[k + 1..][j - i - k - 1];
    }
    DigitEndAt(s, i + k + 1, i + |t|);
  }

  /** `ExtractTicket` returns exactly the capture of the branch pattern on the
      upper-cased branch name; in particular it returns `None` exactly when
      the pattern does not match. */
  lemma ExtractTicketMatchesPattern(branch: string, t: string)
    ensures ExtractTicket(branch) == Some(t) <==> BranchPatternCaptures(Uppercase(branch), t)
  {
    if ExtractTicket(branch) == Some(t) {
      ExtractTicketSound(branch);
    }
    if BranchPatternCaptures(Uppercase(branch), t) {
      ExtractTicketComplete(branch, t);
    }
  }

  lemma ExtractTicketSound(branch: string)
    requires ExtractTicket(branch).Some?
    ensures BranchPatternCaptures(Uppercase(branch), ExtractTicket(branch).value)
  {
    var u := Uppercase(branch);
    var i := ScopeEnd(u);
    ScannerCaptures(u, i, TicketAt(u, i).value);
  }

  lemma ScannerCaptures(u: string, i: nat, t: string)
    requires i == ScopeEnd(u) && TicketAt(u, i) == Some(t)
    ensures BranchPatternCaptures(u, t)
  {
    assert IsTicket(t);
    assert i + |t| <= |u| && (i == 0 || IsScope(u[..i])) && u[i..i + |t|] == t
      && (i + |t| == |u| || !IsDigit(u[i + |t|]));
  }

  lemma ExtractTicketComplete(branch: string, t: string)
    requires BranchPatternCaptures(Uppercase(branch), t)
    ensures ExtractTicket(branch) == Some(t)
  {
    var u := Uppercase(branch);
    var i :| 0 <= i && i + |t| <= |u| && (i == 0 || IsScope(u[..i])) && u[i..i + |t|] == t
      && (i + |t| == |u| || !IsDigit(u[i + |t|]));
    TicketAtFinds(u, i, t);
    ScopeEndIs(u, i, t);
  }

  /** The scanner's choice of start position agrees with the pattern's: a
      ticket can follow a scope or stand at the beginning, never both. */
  lemma ScopeEndIs(u: string, i: nat, t: string)
    requires IsTicket(t) && i + |t| <= |u| && u[i..i + |t|] == t
    requires i == 0 || IsScope(u[..i])
    ensures ScopeEnd(u) == i
  {
    var k :| 0 < k < |t| - 1 && t[k] == '-' && AllUpper(t[..k]) && AllDigits(t[k + 1..]);
    if i == 0 {
      forall j | 0 <= j < k ensures IsUpper(u[j]) {
        assert u[j] == t[..k][j];
      }
      assert u[k] == t[k];
      LetterEndAt(u, 0, k);
    } else {
      forall j | 0 <= j < i - 1 ensures IsUpper(u[j]) {
        assert u[j] == u[..i][..i - 1][j];
      }
      assert u[i - 1] == u[..i][i - 1];
      LetterEndAt(u, 0, i - 1);
    }
  }

  /** Matching is case-insensitive: a branch name and its upper-cased form
      give the same prefix. */
  lemma ExtractTicketIgnoresCase(branch: string)
    ensures ExtractTicket(Uppercase(branch)) == ExtractTicket(branch)
  {
    UppercaseIdempotent(branch);
  }

  /** `ExistingPrefix` returns exactly the capture of the message pattern;
      in particular it returns `None` exactly when the pattern does not match. */
  lemma ExistingPrefixMatchesPattern(msg: string, t: string)
    ensures ExistingPrefix(msg) == Some(t) <==> MessagePatternCaptures(msg, t)
  {
    if ExistingPrefix(msg) == Some(t) {
      var rest := msg[|t|..];
      if StartsWith(rest, " ") {
        assert msg[..|t| + 1] == t + " ";
      } else {
        assert msg[..|t| + 2] == t + ": ";
      }
    }
    if MessagePatternCaptures(msg, t) {
      var sep := if StartsWith(msg, t + " ") then " " else ": ";
      assert msg[..|t| + |sep|] == t + sep;
      assert msg[..|t|] == (t + sep)[..|t|] == t;
      assert msg[|t|] == (t + sep)[|t|] == sep[0];
      TicketAtFinds(msg, 0, t);
      assert msg[|t|..][..|sep|] == sep;
    }
  }

  /** A prefix that the hook writes, `t + ": "`, is recognised as the
      existing prefix afterwards, whatever follows it. */
  lemma WrittenPrefixRecognised(t: string, msg: string)
    requires IsTicket(t)
    ensures ExistingPrefix(t + ": " + msg) == Some(t)
  {
    var m := t + ": " + msg;
    assert m[..|t| + 2] == t + ": ";
    ExistingPrefixMatchesPattern(m, t);
  }
}
