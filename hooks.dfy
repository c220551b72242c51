/** The commit-message hook `hooks::run_hook` (src/lib.rs:6-60).

    The hook reads the message file, decides, and writes the file at most
    once. The decision is the pure function `Decide`; `RunHook` is the one
    place where the message file changes. The branch name arrives as an
    input: `None` stands for every way the repository lookup can fail
    (opening the repository, resolving HEAD, or HEAD having no shorthand). */
module Hooks {
  import opened Wrappers
  import opened Chars
  import opened Tickets

  /** Why the hook leaves a message alone; each is a successful run. */
  datatype SkipReason =
    | EmptyMessage       // src/lib.rs:9-11
    | FixupOrSquash      // src/lib.rs:13-16
    | NonPrefixedBranch  // src/lib.rs:32-35
    | AlreadyPrefixed    // src/lib.rs:44-46

  datatype HookError =
    | BranchUnknown                                   // src/lib.rs:18-23
    | PrefixMismatch(existing: string, desired: string)  // src/lib.rs:47-52

  datatype Outcome =
    | Skip(reason: SkipReason)
    | Rewrite(message: string)
    | Fail(error: HookError)

  /** What `run_hook` returns: `Ok(())` or an error. */
  datatype Status = Ok | Err(error: HookError)

  /** `original_message.trim().is_empty()` */
  predicate IsBlank(msg: string)
    ensures IsBlank(msg) <==> forall i :: 0 <= i < |msg| ==> IsWhitespace(msg[i])
  {
    TrimEmptyIffBlank(msg);
    Trim(msg) == []
  }

  /** Messages that `git commit --fixup` and `--squash` generate. */
  predicate IsAutosquash(msg: string)
    ensures IsAutosquash(msg) ==> |msg| >= 6 && !IsWhitespace(msg[0]) && !IsUpper(msg[0])
  {
    var autosquash := StartsWith(msg, "fixup!") || StartsWith(msg, "squash!");
    assert autosquash ==> msg[0] == 'f' || msg[0] == 's';
    autosquash
  }

  /** The decision of `run_hook`, its checks in the source's order. */
  function Decide(msg: string, branch: Option<string>): (o: Outcome)
    ensures o.Rewrite? ==> |o.message| > |msg| && o.message[|o.message| - |msg|..] == msg
    ensures o.Fail? && o.error.PrefixMismatch? ==> o.error.existing != o.error.desired
  {
    if IsBlank(msg) then Skip(EmptyMessage)
    else if IsAutosquash(msg) then Skip(FixupOrSquash)
    else match branch
      case None => Fail(BranchUnknown)
      case Some(name) =>
        match ExtractTicket(name)
        case None => Skip(NonPrefixedBranch)
        case Some(desired) => Reconcile(msg, desired)
  }

  /** The last part of `run_hook` (src/lib.rs:38-59): compare the message's
      own prefix with the desired one, or write the desired one in front. */
  function Reconcile(msg: string, desired: string): (o: Outcome)
    ensures o.Rewrite? ==> ExistingPrefix(msg).None? && o.message == desired + ": " + msg
    ensures o.Rewrite? ==> |o.message| > |msg| && o.message[|o.message| - |msg|..] == msg
    ensures o.Fail? ==> o.error.PrefixMismatch? && o.error.existing != o.error.desired
  {
    match ExistingPrefix(msg)
    case Some(existing) =>
      if existing == desired then Skip(AlreadyPrefixed)
      else Fail(PrefixMismatch(existing, desired))
    case None =>
      var written := desired + ": " + msg;
      assert written[|written| - |msg|..] == msg;
      Rewrite(written)
  }

  /** The content of the message file after one run. */
  function NewContent(msg: string, branch: Option<string>): (r: string)
    ensures r == msg || (|r| > |msg| && r[|r| - |msg|..] == msg)
    ensures Decide(msg, branch).Fail? ==> r == msg
  {
    match Decide(msg, branch)
    case Rewrite(written) => written
    case _ => msg
  }

  function StatusOf(o: Outcome): (r: Status)
    ensures r.Err? <==> o.Fail?
    ensures r.Err? ==> r.error == o.error
  {
    match o
    case Fail(e) => Err(e)
    case _ => Ok
  }

  /** The text of each error as the hook reports it. */
  function ErrorText(e: HookError): (r: string)
    ensures StartsWith(r, Tag)
  {
    var detail := match e
      case BranchUnknown => "failed to determine branch name."
      case PrefixMismatch(existing, desired) =>
        "the message prefix '" + existing + "' does not match the branch prefix '" + desired + "'";
    assert (Tag + detail)[..|Tag|] == Tag;
    Tag + detail
  }

  /** The tag that starts every line the hook reports. */
  const Tag := "commit-msg-hook: "

  ghost predicate Contains(s: string, part: string)
  {
    exists i :: 0 <= i <= |s| && StartsWith(s[i..], part)
  }

  /** The commit-message file, whose content the hook overwrites in place. */
  class MessageFile {
    var content: string

    constructor (text: string)
      ensures content == text
    {
      content := text;
    }
  }

  /** `run_hook`: read the message, decide, and write only on a rewrite. */
  method RunHook(file: MessageFile, branch: Option<string>) returns (status: Status)
    modifies file
    ensures status == StatusOf(Decide(old(file.content), branch))
    ensures file.content == NewContent(old(file.content), branch)
    ensures file.content != old(file.content) ==> Decide(old(file.content), branch).Rewrite?
    ensures status.Err? ==> file.content == old(file.content)
  {
    var original := file.content;
    var outcome := Decide(original, branch);
    if outcome.Rewrite? {
      file.content := outcome.message;
    }
    status := StatusOf(outcome);
  }

  /** A message that begins with a ticket prefix is neither blank nor a
      fixup or squash message. */
  lemma TicketMessageNotSkipped(msg: string, t: string)
    requires MessagePatternCaptures(msg, t)
    ensures !IsBlank(msg) && !IsAutosquash(msg)
  {
    var k :| 0 < k < |t| - 1 && t[k] == '-' && AllUpper(t[..k]) && AllDigits(t[k + 1..]);
    assert msg[0] == t[0] == t[..k][0];
    DiffersAt(msg, "fixup!", 0);
    DiffersAt(msg, "squash!", 0);
  }

  /** An empty or all-whitespace message is left alone, even when the branch
      cannot be determined. */
  lemma BlankMessageSkipped(msg: string, branch: Option<string>)
    requires forall i :: 0 <= i < |msg| ==> IsWhitespace(msg[i])
    ensures Decide(msg, branch) == Skip(EmptyMessage)
    ensures NewContent(msg, branch) == msg
  {
    TrimEmptyIffBlank(msg);
  }

  /** A message that starts with `fixup!` or `squash!` is left alone for any
      branch, even an undeterminable one. */
  lemma AutosquashSkipped(msg: string, branch: Option<string>)
    requires StartsWith(msg, "fixup!") || StartsWith(msg, "squash!")
    ensures Decide(msg, branch) == Skip(FixupOrSquash)
    ensures NewContent(msg, branch) == msg
  {
    assert msg[0] == 'f' || msg[0] == 's';
    TrimEmptyIffBlank(msg);
  }

  /** Past the two early exits, a missing branch name is an error and the
      message is not written. */
  lemma UnknownBranchFails(msg: string)
    requires !IsBlank(msg) && !IsAutosquash(msg)
    ensures Decide(msg, None) == Fail(BranchUnknown)
    ensures NewContent(msg, None) == msg
  {
  }

  /** On a branch whose upper-cased name the branch pattern does not match,
      the message is left byte for byte as it was, and the run succeeds. */
  lemma NonTicketBranchSkipped(msg: string, branch: string)
    requires !IsBlank(msg) && !IsAutosquash(msg)
    requires forall t :: !BranchPatternCaptures(Uppercase(branch), t)
    ensures Decide(msg, Some(branch)) == Skip(NonPrefixedBranch)
    ensures NewContent(msg, Some(branch)) == msg
  {
    if ExtractTicket(branch).Some? {
      ExtractTicketMatchesPattern(branch, ExtractTicket(branch).value);
    }
  }

  /** A message already carrying the branch's ticket, followed by `: ` or a
      space, is left alone. */
  lemma CorrectPrefixSkipped(msg: string, branch: string, t: string)
    requires BranchPatternCaptures(Uppercase(branch), t)
    requires MessagePatternCaptures(msg, t)
    ensures Decide(msg, Some(branch)) == Skip(AlreadyPrefixed)
    ensures NewContent(msg, Some(branch)) == msg
  {
    TicketMessageNotSkipped(msg, t);
    ExtractTicketMatchesPattern(branch, t);
    ExistingPrefixMatchesPattern(msg, t);
  }

  /** A message carrying a different ticket is an error naming both
      tickets, and the message is not written. */
  lemma MismatchedPrefixFails(msg: string, branch: string, existing: string, desired: string)
    requires BranchPatternCaptures(Uppercase(branch), desired)
    requires MessagePatternCaptures(msg, existing)
    requires existing != desired
    ensures Decide(msg, Some(branch)) == Fail(PrefixMismatch(existing, desired))
    ensures NewContent(msg, Some(branch)) == msg
  {
    TicketMessageNotSkipped(msg, existing);
    ExtractTicketMatchesPattern(branch, desired);
    ExistingPrefixMatchesPattern(msg, existing);
  }

  /** Otherwise the one write puts the ticket, `: ` and the original message,
      unchanged, into the file. */
  lemma PrefixAdded(msg: string, branch: string, t: string)
    requires !IsBlank(msg) && !IsAutosquash(msg)
    requires BranchPatternCaptures(Uppercase(branch), t)
    requires forall e :: !MessagePatternCaptures(msg, e)
    ensures Decide(msg, Some(branch)) == Rewrite(t + ": " + msg)
    ensures NewContent(msg, Some(branch)) == t + ": " + msg
  {
    ExtractTicketMatchesPattern(branch, t);
    if ExistingPrefix(msg).Some? {
      ExistingPrefixMatchesPattern(msg, ExistingPrefix(msg).value);
    }
  }

  /** The mismatch error says "does not match" and names both prefixes. */
  lemma MismatchTextNamesBoth(existing: string, desired: string)
    ensures Contains(ErrorText(PrefixMismatch(existing, desired)), "does not match")
    ensures Contains(ErrorText(PrefixMismatch(existing, desired)), existing)
    ensures Contains(ErrorText(PrefixMismatch(existing, desired)), desired)
  {
    var lead := "the message prefix '";
    var middle := "' does not match the branch prefix '";
    var detail := lead + existing + middle + desired + "'";
    ErrorTextOfMismatch(existing, desired);
    MiddleNamesMismatch();
    assert detail[|lead|..][..|existing|] == existing;
    var at := |lead| + |existing|;
    assert detail[at + 2..][..14] == "does not match";
    ContainedAfter(Tag, detail, "does not match", at + 2);
    ContainedAfter(Tag, detail, existing, |lead|);
    at := at + |middle|;
    assert detail[at..][..|desired|] == desired;
    ContainedAfter(Tag, detail, desired, at);
  }

  /** Proof step only, not a property: `ErrorText` unfolded for one
      constructor, kept apart so the verifier stays within its limits. */
  lemma ErrorTextOfMismatch(existing: string, desired: string)
    ensures ErrorText(PrefixMismatch(existing, desired))
      == Tag + ("the message prefix '" + existing + "' does not match the branch prefix '" + desired + "'")
  {
  }

  /** Proof step only, not a property: a literal split, kept apart because
      the verifier runs out of resource when it meets it inside
      `MismatchTextNamesBoth`. */
  lemma MiddleNamesMismatch()
    ensures "' does not match the branch prefix '" == "' " + "does not match" + " the branch prefix '"
  {
  }

  lemma ContainedAfter(head: string, s: string, part: string, i: nat)
    requires i <= |s| && StartsWith(s[i..], part)
    ensures Contains(head + s, part)
  {
    assert (head + s)[|head| + i..] == s[i..];
  }

  /** A rewritten message hits the equal-prefix branch on the next run with
      the same branch. */
  lemma RewriteThenSkip(msg: string, branch: Option<string>)
    requires Decide(msg, branch).Rewrite?
    ensures Decide(Decide(msg, branch).message, branch) == Skip(AlreadyPrefixed)
  {
    RewriteWritesPrefix(msg, branch);
    var t := ExtractTicket(branch.value).value;
    var written := t + ": " + msg;
    WrittenPrefixRecognised(t, msg);
    ExistingPrefixMatchesPattern(written, t);
    TicketMessageNotSkipped(written, t);
    SamePrefixSkipped(written, branch.value, t);
  }

  lemma RewriteWritesPrefix(msg: string, branch: Option<string>)
    requires Decide(msg, branch).Rewrite?
    ensures branch.Some? && ExtractTicket(branch.value).Some?
    ensures Decide(msg, branch).message == ExtractTicket(branch.value).value + ": " + msg
  {
  }

  lemma SamePrefixSkipped(msg: string, name: string, t: string)
    requires !IsBlank(msg) && !IsAutosquash(msg)
    requires ExtractTicket(name) == Some(t) && ExistingPrefix(msg) == Some(t)
    ensures Decide(msg, Some(name)) == Skip(AlreadyPrefixed)
  {
  }

  /** Running the hook a second time with the same branch changes nothing. */
  lemma RunTwiceSameAsOnce(msg: string, branch: Option<string>)
    ensures NewContent(NewContent(msg, branch), branch) == NewContent(msg, branch)
    ensures !Decide(NewContent(msg, branch), branch).Rewrite?
  {
    if Decide(msg, branch).Rewrite? {
      RewriteThenSkip(msg, branch);
    }
  }
}
