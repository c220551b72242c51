/** The hook's outcomes on the inputs of the repository's integration tests
    (tests/prepare_commit_msg_tests.rs), plus the double-prefix edge case of
    a message that is only a ticket. The scanners are run on the concrete
    strings by pointing the verifier at where each character run ends; each
    outcome is assembled from separately proved facts about its two inputs. */
module HookExamples {
  import opened Wrappers
  import opened Chars
  import opened Tickets
  import opened Hooks

  /** A message whose first character is a letter other than `f` and `s`
      passes both early exits. */
  lemma PassesEarlyExits(msg: string)
    requires |msg| > 0 && msg[0] != 'f' && msg[0] != 's'
    requires IsUpper(msg[0]) || IsLower(msg[0])
    ensures !IsBlank(msg) && !IsAutosquash(msg)
  {
    TrimEmptyIffBlank(msg);
    DiffersAt(msg, "fixup!", 0);
    DiffersAt(msg, "squash!", 0);
  }

  /** The last step of each rewriting run: the ticket, `: `, the message. */
  lemma RewritesWith(msg: string, name: string, t: string)
    requires !IsBlank(msg) && !IsAutosquash(msg)
    requires ExtractTicket(name) == Some(t) && ExistingPrefix(msg) == None
    ensures Decide(msg, Some(name)) == Rewrite(t + ": " + msg)
  {
  }

  /** Branches `TICKET-123`, `TICKET-456` and `TICKET-789`: a name that is
      a whole ticket is its own prefix. */
  lemma TicketBranch(d: string)
    requires |d| == 3 && AllDigits(d)
    ensures ExtractTicket("TICKET-" + d) == Some("TICKET-" + d)
  {
    var name := "TICKET-" + d;
    forall i | 0 <= i < |name| ensures !IsLower(name[i]) {
      if i >= 7 {
        assert name[i] == d[i - 7];
      }
    }
    assert Uppercase(name) == name;
    LetterEndAt(name, 0, 6);
    DigitEndAt(name, 7, 10);
    assert name[0..10] == name;
  }

  /* `Ticket123Branch`, `Ticket456Branch` and `Ticket789Branch` are proof
     steps only, not properties: instances of `TicketBranch` with the literal
     concatenation spelled out. The scenario lemmas cannot call `TicketBranch`
     themselves, because the verifier runs out of resource when a literal
     concatenation meets the unfolding of `Decide` in one proof. */
  lemma Ticket123Branch()
    ensures ExtractTicket("TICKET-123") == Some("TICKET-123")
  {
    TicketBranch("123");
    assert "TICKET-" + "123" == "TICKET-123";
  }

  lemma Ticket456Branch()
    ensures ExtractTicket("TICKET-456") == Some("TICKET-456")
  {
    TicketBranch("456");
    assert "TICKET-" + "456" == "TICKET-456";
  }

  lemma Ticket789Branch()
    ensures ExtractTicket("TICKET-789") == Some("TICKET-789")
  {
    TicketBranch("789");
    assert "TICKET-" + "789" == "TICKET-789";
  }

  /** Branch `feature/ABC-456`: the scope is dropped. */
  lemma ScopedBranch()
    ensures ExtractTicket("feature/ABC-456") == Some("ABC-456")
  {
    ScopedBranchUppercase();
    ScopedBranchScope();
    ScopedBranchTicket();
  }

  lemma ScopedBranchUppercase()
    ensures Uppercase("feature/ABC-456") == "FEATURE/ABC-456"
  {
  }

  lemma ScopedBranchScope()
    ensures ScopeEnd("FEATURE/ABC-456") == 8
  {
    LetterEndAt("FEATURE/ABC-456", 0, 7);
  }

  lemma ScopedBranchTicket()
    ensures TicketAt("FEATURE/ABC-456", 8) == Some("ABC-456")
  {
    var u := "FEATURE/ABC-456";
    LetterEndAt(u, 8, 11);
    DigitEndAt(u, 12, 15);
    assert u[8..15] == "ABC-456";
  }

  lemma MainBranch()
    ensures ExtractTicket("main") == None
  {
    assert Uppercase("main") == "MAIN";
    LetterEndAt("MAIN", 0, 4);
  }

  lemma TestMessageUnprefixed()
    ensures ExistingPrefix("test message") == None
  {
    LetterEndAt("test message", 0, 0);
  }

  lemma SemanticMessagePasses()
    ensures !IsBlank("semantic branch") && !IsAutosquash("semantic branch")
  {
    var msg := "semantic branch";
    assert !IsWhitespace(msg[0]);
    DiffersAt(msg, "fixup!", 0);
    DiffersAt(msg, "squash!", 1);
  }

  lemma SemanticMessageUnprefixed()
    ensures ExistingPrefix("semantic branch") == None
  {
    LetterEndAt("semantic branch", 0, 0);
  }

  lemma BareTicketUnprefixed()
    ensures ExistingPrefix("TICKET-123") == None
  {
    var msg := "TICKET-123";
    LetterEndAt(msg, 0, 6);
    DigitEndAt(msg, 7, 10);
    assert msg[0..10] == msg;
    assert msg[10..] == [];
  }

  lemma ValidMessagePrefixed()
    ensures ExistingPrefix("TICKET-456: valid") == Some("TICKET-456")
  {
    var msg := "TICKET-456: valid";
    LetterEndAt(msg, 0, 6);
    DigitEndAt(msg, 7, 10);
    assert msg[0..10] == "TICKET-456";
    assert msg[10..][..2] == ": ";
  }

  lemma InvalidMessagePrefixed()
    ensures ExistingPrefix("WRONG-123: invalid") == Some("WRONG-123")
  {
    var msg := "WRONG-123: invalid";
    LetterEndAt(msg, 0, 5);
    DigitEndAt(msg, 6, 9);
    assert msg[0..9] == "WRONG-123";
    assert msg[9..][..2] == ": ";
  }

  lemma NoPrefixMessage()
    ensures !IsBlank("no prefix") && !IsAutosquash("no prefix")
  {
    PassesEarlyExits("no prefix");
  }

  /** Branch `TICKET-123`, message `test message`. */
  lemma AddsPrefixOnTicketBranch()
    ensures Decide("test message", Some("TICKET-123")) == Rewrite("TICKET-123: test message")
  {
    PassesEarlyExits("test message");
    TestMessageUnprefixed();
    Ticket123Branch();
    RewritesWith("test message", "TICKET-123", "TICKET-123");
    WrittenTexts();
  }

  /** Branch `main`, message `no prefix`: unchanged. */
  lemma NoActionOnNonTicketBranch()
    ensures Decide("no prefix", Some("main")) == Skip(NonPrefixedBranch)
  {
    NoPrefixMessage();
    MainBranch();
  }

  /** Branch `TICKET-456`, message `TICKET-456: valid`: unchanged. */
  lemma DetectsCorrectExistingPrefix()
    ensures Decide("TICKET-456: valid", Some("TICKET-456")) == Skip(AlreadyPrefixed)
  {
    PassesEarlyExits("TICKET-456: valid");
    ValidMessagePrefixed();
    Ticket456Branch();
  }

  /** Branch `TICKET-789`, message `WRONG-123: invalid`: a mismatch error. */
  lemma RejectsIncorrectPrefix()
    ensures Decide("WRONG-123: invalid", Some("TICKET-789")) == Fail(PrefixMismatch("WRONG-123", "TICKET-789"))
  {
    PassesEarlyExits("WRONG-123: invalid");
    InvalidMessagePrefixed();
    Ticket789Branch();
  }

  /** Branch `TICKET-000`, message `fixup! previous`: unchanged. */
  lemma IgnoresFixupCommit()
    ensures Decide("fixup! previous", Some("TICKET-000")) == Skip(FixupOrSquash)
  {
    AutosquashSkipped("fixup! previous", Some("TICKET-000"));
  }

  /** Branch `feature/ABC-456`, message `semantic branch`. */
  lemma HandlesSemanticBranchName()
    ensures Decide("semantic branch", Some("feature/ABC-456")) == Rewrite("ABC-456: semantic branch")
  {
    SemanticMessagePasses();
    SemanticMessageUnprefixed();
    ScopedBranch();
    RewritesWith("semantic branch", "feature/ABC-456", "ABC-456");
    WrittenTexts();
  }

  /** A message that is only the ticket, with no space after it, is not
      recognised as prefixed, so it gets the prefix a second time. */
  lemma BareTicketPrefixedAgain()
    ensures Decide("TICKET-123", Some("TICKET-123")) == Rewrite("TICKET-123: TICKET-123")
  {
    PassesEarlyExits("TICKET-123");
    BareTicketUnprefixed();
    Ticket123Branch();
    RewritesWith("TICKET-123", "TICKET-123", "TICKET-123");
    WrittenTexts();
  }

  /** Proof step only, not a property: the three rewritten texts spelled
      out, kept apart because the verifier runs out of resource when these
      literal concatenations meet the unfolding of `Decide`. */
  lemma WrittenTexts()
    ensures "TICKET-123" + ": " + "test message" == "TICKET-123: test message"
    ensures "ABC-456" + ": " + "semantic branch" == "ABC-456: semantic branch"
    ensures "TICKET-123" + ": " + "TICKET-123" == "TICKET-123: TICKET-123"
  {
  }

  /** One run on a message file, as the integration test drives it: branch
      `TICKET-123`, file content `test message`. */
  method RunOnTicketBranch() returns (status: Status, content: string)
    ensures status == Ok && content == "TICKET-123: test message"
  {
    var file := new MessageFile("test message");
    status := RunHook(file, Some("TICKET-123"));
    AddsPrefixOnTicketBranch();
    content := file.content;
  }

  /** Branch `TICKET-789`, file content `WRONG-123: invalid`: the run fails
      and the file keeps its content. */
  method RunOnMismatchedPrefix() returns (status: Status, content: string)
    ensures status == Err(PrefixMismatch("WRONG-123", "TICKET-789"))
    ensures content == "WRONG-123: invalid"
  {
    var file := new MessageFile("WRONG-123: invalid");
    status := RunHook(file, Some("TICKET-789"));
    RejectsIncorrectPrefix();
    content := file.content;
  }
}
