# prepare-commit-msg: the ticket-prefix decision, in Dafny

This project models the git hook `hooks::run_hook` of the `prepare-commit-msg`
crate. The hook reads the proposed commit message and the name of the
checked-out branch. It then does exactly one of three things:

- it leaves the message alone;
- it overwrites the message with `TICKET-123: ` followed by the original text;
- it fails.

The ticket comes from the branch name, upper-cased and matched against
`^([A-Z]+/)?([A-Z]+-[0-9]+)`. A ticket already at the head of the message is
recognised by `^([A-Z]+-[0-9]+):? `.

Files:

- `wrappers.dfy`: module `Wrappers`, the `Option` type.
- `chars.dfy`: module `Chars`, the standard-library text operations the hook
  uses. These are `trim` (with Unicode `White_Space`), `starts_with`,
  `to_uppercase` (ASCII) and the `[A-Z]` and `[0-9]` classes.
- `tickets.dfy`: module `Tickets`, the two regular expressions as scanners.
  Each scanner is proved equal to a declarative statement of what its
  pattern captures. The two statements are `BranchPatternCaptures` and
  `MessagePatternCaptures`.
- `hooks.dfy`: module `Hooks`. It holds the decision `Decide`, the message file
  as a class whose `content` the method `RunHook` overwrites, and the hook's
  properties as lemmas.
- `examples.dfy`: module `HookExamples`, the integration tests' inputs and
  their proved outcomes.

Both patterns are anchored at the start. At each point, the next character
decides which branch the pattern takes. A letter run stops at the first
non-letter. A scope exists exactly when that non-letter is `/`. The greedy
digit run stops at the first non-digit. After a scope, the pattern's fallback
with no scope cannot succeed, because the letters at position 0 are followed
by `/` and not by `-`. So the regex engine's leftmost-first capture is the
unique decomposition that the declarative predicates describe. For the branch
pattern that includes "no digit right after the ticket". For the message
pattern it follows from the ` ` or `:` that must come next.

The order of the checks is the source's:

1. blank message;
2. `fixup!` or `squash!`;
3. branch lookup;
4. branch ticket;
5. existing prefix;
6. rewrite.

So a blank or fixup/squash message succeeds even when no branch can be
determined.

## Model

| member | source | states |
|---|---|---|
| `Chars.IsWhitespace` | src/lib.rs:9 | definition: the 25 code points of the Unicode White_Space property, which `char::is_whitespace` and so `trim()` use |
| `Chars.StartsWith` | src/lib.rs:13 | definition: `str::starts_with`, the text's first characters are the prefix |
| `Chars.ToUpper` | src/lib.rs:24 | `a`..`z` go to the corresponding `A`..`Z`; every other character is unchanged |
| `Chars.TrimStart` | src/lib.rs:9 | the result is a suffix of the input; everything dropped is whitespace; the result does not start with whitespace |
| `Chars.TrimEnd` | src/lib.rs:9 | the result is a prefix of the input; everything dropped is whitespace; the result does not end with whitespace |
| `Chars.Uppercase` | src/lib.rs:24 | the result has the input's length and no `a`..`z`; each character is kept or is a lower-case letter moved to its upper-case counterpart |
| `Chars.Trim` | src/lib.rs:9 | the result is no longer than the input and neither starts nor ends with whitespace |
| `Chars.TrimKeepsMiddle` | src/lib.rs:9 | the result of `trim()` is one slice of the input with only whitespace before and after it |
| `Chars.TrimEmptyIffBlank` | src/lib.rs:9 | `trim()` is empty exactly when every character of the message is whitespace |
| `Chars.UppercaseIdempotent` | src/lib.rs:24 | upper-casing an upper-cased name changes nothing |
| `Tickets.IsTicket` | src/lib.rs:26 | definition: the whole text matches `[A-Z]+-[0-9]+`, the sub-pattern shared by both regular expressions (also src/lib.rs:38) |
| `Tickets.IsScope` | src/lib.rs:26 | definition: the whole text matches the optional group `[A-Z]+/` |
| `Tickets.BranchPatternCaptures` | src/lib.rs:26 | a capture of the branch pattern is a ticket no longer than the text it was found in |
| `Tickets.MessagePatternCaptures` | src/lib.rs:38 | a capture of the message pattern is a proper prefix of the message |
| `Tickets.LetterEnd` | src/lib.rs:26 | `[A-Z]+` is greedy: the returned end bounds a run of letters and is followed by a non-letter or the end |
| `Tickets.DigitEnd` | src/lib.rs:26 | `[0-9]+` is greedy: the returned end bounds a run of digits and is followed by a non-digit or the end |
| `Tickets.TicketAt` | src/lib.rs:26 | a found ticket has the form `[A-Z]+-[0-9]+`, sits at the given position and has no digit right after it |
| `Tickets.ScopeEnd` | src/lib.rs:26 | the ticket starts at 0 or right after a `[A-Z]+/` scope |
| `Tickets.ExtractTicket` | src/lib.rs:24-29 | the desired prefix, when present, has the form `[A-Z]+-[0-9]+` |
| `Tickets.ExtractTicketSound` | src/lib.rs:24-29 | what the scanner returns is the branch pattern's group-2 capture on the upper-cased name |
| `Tickets.ExtractTicketComplete` | src/lib.rs:24-29 | whenever the branch pattern captures `t`, the scanner returns `t` |
| `Tickets.ExtractTicketMatchesPattern` | src/lib.rs:24-29 | the scanner returns `Some(t)` if and only if the branch pattern captures `t`; so it returns `None` exactly when the pattern does not match |
| `Tickets.ScopeEndIs` | src/lib.rs:26 | the optional scope group is present exactly when the ticket follows a scope; the two alternatives never both match |
| `Tickets.TicketAtFinds` | src/lib.rs:26 | a ticket at a position with no digit after it is what the scanner finds there |
| `Tickets.LetterEndAt` | src/lib.rs:26 | a letter run's end is unique |
| `Tickets.DigitEndAt` | src/lib.rs:26 | a digit run's end is unique |
| `Tickets.ExtractTicketIgnoresCase` | src/lib.rs:24-29 | a branch name and its upper-cased form give the same desired prefix |
| `Tickets.ExistingPrefix` | src/lib.rs:38-43 | an existing prefix, when present, has the form `[A-Z]+-[0-9]+` |
| `Tickets.ExistingPrefixMatchesPattern` | src/lib.rs:38-43 | the scanner returns `Some(t)` if and only if the message starts with a ticket `t` followed by `: ` or ` ` |
| `Tickets.WrittenPrefixRecognised` | src/lib.rs:38-56 | a message the hook writes, `t + ": " + msg`, has existing prefix `t` |
| `Hooks.IsBlank` | src/lib.rs:9 | a message is blank exactly when every character is whitespace |
| `Hooks.IsAutosquash` | src/lib.rs:13 | a `fixup!` or `squash!` message has at least six characters and starts with neither whitespace nor an upper-case letter, so it is never blank and never starts with a ticket |
| `Hooks.Decide` | src/lib.rs:9-56 | a rewrite is strictly longer and ends with the original message verbatim; a mismatch error carries two different prefixes |
| `Hooks.Reconcile` | src/lib.rs:38-57 | a rewrite happens only when the message has no prefix of its own, and it writes `desired + ": " + msg`; a failure is always a mismatch between two different prefixes |
| `Hooks.NewContent` | src/lib.rs:57 | the file afterwards holds the old message or a text that ends with it verbatim; a failing run leaves it unchanged |
| `Hooks.StatusOf` | src/lib.rs:44-59 | the run returns an error exactly when the decision fails, and it is that decision's error |
| `Hooks.ErrorText` | src/lib.rs:23 | every error text starts with `commit-msg-hook: ` (the branch error at line 23, the mismatch error at lines 48-51) |
| `Hooks.MessageFile.constructor` | src/lib.rs:7 | the file holds the given text |
| `Hooks.RunHook` | src/lib.rs:6-60 | the file's new content is the rewritten message on a rewrite, else unchanged; the status is the error exactly when the decision fails; an error never writes |
| `Hooks.TicketMessageNotSkipped` | src/lib.rs:9-16 | a message that starts with a ticket prefix passes both early exits |
| `Hooks.BlankMessageSkipped` | src/lib.rs:9-11 | an all-whitespace message succeeds with no write, for any branch, including none |
| `Hooks.AutosquashSkipped` | src/lib.rs:13-16 | a message starting with `fixup!` or `squash!` succeeds with no write, for any branch, including none |
| `Hooks.UnknownBranchFails` | src/lib.rs:18-23 | past the early exits, an undeterminable branch is an error and nothing is written |
| `Hooks.NonTicketBranchSkipped` | src/lib.rs:26-35 | when the branch pattern does not match the upper-cased name, the run succeeds and the message is unchanged |
| `Hooks.CorrectPrefixSkipped` | src/lib.rs:38-46 | a message that already carries the branch's ticket before `: ` or ` ` is left alone |
| `Hooks.SamePrefixSkipped` | src/lib.rs:44-46 | equal existing and desired prefixes lead to success without a write |
| `Hooks.MismatchedPrefixFails` | src/lib.rs:44-53 | a message carrying a different ticket is a mismatch error naming both, and nothing is written |
| `Hooks.PrefixAdded` | src/lib.rs:56-57 | otherwise the single write is exactly `desired + ": " + original` |
| `Hooks.MismatchTextNamesBoth` | src/lib.rs:48-51 | the mismatch error text contains "does not match", the existing prefix and the desired prefix |
| `Hooks.RewriteThenSkip` | src/lib.rs:38-57 | a rewritten message, run again on the same branch, hits the equal-prefix branch |
| `Hooks.RunTwiceSameAsOnce` | src/lib.rs:6-60 | running the hook twice with the same branch leaves the same content as running it once, and the second run never writes |
| `HookExamples.AddsPrefixOnTicketBranch` | tests/prepare_commit_msg_tests.rs:37-48 | branch `TICKET-123`, message `test message` gives `TICKET-123: test message` |
| `HookExamples.NoActionOnNonTicketBranch` | tests/prepare_commit_msg_tests.rs:52-60 | branch `main` leaves `no prefix` unchanged |
| `HookExamples.DetectsCorrectExistingPrefix` | tests/prepare_commit_msg_tests.rs:64-75 | branch `TICKET-456` leaves `TICKET-456: valid` unchanged |
| `HookExamples.RejectsIncorrectPrefix` | tests/prepare_commit_msg_tests.rs:79-90 | branch `TICKET-789` with `WRONG-123: invalid` is a mismatch error naming both |
| `HookExamples.IgnoresFixupCommit` | tests/prepare_commit_msg_tests.rs:94-105 | `fixup! previous` is left alone |
| `HookExamples.HandlesSemanticBranchName` | tests/prepare_commit_msg_tests.rs:109-120 | branch `feature/ABC-456` gives `ABC-456: semantic branch` |
| `HookExamples.ScopedBranch` | tests/prepare_commit_msg_tests.rs:109-120 | the scope `FEATURE/` is skipped and `ABC-456` is extracted |
| `HookExamples.MainBranch` | tests/prepare_commit_msg_tests.rs:52-60 | `main` has no ticket |
| `HookExamples.TicketBranch` | src/lib.rs:24-29 | a branch named `TICKET-` and three digits is its own desired prefix |
| `HookExamples.RunOnTicketBranch` | tests/prepare_commit_msg_tests.rs:37-48 | one run on a file holding `test message`, branch `TICKET-123`, returns `Ok` and leaves `TICKET-123: test message` in the file |
| `HookExamples.RunOnMismatchedPrefix` | tests/prepare_commit_msg_tests.rs:79-90 | one run on a file holding `WRONG-123: invalid`, branch `TICKET-789`, returns the mismatch error and leaves the file as it was |
| `HookExamples.BareTicketPrefixedAgain` | src/lib.rs:38-56 | a message that is only `TICKET-123` has no space after the ticket, so it is not recognised and gets the prefix a second time |

## Left out

- Reading and writing the file (src/lib.rs:7, 57): the file is a `MessageFile` object with a `content` field. Read failures, non-UTF-8 content and write failures are not modelled, so `RunHook` never fails for I/O reasons.
- Opening the repository and resolving HEAD (src/lib.rs:18-23) become the input `branch: Option<string>`. `None` stands for every failure of that chain. Its error is `BranchUnknown`, whose text is the one for a missing shorthand. git2's own error texts for the other failures are not modelled. Whether a detached HEAD produces an error or a name such as `HEAD` depends on git2, which is not part of this model.
- `Chars.Uppercase` maps only `a`..`z`; every other character is kept as it is. Rust's `to_uppercase` also maps some non-ASCII characters to text that contains ASCII letters. U+0131 becomes `I`, U+017F becomes `S`, U+00DF becomes `SS`, and the ligatures U+FB00 to U+FB06 become two or three letters. On branch names that contain these characters, the model can extract a different prefix, or none: `ıa-1` upper-cases to `IA-1` in Rust, but the model finds no ticket in it. A second group cannot change the extracted prefix. U+0149 becomes `ʼN`, U+01F0 becomes `J` and a combining caron, and U+1E96 to U+1E9A become an ASCII letter and a combining or modifier mark. In each case the new letter sits next to a character that is neither a letter, a digit, `-` nor `/`. So every `[A-Z]+` run that reaches that letter fails at the same place as the model's run on the original character.
- Building the two `Regex` values and their compile errors (src/lib.rs:26, 38): the patterns are fixed and valid, and they are hand-coded as scanners. The `expect` at src/lib.rs:43 cannot fire, because group 1 takes part in every match. The model has no panic path.
- The `println!` status lines (src/lib.rs:14, 33, 45, 58) only inform. `Outcome` says which status line, if any, a successful run prints: `EmptyMessage` prints none, the other three skip reasons print one each, and a rewrite prints the line at src/lib.rs:58. Their texts are not modelled.
- src/main.rs (argument check and exit code) and the temporary-repository setup of the tests are not part of this model.
