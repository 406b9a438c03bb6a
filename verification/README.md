# Verified model of the `cermet` operator client

This project models the parts of the `cermet` command line client where a mistake would cost an
operator something: the review diff, the staged replacement of the live authority corpus, the codec and
the safe publication of `CERMET.md`, the quiesce barrier around re-registering the MCP server, the
quoting of the commands it prints, its output journal, and its check of prepared corpora. It proves
what each promises, for every input and every interleaving. Run `dafny verify dfyconfig.toml`.

## Layout

| files | what they model |
|---|---|
| `Subsequence`, `RuleDiff`, `Hunks`, `Patch`, `DiffText`, `CanonicalRules` | the unified rule diff: table, walk, hunks, headers, printed text, a strict reader that applies it, and the printed form of rules |
| `SentenceRecord`, `AuthorityClient`, `IncrementalClient` | the daemon's record with its compare-and-swap, `doc apply`, and the incremental ceremonies, over a network that drops and delays |
| `ManagedBlock`, `Utf8Encoding`, `ManagedDocument`, `DocumentCodec`, `DocumentRewrite`, `Pinning`, `CermetDocument`, `CermetGrammar`, `Drift` | the bytes and the grammar of a managed document, its parser and rewriter, the lens laws, the exact texts accepted, when a marker can be taken, and drift |
| `FileSystem`, `PublicationReport`, `PublicationMoments`, `Publication` | create and replace of `CERMET.md` against an environment that acts before every system call |
| `DocumentCeremonies` | `doc apply` and `doc export` from end to end, over the daemon, the codec and the store |
| `RepointBarrier`, `RepointSchedule`, `RepointInstall` | the daemon's barrier, the discipline of a run, the times of a drain, and `mcp install` |
| `Quoting`, `Journal`, `PreparedView` | shell quoting, the tee and the rotating journal, the snapshot bijection |

Code that updates state in place is modelled by classes and loops proved against specification
functions; code that only computes is modelled by functions. Where others act concurrently, their
actions are a schedule fixed in advance and quantified over: every theorem holds for every schedule. The
methods that may refuse or fail also say that they succeed when nobody interferes.

## What the proofs found

Each of these is a lemma of the project, and in each the code was modelled as it is.

- The one-hunk diff shown by an apply ceremony starts both sides of its header at 1, which is not where
  a unified diff anchors an empty side: the hunk applies if and only if neither side is empty
  (`TransitionAppliesExactly`).
- Trimming the printed diff can take more than its final newline; it reads back if and only if its last
  line ends visibly (`PrintedDiffReads`), and a diff that ends in a blank line does not (`BlankLineIsLost`).
  Canonical corpora cannot reach this: every printed rule ends visibly (`CanonicalDiffReads`).
- `doc apply` never loses an update (`NoLostUpdate`). The body ceremony reads nothing after it stages, so
  its review is the record displaced if and only if nothing was committed between its reading and its
  staging (`BodyDisplacesReviewed`, `BodyReviewCanBeStale`).
- A commit pins the record it displaces. Whether that record is displaced in the serving class reviewed is
  settled at the staging, not at the rechecks: it is if and only if the record was served then as it was at
  the reading (`ClassDisplaced`, `NoLostUpdate`, `ServingClassMayDiffer`).
- A lost reply costs certainty only after many more losses. When nobody else interferes, `doc apply` knows its
  outcome unless seven calls in a row are lost and none of the messages among them landed, or eight are
  (`LossOutcome`, `RunApply`, `ReconcileApplyCommit`).
- A document can take a marker over its canonical body if and only if the result fits
  (`CermetPinsExactly`). Apply only learns this after its commit, at a rewrite it expects to succeed, which
  therefore fails exactly then (`DocumentCeremonies.Apply`); the documents it fails on are the unpinned
  ones in the last 67 bytes below the limit (`UnpinnableDocument`).
- The tag `Created` or `Replaced` does not mean the intended bytes: with an edit just before the mode is set
  the store flags nothing (`Store.Create`). An unflagged report is not clean if and only if somebody
  edited the new file after its check as the destination and before the read that follows its mode
  (`NotCleanIfEdited`); the tag together with the byte comparison does mean it (`CleanIsPublished`).
- The recheck of `replace` does not cover the rename window. The file displaced is the one rechecked if and
  only if the document's name still led to it just before the rename and the temporary file's name did not
  (`DisplacesRechecked`); a file swapped in inside the window is displaced and nothing is flagged
  (`Store.Replace`).
- When one system call fails and nobody interferes, a publication that fails leaves no temporary file behind,
  with one exception: if the call that fails is the one that looks at the file just made, that file is
  forgotten (`Store.Create`, `Store.Replace`).
- The lease check truncates to whole seconds. Against the instant of expiry the budget can be missed by
  less than a second (`LeaseInstant`, `LeaseInstantMissed`), but the daemon truncates too, and by its rule
  a run whose rechecks, overruns and scheduling keep to the margin is always done under the barrier
  (`ChangeStaysInLease`).
- Journal retention holds for one process at a time. A rotation decided on a stale size keeps it if and
  only if the file renamed is past the threshold or is the whole history (`RotateRetains`,
  `StaleRotationLoses`).

## Modelling choices

- Bytes of a document are characters, one per byte; UTF-8 validity is modelled as the standard defines it.
- Random 256-bit nonces are issue numbers and so never repeat; a digest is compared through its text, or
  is a function for which the two texts compared are assumed not to collide.
- Parsing rules and expanding sets are parameters: a canonicalisation, an analysis, a rebuilding function.
  Rule printing is modelled for the diff. A canonical text has one line per rule.
- Daemon replies other than a definite refusal are treated as unknown outcomes, as the client does.
- Change times are distinct for distinct changes, and inode numbers are not reused during a call. A file is
  read in one step between the two looks at its metadata.
- The marker of a document that is applied is the digest of some text. Whether the file is unchanged at the
  three rechecks of an apply is part of its schedule; the replacement that follows rechecks the file itself.
- The clock of the drain and the clock of the lease are one clock, in milliseconds.
- A failed release of the daemon's barrier only keeps claims blocked, so releases are taken to succeed.
- Writes refused by permission or symbolic-link checks are failures that may happen at any system call.

## Model

| member | source | states |
|---|---|---|
| `Subsequence.LcsIsGreatest` | crates/cermet-cli/src/reconciliation.rs:2256-2266 | no common subsequence of two line sequences, given by any pair of embeddings, is longer than `Lcs` |
| `Subsequence.LcsIsAttained` | crates/cermet-cli/src/reconciliation.rs:2256-2266 | some common subsequence has exactly the length `Lcs` |
| `Subsequence.LcsMonotone` | crates/cermet-cli/src/reconciliation.rs:2285-2292 | dropping a first line on one side and then on the other never gains: the inequality the walk's tie rule rests on |
| `RuleDiff.FillTable` | crates/cermet-cli/src/reconciliation.rs:2256-2266 | the table filled bottom-up in place holds, in every cell, the length of a longest common subsequence of the two suffixes |
| `RuleDiff.WalkTable` | crates/cermet-cli/src/reconciliation.rs:2276-2291 | while both sides have lines, every step of the walk keeps an optimal script of the prefixes read, with true positions |
| `RuleDiff.EditScript` | crates/cermet-cli/src/reconciliation.rs:2274-2299 | the script turns `live` into `document`, carries true 1-based positions on both sides, reads deletions before insertions, and keeps as many context lines as any common subsequence has |
| `RuleDiff.ScriptLowerBound` | crates/cermet-cli/src/reconciliation.rs:2274-2299 | any script between two texts has at least |live| + |document| - 2 Lcs insertions and deletions |
| `RuleDiff.ScriptIsMinimal` | crates/cermet-cli/src/reconciliation.rs:2274-2299 | no script has fewer insertions plus deletions than the walk's |
| `Hunks.GroupHunks` | crates/cermet-cli/src/reconciliation.rs:2301-2313 | hunks are nonempty, in bounds, in order, separated by a line, and cover exactly the lines within `CONTEXT` of a change |
| `Hunks.OutsideIsContext` | crates/cermet-cli/src/reconciliation.rs:2301-2313 | every line outside all hunks is context |
| `Hunks.HunkEdges` | crates/cermet-cli/src/reconciliation.rs:2301-2313 | every hunk has a change within `CONTEXT` lines of its first line and one within `CONTEXT` of its last |
| `Hunks.Maximal` | crates/cermet-cli/src/reconciliation.rs:2301-2313 | the lines next to a hunk belong to none, so no hunk can be widened or merged |
| `Hunks.GroupsUnique` | crates/cermet-cli/src/reconciliation.rs:2301-2313 | the partition is determined by the script: two partitions are equal |
| `Patch.HeaderIsTrue` | crates/cermet-cli/src/reconciliation.rs:2315-2336 | the four numbers read off a hunk are its true extents and starts on both sides, including the POSIX anchor of an empty side |
| `Patch.PatchForward` | crates/cermet-cli/src/reconciliation.rs:2315-2349 | a strict reader that applies hunks at the positions in their headers, and checks both sides of every header, turns `live` into `document` |
| `Patch.PatchBackward` | crates/cermet-cli/src/reconciliation.rs:2315-2349 | applying the hunks reversed gives `live` back |
| `DiffText.TextLinesAreLines` | crates/cermet-cli/src/reconciliation.rs:2253-2254 | the lines of a text contain no newline |
| `DiffText.TextLinesExactly` | crates/cermet-cli/src/reconciliation.rs:2253-2254 | the lines of a text are the only sequence that gives the text back when each line is followed by its ending: a newline, with the carriage return before it if there is one, and for a last nonempty line perhaps nothing |
| `DiffText.ReadPrinted` | crates/cermet-cli/src/reconciliation.rs:2315-2349 | reading the printed text back gives exactly the hunks printed |
| `DiffText.UnifiedRuleDiff` | crates/cermet-cli/src/reconciliation.rs:2245-2350 | the output is `rules: unchanged` for equal texts, and otherwise the printed hunks of an optimal script, right-trimmed |
| `DiffText.PrintDiff` | crates/cermet-cli/src/reconciliation.rs:2315-2348 | appending hunk after hunk prints the title and every hunk, line by line |
| `DiffText.TrimEndExactly` | crates/cermet-cli/src/reconciliation.rs:2349-2349 | trimming takes off exactly the white space at the end, by the White_Space property of the Unicode Standard |
| `DiffText.DiffPatches` | crates/cermet-cli/src/reconciliation.rs:2245-2350 | the patch theorem: the hunks of the diff turn `live` into `document`, and reversed they turn it back |
| `DiffText.DiffIsMinimal` | crates/cermet-cli/src/reconciliation.rs:2245-2350 | no patch that a strict reader accepts between the two texts has fewer changed lines |
| `DiffText.TrimKeepsExactly` | crates/cermet-cli/src/reconciliation.rs:2349-2349 | trimming removes the final newline and nothing else exactly when the last line ends in something visible |
| `DiffText.PrintedDiffReads` | crates/cermet-cli/src/reconciliation.rs:2315-2349 | the trimmed output reads back, its newline restored, exactly when its last line ends visibly |
| `DiffText.VisibleLinesReadBack` | crates/cermet-cli/src/reconciliation.rs:2349-2349 | so it always reads back when no rule line is blank or ends in white space |
| `DiffText.BlankLineIsLost` | crates/cermet-cli/src/reconciliation.rs:2349-2349 | two texts whose printed diff loses its last character to the trimming and no longer reads back |
| `CanonicalRules.RuleIsSolid` | crates/cermet-lang/src/sentence.rs:1341-1403 | every rule the line-based grammar can spell is printed on one line that ends visibly |
| `CanonicalRules.CanonicalLines` | crates/cermet-lang/src/sentence.rs:25-37 | the lines of a canonical text are exactly its printed rules |
| `CanonicalRules.CanonicalDiffReads` | crates/cermet-cli/src/reconciliation.rs:2245-2350 | so the diff of two canonical corpora, the only kind its caller passes, always reads back from its trimmed text |
| `DiffText.TransitionAppliesExactly` | crates/cermet-cli/src/reconciliation.rs:1667-1690 | the one-hunk review diff, whose header always starts at 1, applies exactly when neither side is empty |
| `SentenceRecord.StepValid` | crates/cermet-daemon/src/sentence_record.rs:1042-1243 | every step of any party keeps the store well-issued and its flips a chain in which each displaced exactly the record its nonce was staged against |
| `SentenceRecord.RunValid` | crates/cermet-daemon/src/sentence_record.rs:1042-1243 | so does every run |
| `SentenceRecord.ChainCounts` | crates/cermet-daemon/src/sentence_record.rs:1079-1218 | along the chain nonces only grow, so no nonce flips the record twice |
| `SentenceRecord.FlipsOnce` | crates/cermet-daemon/src/sentence_record.rs:1079-1218 | a nonce flips the record at most once, however often its commit is delivered |
| `SentenceRecord.LiveMeansFlipped` | crates/cermet-daemon/src/sentence_record.rs:590-638 | an occurrence seen live is proof that its nonce has flipped the record, to the text staged under it |
| `SentenceRecord.NeverReturns` | crates/cermet-daemon/src/sentence_record.rs:1042-1218 | a replaced record never returns: equal at both ends of a run means unchanged throughout |
| `SentenceRecord.DisplacesStaged` | crates/cermet-daemon/src/sentence_record.rs:1079-1218 | whatever happens after a staging, its nonce displaces exactly the state it was staged against, serving class included, or nothing |
| `SentenceRecord.RefusedForever` | crates/cermet-daemon/src/sentence_record.rs:1079-1218 | a nonce that has not flipped and has no commit under way never flips |
| `SentenceRecord.FlipsExactly` | crates/cermet-daemon/src/sentence_record.rs:1079-1218 | over any run between a staging and a commit of its nonce: the commit flips the record if and only if no fault stops it, the nonce was not swept, less than an hour has passed and the clock has not gone back, no commit has landed in between, and the corpus is served exactly if it was; and when exactly it is refused |
| `SentenceRecord.AnsweredMeansServed` | crates/cermet-daemon/src/sentence_record.rs:1079-1218 | a commit that is answered leaves the text staged under its nonce in place and served, and says whether this commit put it there |
| `SentenceRecord.ClassDisplaced` | crates/cermet-daemon/src/sentence_record.rs:513-539 | after a reading and a later staging of the same record, what the nonce displaces is in the class that was read if and only if the record was served at the staging as it was at the reading |
| `SentenceRecord.ServingClassMayDiffer` | crates/cermet-daemon/src/sentence_record.rs:513-539 | a run in which it was not: every reading shows the record served, and the commit displaces it as unserved |
| `AuthorityClient.Host.CommitToken` | crates/cermet-cli/src/reconciliation.rs:998-1012 | one commit message under any schedule: an acknowledgement is true, and a refusal with nothing under way means the nonce never flips |
| `AuthorityClient.SendValid` | crates/cermet-cli/src/reconciliation.rs:1458-1463 | a commit message, delivered at once, late or never, keeps every invariant and its reply is true |
| `AuthorityClient.LateCommitLands` | crates/cermet-cli/src/reconciliation.rs:1458-1463 | a commit message whose reply never came may still land after everything else |
| `AuthorityClient.ReplyIsTrue` | crates/cermet-daemon/src/sentence_record.rs:1079-1218 | `Committed` and `AlreadyCommitted` prove a flip to the digest they name; a refusal proves none happened |
| `AuthorityClient.ExactMeans` | crates/cermet-cli/src/reconciliation.rs:1625-1658 | a reading is the exact occurrence if and only if the record is the candidate's text by this nonce and the candidate's digest and count are its text's; it is the exact commit if and only if that is also served |
| `AuthorityClient.ExactOccurrenceCommits` | crates/cermet-cli/src/reconciliation.rs:1625-1658 | a status that shows this exact occurrence, served or not, proves exactly one flip to the candidate |
| `AuthorityClient.AckCommits` | crates/cermet-cli/src/reconciliation.rs:1449-1468 | a matching acknowledgement proves exactly one flip to the candidate |
| `AuthorityClient.CommittedStays` | crates/cermet-cli/src/reconciliation.rs:1397-1447 | that stays true in every later world |
| `AuthorityClient.ObserveTerminalStatus` | crates/cermet-cli/src/reconciliation.rs:1470-1485 | at most four readings; a record that stays in place is seen if one of them is answered, and over a network that only loses, a status comes back if and only if at most three readings are lost |
| `AuthorityClient.RetryRound` | crates/cermet-cli/src/reconciliation.rs:1418-1436 | one round sends at most one more message, with the same nonce, and settles only on proof; it settles whenever its reading is answered over a record that stays in place, and over a network that only loses, unless both its calls are lost |
| `AuthorityClient.ReconcileApplyCommit` | crates/cermet-cli/src/reconciliation.rs:1397-1447 | committed means flipped exactly once to the candidate; refused means never flipped, and only a first refusal is one; at most three more messages, all with the same nonce. Over a network that loses the first reply and `n` more calls and then answers, it settles if and only if `n` is less than six, or is six and one of the messages lost landed, with the resolution determined by which; giving up takes all three retries, and every reading of a record that stayed in place was lost |
| `AuthorityClient.CommitAndReconcile` | crates/cermet-cli/src/reconciliation.rs:998-1060 | the outcome is a stale staging if and only if the daemon refused the first message; when calls are lost from that message on, the outcome is known unless seven are lost with none landed, or eight |
| `AuthorityClient.PrecommitRecheck` | crates/cermet-cli/src/reconciliation.rs:1487-1512 | passing means the document is unchanged and the whole live snapshot, record, serving class and count included, is the baseline at that moment |
| `AuthorityClient.StageAndConfirm` | crates/cermet-cli/src/reconciliation.rs:902-995 | when the commit may be sent, the staging is bound to the state of a known world that has the very record the review showed, everything was agreed to, and nothing has been sent; undisturbed and agreed to, it may be sent |
| `AuthorityClient.RunApply` | crates/cermet-cli/src/reconciliation.rs:762-1060 | in every interleaving: a commit is sent only over a served baseline the marker names or an absent one with no marker, unless `--replace-live`, and over an unserved or corrupt one only with `--recover`; it is bound to that baseline; verdicts are sound; at most four messages, and an unknown outcome only after four; no change or a marker repair if and only if there is nothing to replace. When nobody interferes, what is permitted and agreed to commits, although the network loses calls from the commit on: the outcome is known unless seven are lost with none landed, or eight |
| `AuthorityClient.NoLostUpdate` | crates/cermet-cli/src/reconciliation.rs:834-1010 | no lost update: in every continuation of the run, even after the client has gone, what its commit displaces is the record the review was computed from; it is in the serving class reviewed if and only if it was served at the staging as at the reading |
| `AuthorityClient.DisplacesNamed` | crates/cermet-cli/src/reconciliation.rs:861-880 | so without `--replace-live`, every text an apply ever displaces is the one its marker names, and an unmarked document never displaces any |
| `AuthorityClient.StageBody` | crates/cermet-cli/src/reconciliation.rs:1144-1241 | when the body ceremony goes on to its commit, its baseline is what one reading showed, with `--recover` if that was unserved or corrupt, and its staging is bound to the state of a later world, which nothing compares with that reading; undisturbed and agreed to, it goes on |
| `AuthorityClient.RunBodyApply` | crates/cermet-cli/src/reconciliation.rs:1144-1278 | in every interleaving its verdicts are sound and at most four messages are sent; when nobody interferes, a ceremony agreed to commits, with the same certainty about lost calls as `RunApply` |
| `AuthorityClient.BodyDisplacesReviewed` | crates/cermet-cli/src/reconciliation.rs:1144-1260 | in every continuation of such a run, what its commit displaces is the record its review showed if and only if nothing was committed between its reading and its staging |
| `AuthorityClient.BodyReviewCanBeStale` | crates/cermet-cli/src/reconciliation.rs:1171-1213 | a run in which it displaces a generation its review never showed |
| `AuthorityClient.UndisturbedCommit` | crates/cermet-daemon/src/sentence_record.rs:1042-1218 | undisturbed, one message commits the staged text, displacing the record it was staged against, and leaves it served under the staged occurrence |
| `IncrementalClient.ReconcileIncremental` | crates/cermet-cli/src/sentence_ctl.rs:280-323 | known means flipped exactly once to the candidate, after at most three more messages; over a network that loses the first reply and `n` more calls it is known if and only if `n` is less than six, or is six and a lost message landed |
| `IncrementalClient.ExpectationDecides` | crates/cermet-cli/src/sentence_ctl.rs:193-203 | the comparison passes exactly for an authenticated text that is served, the empty one over no record, and a pin mismatch over a corrupt record; otherwise it is `RulesUnserved` over any unserved record, `RulesPinMismatch` for an authenticated text over a corrupt one, and `RulesChanged` for the rest |
| `IncrementalClient.FirstFlipDisplaces` | crates/cermet-cli/src/sentence_ctl.rs:189-203 | a nonce that flips after some flips displaced a record at least as new as theirs |
| `IncrementalClient.ExpectationBinds` | crates/cermet-cli/src/sentence_ctl.rs:189-203 | although the expectation is checked only after staging, whatever the nonce ever displaces met it: nothing can have been committed in between |
| `IncrementalClient.CompareAndSwap` | crates/cermet-cli/src/sentence_ctl.rs:164-270 | in every interleaving and every continuation, commits still under way included: what is displaced has the expected canonical bytes; an error means it never commits; `live_is_exact` implies known; no message without presence; at most four messages. When nobody interferes: an expectation that is not met gives its error and no presence a refusal, with nothing sent; one that is met commits, and is known although calls are lost from the commit on, unless eight are lost, or nine when it observes the result, or seven or more with none landed |
| `ManagedBlock.PinnedLineParses` | crates/cermet-cli/src/cermet_document.rs:423-429 | a printed marker line parses back to its marker |
| `ManagedBlock.PinnedLineOnly` | crates/cermet-cli/src/cermet_document.rs:423-429 | and only printed marker lines parse |
| `Utf8Encoding.Utf8Exactly` | crates/cermet-cli/src/cermet_document.rs:410-414 | the byte patterns checked are exactly the encodings of sequences of Unicode scalar values |
| `Utf8Encoding.ValidExactly` | crates/cermet-cli/src/cermet_document.rs:406-421 | a document's bytes are refused as too large past 1048576, then as wrongly encoded when they hold a byte order mark or are not UTF-8, then for a control character other than newline and tab, and otherwise not |
| `ManagedBlock.Utf8Split` | crates/cermet-cli/src/cermet_document.rs:410-414 | valid UTF-8 cut in front of an ASCII character is valid on both sides |
| `ManagedBlock.ValidatePart` | crates/cermet-cli/src/cermet_document.rs:406-421 | valid document bytes stay valid when cut at ASCII characters |
| `ManagedBlock.Lines` | crates/cermet-cli/src/cermet_document.rs:377-404 | the scan gives consecutive lines from the first byte to the last, none containing a newline |
| `ManagedBlock.LineIndex` | crates/cermet-cli/src/cermet_document.rs:377-404 | every line of the text is found, with its exact extent |
| `ManagedBlock.LineOf` | crates/cermet-cli/src/cermet_document.rs:377-404 | and everything found is a line of the text |
| `ManagedDocument.EnvelopeFrames` | crates/cermet-cli/src/cermet_document.rs:158-184 | what the parser counts and compares means: these lines are the delimiters, and no other line is one |
| `ManagedDocument.FrameEnvelopes` | crates/cermet-cli/src/cermet_document.rs:158-184 | and conversely |
| `ManagedDocument.AcceptedIsDoc` | crates/cermet-cli/src/cermet_document.rs:127-193 | whatever the parser accepts is prose, block, prose, with the block on lines of its own and no other delimiter or look-alike line |
| `ManagedDocument.DocUnique` | crates/cermet-cli/src/cermet_document.rs:127-193 | a document reads in one way only |
| `ManagedDocument.CermetIsWellFormed` | crates/cermet-cli/src/cermet_document.rs:9-14 | the actual delimiters meet what the theorems ask of delimiters |
| `DocumentCodec.DocIsAccepted` | crates/cermet-cli/src/cermet_document.rs:127-193 | every document of that grammar is accepted, with its own parts |
| `DocumentCodec.Collect` | crates/cermet-cli/src/cermet_document.rs:133-156 | the scan collects exactly the delimiter lines, and refuses exactly when some line is a look-alike |
| `DocumentCodec.Locate` | crates/cermet-cli/src/cermet_document.rs:158-184 | the position checks find the block exactly when there is one |
| `DocumentCodec.ParseDocument` | crates/cermet-cli/src/cermet_document.rs:127-193 | the parser computes `Parse`: the error of the byte checks, the one reading of the text, or an envelope error |
| `DocumentCodec.ParseExactly` | crates/cermet-cli/src/cermet_document.rs:127-193 | parsing succeeds with given parts exactly when the bytes are valid and those parts are a reading of the grammar |
| `DocumentCodec.BodyIsUtf8` | crates/cermet-cli/src/cermet_document.rs:186-189 | the second UTF-8 conversion in the parser cannot fail |
| `CermetGrammar.AcceptsExactly` | crates/cermet-cli/src/cermet_document.rs:127-193 | the parser accepts exactly these texts, letter by letter: the block's lines and marker as spelled, on lines of their own, and outside them no line that is one of them or resembles one |
| `CermetGrammar.MentionsAreBlockLines` | crates/cermet-cli/src/cermet_document.rs:148-156 | in an accepted document a line with `cermet:authority` anywhere, up to case, is one of the two markers; one with `cermet:pinned` anywhere or `pinned authority:` in front is a printed pinned line; and one with the opening fence anywhere is that fence |
| `CermetGrammar.PlainIsAccepted` | crates/cermet-cli/src/cermet_document.rs:127-193 | conversely, valid prose and rules without these words, and without a closing fence among the rules, are accepted around and inside a block |
| `DocumentRewrite.RenderBlock` | crates/cermet-cli/src/cermet_document.rs:244-265 | the buffer appended piece by piece is the block of the grammar, with every error of the renderer in order |
| `DocumentRewrite.Rewrite` | crates/cermet-cli/src/cermet_document.rs:204-221 | the rewriter computes `Rewritten`: the renderer's errors, the size limit on the whole file, and the parser's verdict on the result |
| `DocumentRewrite.ParsedBodyEnds` | crates/cermet-cli/src/cermet_document.rs:204-221 | a rewrite that parses had a body of whole lines, whether or not the caller saw to that |
| `DocumentRewrite.PutGet` | crates/cermet-cli/src/cermet_document.rs:204-221 | what a rewrite returns parses to exactly the marker and body put in, and every byte before and after the block is the source's |
| `DocumentRewrite.GetPut` | crates/cermet-cli/src/cermet_document.rs:204-265 | rewriting a document with its own marker and its own canonical body returns it byte for byte |
| `DocumentRewrite.PutPut` | crates/cermet-cli/src/cermet_document.rs:204-221 | after any successful rewrite a second one gives the bytes, or the error, that it gives on the original |
| `Drift.DriftMeans` | crates/cermet-cli/src/cermet_document.rs:321-368 | each drift state, if and only if: neither the document nor the live corpus has moved from the corpus the marker names, the document has, the live corpus has, both have to the same one, or both have apart |
| `Drift.DriftOfFailures` | crates/cermet-cli/src/cermet_document.rs:321-368 | without a valid document or a live corpus, the drift names what is missing, the daemon first |
| `Drift.RewriteAligns` | crates/cermet-cli/src/reconciliation.rs:586-645 | export and apply converge: a document given the live corpus and its marker classifies as aligned, whatever it was before |
| `Drift.PreservesDrafts` | crates/cermet-cli/src/reconciliation.rs:621-637 | without `--replace-draft`, export keeps a document exactly when its drift is an unapplied document or a divergence |
| `Drift.OverwritesNothingNew` | crates/cermet-cli/src/reconciliation.rs:621-647 | so it overwrites only the live corpus, the corpus the marker names, or the empty unpinned baseline |
| `Drift.PinningCanOverflow` | crates/cermet-cli/src/cermet_document.rs:204-221 | a first digest makes a document exactly 67 bytes longer, so one closer than that to the limit is refused it |
| `Pinning.SwapValid` | crates/cermet-cli/src/cermet_document.rs:406-421 | swapping one printable text in a line for another leaves the bytes valid exactly as long as they fit |
| `Pinning.LinesShift` | crates/cermet-cli/src/cermet_document.rs:377-404 | the lines of a text after one line was swapped: above it the same, then the new line, below it the same, moved |
| `Pinning.RepinnedDoc` | crates/cermet-cli/src/cermet_document.rs:127-193 | a document of the grammar is one with any other marker in its place |
| `Pinning.PinsExactly` | crates/cermet-cli/src/reconciliation.rs:1061-1071 | giving a valid document another marker over its own canonical body succeeds if and only if the result fits, and fails in no other way |
| `CermetDocument.CermetPins` | crates/cermet-cli/src/cermet_document.rs:9-14 | with the actual delimiters no marker makes its pinned line a look-alike or another delimiter |
| `CermetDocument.CermetPinsExactly` | crates/cermet-cli/src/reconciliation.rs:1061-1071 | so the rewrite that apply makes after its commit, over the canonical body it required, can fail only by size, and fails exactly then |
| `CermetDocument.MinimalParses` | crates/cermet-cli/src/cermet_document.rs:127-193 | blank lines and an empty block without authority are a valid document of any size that fits |
| `CermetDocument.UnpinnableDocument` | crates/cermet-cli/src/reconciliation.rs:1061-1071 | for every size in the last 67 bytes below the limit, a valid document of that size with a canonical body that no digest can be given to |
| `DocumentCeremonies.Republish` | crates/cermet-cli/src/reconciliation.rs:1061-1077 | the end of apply and export: the rewrite fails exactly when `Rewritten` does, and then nothing is touched; otherwise at most one rename; updated means that the rechecked file was replaced and the one found afterwards holds exactly the rewritten bytes; undisturbed, it is updated |
| `DocumentCeremonies.PinAligns` | crates/cermet-cli/src/reconciliation.rs:1061-1071 | a canonical document is rewritten exactly when it fits, to the document that names its own body and is otherwise the same byte for byte, and that one classifies as aligned |
| `DocumentCeremonies.Apply` | crates/cermet-cli/src/reconciliation.rs:762-1103 | apply from end to end, in every interleaving: the document is touched only after a proven commit or when the candidate was live already, by at most one rename; the update fails exactly by size; updated means the document found is aligned with the corpus applied; when nobody interferes, a permitted apply has the outcome `LossOutcome` gives for the calls lost, and with none lost its corpus is served and a document that fits is aligned with it |
| `DocumentCeremonies.RunExport` | crates/cermet-cli/src/reconciliation.rs:543-680 | export from end to end, in every interleaving: it commits nothing; it touches the document if and only if the daemon answered with no corpus or a preparable served one and no draft must be preserved, and then only to give it that corpus; updated means the document found is aligned with it; undisturbed, the document ends up aligned with what is live |
| `FileSystem.HappenLater` | crates/cermet-cli/src/document_store.rs:549-583 | no change by anyone makes a change time repeat with a different state |
| `FileSystem.RecordedLater` | crates/cermet-cli/src/document_store.rs:703-708 | over any run, equal change times at two moments mean equal states |
| `FileSystem.Steady` | crates/cermet-cli/src/document_store.rs:51-55 | and the same state throughout |
| `PublicationReport.CleanMeans` | crates/cermet-cli/src/reconciliation.rs:2151-2168 | a report is clean exactly when nothing was flagged, every claim succeeded, and the final read is the post-chmod read and the intended bytes |
| `PublicationReport.FinishTells` | crates/cermet-cli/src/document_store.rs:720-760 | a report flags final interference if and only if the final read is not the post-chmod read, and any interference withdraws the claims on durability and mode |
| `PublicationReport.TagIsNotContent` | crates/cermet-cli/src/document_store.rs:720-783 | the report's tag compares the final read with the post-chmod read and never with the intended bytes |
| `PublicationMoments.NotCleanIfEdited` | crates/cermet-cli/src/document_store.rs:542-546 | when nothing is flagged and every claim succeeded, the publication is not clean if and only if somebody changed the new file away from the intended bytes between the check of the destination and the read after its mode was set |
| `PublicationMoments.CleanIsSynced` | crates/cermet-cli/src/document_store.rs:762-790 | every sync of a publication with a clean report went through: the temporary file's, the one after the mode was set, and the directory's |
| `PublicationReport.RefreshedIsClean` | crates/cermet-cli/src/reconciliation.rs:2170-2187 | a refreshed report is clean exactly when it was clean and the new read is the same read, and flags final interference exactly when the reads differ or are not the intended bytes |
| `PublicationMoments.StableRead` | crates/cermet-cli/src/document_store.rs:549-583 | a file whose change time is equal before and after was read in one state |
| `Publication.Store.ReadRegular` | crates/cermet-cli/src/document_store.rs:549-583 | a successful bounded read is the state of the inode when it returns, whatever happened between its three system calls |
| `Publication.Store.CreateTemp` | crates/cermet-cli/src/document_store.rs:491-518 | it fails if and only if one of its calls fails or sixteen names in a row are taken; success is a new, empty inode with the mode 0600 under a name that is not the document's |
| `Publication.Store.UnlinkIfSame` | crates/cermet-cli/src/document_store.rs:605-620 | cleaning up removes the temporary name only if it stood for the temporary file when looked at, says whether it did, and does not change what the document's name stands for; undisturbed it removes it |
| `Publication.Store.DropTemp` | crates/cermet-cli/src/document_store.rs:624-629 | a temporary file that is known is removed when nobody interferes; after one failed call every name is as it was, unless the call that failed is the one that looks at the file just made |
| `Publication.Store.BoundDestination` | crates/cermet-cli/src/document_store.rs:542-546 | the destination is used only if it is the inode written and, when read, held exactly the intended bytes |
| `Publication.Store.ApplyMode` | crates/cermet-cli/src/document_store.rs:762-783 | the expected final state is the file's state after the mode was set, with that mode |
| `Publication.Store.Conclude` | crates/cermet-cli/src/document_store.rs:363-380 | when no final interference is flagged, the document's name led to this file, and from the post-chmod read until now nobody changed it in any way; the durability reported is that of the two syncs |
| `Publication.Store.Create` | crates/cermet-cli/src/document_store.rs:321-380 | `Err`: this call never changed what `CERMET.md` stands for; `Ok`: exactly once, by linking it, with exactly these changes in this order, and the report tells which syncs failed; no final interference flagged: the document is the inode this call created, mode 0644, which held the intended bytes when the destination was checked and is untouched since the post-chmod read. Undisturbed it succeeds cleanly, or refuses because there is a document and leaves every name as it was; when one call fails, it fails if and only if that is one of the first eight, and then leaves every name as it was if and only if it is not the second; with an edit just before the mode is set, it flags nothing and publishes the edit |
| `Publication.Store.Replace` | crates/cermet-cli/src/document_store.rs:424-488 | `Err`: the name is unchanged by this call; `Ok`: exactly one rename, right after a known moment, by when the expected file had been looked up and found in exactly the expected state, with its content still there afterwards unless an edit is flagged, and the report tells which syncs failed; no final interference flagged: the document is the inode this call created with the old mode, which held the intended bytes when the destination was checked. Undisturbed it succeeds cleanly, or refuses a document that is not as expected and leaves every name as it was; when one call fails, it fails if and only if that is one of the first twelve, and then leaves every name as it was if and only if it is not the second; with another file swapped in inside the rename window, it flags nothing and displaces that file |
| `PublicationMoments.CleanIsPublished` | crates/cermet-cli/src/reconciliation.rs:2151-2168 | a clean report: the file found under `CERMET.md` is that inode and holds exactly the intended bytes with the requested mode, from the post-chmod read on |
| `Publication.Store.Refresh` | crates/cermet-cli/src/reconciliation.rs:2170-2187 | a report still clean after a later refresh: the file was untouched all the while |
| `PublicationMoments.RenameDisplaces` | crates/cermet-cli/src/document_store.rs:439-450 | a rename displaces a file exactly when the document's name led to it just before, unless the temporary name had been made a name of that very file |
| `PublicationMoments.DisplacesRechecked` | crates/cermet-cli/src/document_store.rs:439-466 | in every run of replace that succeeds, the file displaced is the one rechecked if and only if the name still led to it just before the rename and the temporary name was not made another name of it; if the name no longer led there, somebody took it away since the lookup |
| `PublicationMoments.SchedulesExist` | crates/cermet-cli/src/document_store.rs:321-488 | every starting point has a schedule with a late edit and one with a swap inside the window |
| `Quoting.ScanQuote` | crates/cermet-cli/src/mcp.rs:558-571 | a POSIX shell reads a quoted argument as one word, itself, whatever follows |
| `Quoting.SplitJoin` | crates/cermet-cli/src/mcp.rs:574-579 | token splitting and quote removal give back exactly the argument vector joined, for every vector |
| `Quoting.JoinInjective` | crates/cermet-cli/src/mcp.rs:574-579 | different vectors print differently |
| `Quoting.StandsExactly` | crates/cermet-cli/src/mcp.rs:558-571 | an argument is printed as it stands if and only if it is one or more letters, digits and the ten characters `@%+=:,./-_` |
| `Quoting.ServerNamesExactly` | crates/cermet-cli/src/mcp.rs:547-554 | the valid server names are exactly the arguments printed as they stand that begin with a letter or digit and have no other punctuation than `._-` |
| `Quoting.ServerNamesStand` | crates/cermet-cli/src/mcp.rs:547-554 | a valid server name is printed as it stands, is one word, and is not an option |
| `RepointBarrier.HappenPassive` | crates/cermet-core/src/broker/quiesce.rs:113-246 | whatever happens to the daemon (time, claims, restarts, other clients, housekeeping), a barrier we hold stays its barrier while in force, and no claim is admitted past it |
| `RepointBarrier.BeginsMatchEnds` | crates/cermet-cli/src/mcp.rs:246-362 | in a disciplined run every begin is matched by exactly one end of the same token |
| `RepointBarrier.ChangesAreGuarded` | crates/cermet-cli/src/mcp.rs:927-984 | without `--force`, every change falls between begin and end, right after a quiescent report of the same instance |
| `RepointBarrier.LeaseHolds` | crates/cermet-cli/src/mcp.rs:198-209 | a change done within the budget of a passed lease check is done while the daemon holds the barrier |
| `RepointBarrier.LeaseInstant` | crates/cermet-cli/src/mcp.rs:198-209 | measured against the instant of expiry the budget can be missed, by less than one second: it is met exactly when the check fell on a whole second or found more than the budget |
| `RepointBarrier.LeaseInstantMissed` | crates/cermet-cli/src/mcp.rs:198-209 | a look at the lease after which the budget ends past the instant of expiry |
| `RepointBarrier.DrainLeavesBudget` | crates/cermet-cli/src/mcp.rs:106-135 | under the lifetime asked for, the budget is left exactly when at most seventy clock seconds pass first, so a drain within its bound plus the margin always leaves it |
| `RepointBarrier.ChangesAreBudgeted` | crates/cermet-cli/src/mcp.rs:106-135 | at most two changes follow one look at the lease, and their timeouts account for at most forty seconds |
| `RepointBarrier.ChangeStaysInLease` | crates/cermet-cli/src/mcp.rs:198-209 | if everything between the look at the lease and the end of a change, beyond the steps' own timeouts, keeps to the margin, the change is done while the daemon holds the barrier and no claim was admitted since the begin |
| `RepointBarrier.RunStaysInLease` | crates/cermet-cli/src/mcp.rs:927-984 | without `--force` this covers every change of a run |
| `RepointInstall.Installer.Poll` | crates/cermet-cli/src/mcp.rs:172-191 | a status report comes only from a daemon that holds this token's barrier in force, and names its instance |
| `RepointSchedule.DrainsOn` | crates/cermet-cli/src/mcp.rs:276-345 | when the daemon reports claims for `n` polls within the timeout and the lease, and then none, every poll up to the last is answered that way |
| `RepointInstall.DrainsWell` | crates/cermet-cli/src/mcp.rs:276-345 | and the drain then polls `n` + 1 times and proceeds unforced |
| `RepointInstall.ActiveDrains` | crates/cermet-cli/src/mcp.rs:106-135 | a daemon with a claim for any number of polls up to 121 is drained, half a second apart |
| `RepointInstall.Installer.Drain` | crates/cermet-cli/src/mcp.rs:276-362 | its polls are those of the schedule, at most 122; it sleeps and polls again if and only if this instance reports active claims within the timeout, and the last report decides: quiescent proceeds unforced, and a lost poll, another instance, a timeout or any other report refuses, or proceeds with a warning if forced |
| `RepointInstall.Installer.BeginAndDrain` | crates/cermet-cli/src/mcp.rs:246-362 | the gate: it drains if and only if the barrier is begun, and otherwise goes on only if forced; refusing leaves nothing held and nothing changed |
| `RepointInstall.Installer.RegisterClaude` | crates/cermet-cli/src/mcp.rs:906-984 | lease, recheck, remove, recheck, add, recheck, in this order: every early exit keeps the discipline; obliged by the daemon, the result is decided by how the two commands ended |
| `RepointInstall.Installer.RegisterOpenCode` | crates/cermet-cli/src/mcp.rs:1003-1039 | lease, recheck, write, recheck; obliged by the daemon, the result is decided by how the write ended |
| `RepointInstall.Installer.RunInstall` | crates/cermet-cli/src/mcp.rs:820-903 | every run is disciplined, makes its changes in order, first remove then add, or the one write, and all of them if it registers, and ends holding nothing; a registration reported without `--force` was confirmed after its last change; without a daemon and without `--force` nothing happens. For every `n`: when claims are reported for `n` polls in time and then none, and the daemon obliges from then on, it registers as the commands end and releases the barrier |
| `Journal.Capture.Push` | crates/cermet-cli/src/journal.rs:118-124 | the kept bytes are the first ones up to the cap, the count is of all |
| `Journal.Capture.Step` | crates/cermet-cli/src/journal.rs:400-422 | a step of either tee reads and forwards at most 8192 bytes or accumulates those it forwarded, touches nothing of the other, and keeps each stream's bytes accounted for |
| `Journal.Capture.Run` | crates/cermet-cli/src/journal.rs:400-422 | so does any interleaving of the two, and one with two moves for every byte left drains a tee |
| `Journal.Capture.Captures` | crates/cermet-cli/src/journal.rs:109-137 | kept is the first min(4096, total) bytes; truncation is reported exactly past 4096; each stream appears in order, and whole once drained; a working descriptor got its bytes in order |
| `Journal.AppendRetains` | crates/cermet-cli/src/journal.rs:184-193 | an append keeps the retention promise |
| `Journal.RotateRetains` | crates/cermet-cli/src/journal.rs:180-184 | a rotation keeps it exactly when the journal renamed is past the threshold, or is all there ever was |
| `Journal.StaleRotationLoses` | crates/cermet-cli/src/journal.rs:180-184 | two processes that both found the journal past the threshold: after the second rename only what was written in between is left |
| `Journal.JournalFile.AppendEntry` | crates/cermet-cli/src/journal.rs:173-194 | by one process, whatever fails: the journal is rotated if and only if it is seen to be past 32 MiB and nothing is in the way; a success adds the whole line, a failed write a prefix of it, and any other failure nothing; after a success that saw the size the journal is at most the threshold plus the line |
| `Journal.JournalFile.AppendAll` | crates/cermet-cli/src/journal.rs:173-194 | over any run, journal and kept generation are the end of everything written, all of it or more than the threshold, and the journal is never past the threshold by more than the longest line and what was appended when its size could not be read |
| `PreparedView.CountsMeanCovered` | crates/cermet-cli/src/reconciliation.rs:1797-1808 | the pigeonhole step, both ways: distinct snapshots that pin their rules are as many as the set rules exactly when every set rule has one |
| `PreparedView.AllPin` | crates/cermet-cli/src/reconciliation.rs:1804-1829 | the scan with its set of seen indexes accepts exactly the distinct snapshots that all pin their rules |
| `PreparedView.PreparedViewIsValid` | crates/cermet-cli/src/reconciliation.rs:1783-1830 | a view is accepted exactly when its text is canonical, its count and digest are the text's, and its snapshots correspond one to one to the set rules |
| `PreparedView.OneSnapshotEach` | crates/cermet-cli/src/reconciliation.rs:1783-1830 | in an accepted view every set rule is pinned by one snapshot and no other: its provider, name and digest are the rule's, and its members rebuild to that digest |
| `PreparedView.PinnedIsOneToOne` | crates/cermet-cli/src/reconciliation.rs:1783-1830 | and conversely such snapshots, one for every set rule, make a view that is accepted |

## Left out

- CanonicalLines: states the lines of a canonical text and not that the text determines its rules, because the parser of the dialect is another component.
- The rest of the daemon, sockets, the actor and its dispatch, the policy grammar, the set resolver and SHA-256: other components behind the interfaces modelled here.
- Raw edits of the daemon's record on disk and power loss: the client's own host would be gone with it.
- The extra status reads that only feed the wording of failure reports, receipts, checklists, prompts and the set-member diff: rendered text.
- Storing a named profile after a body ceremony: a single check.
- The reads after a ceremony that refresh its report and name its final state: `Store.Refresh` and `Classify` cover them one by one.
- `DocumentStore::discover`: its result is the opened root that the publication model starts from.
- What `fsync` makes durable: there is no crash in the model, so a failed sync is only reported.
- Reading a file in several chunks, directories as the target of a rename, and coarse change times: see the modelling choices.
- `render_template` and reading back the file of `doc check --init`: the template is not parsed by the code that writes it.
- Merging `opencode.json`, the guidance stanza, locating the binary and the socket: plumbing around the barrier.
- Assignments, reserved words and aliases of the shell grammar: quoting is proved at the level of tokens, so a first word such as `a=b` stays one token but a shell would read it as an assignment.
- The wait for the tees to drain, journal permissions and the JSON of an entry: plumbing.
- The killing of a child process: a change takes any time, and what exceeds its timeout counts against the margin.
- `cutover`, `check`, `receipt_log`, `settings`, `endpoint`, `router`, `parse`, `preset`, `git_remote` and `host_lock`: case tables, filters and foreign calls.
