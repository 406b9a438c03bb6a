/** What a publication reports, and what a clean report means. A SHA-256 digest with its length is
    represented by the content itself. */
module PublicationReport {
  import opened Basics
  import opened FileSystem

  datatype StoreError = AlreadyExists | InvalidFile | PreimageChanged | Io

  datatype Preimage = Preimage(ino: nat, content: string, mode: nat, cookie: nat)

  datatype DocumentRead = DocumentRead(bytes: string, pre: Preimage)

  /** Equality of preimages leaves out the mode and the change time. */
  predicate SamePreimage(a: Preimage, b: Preimage) { a.ino == b.ino && a.content == b.content }

  predicate ExactState(a: Preimage, b: Preimage) {
    SamePreimage(a, b) && a.mode == b.mode && a.cookie == b.cookie
  }

  predicate ExactRead(a: DocumentRead, b: DocumentRead) { ExactState(a.pre, b.pre) && a.bytes == b.bytes }

  datatype FinalState = Missing | Present(read: DocumentRead) | Unreadable(error: StoreError)

  datatype Operation = Create | Replace
  datatype Outcome = Created | Replaced | Interfered(operation: Operation)
  datatype Durability = Durable | Uncertain(errors: seq<string>) | NoDurabilityClaim
  datatype ModeStatus = Applied | ModeFailed | NoModeClaim
  datatype Cleanup = Complete | NotRequired | CleanupFailed

  datatype Report = Report(
    outcome: Outcome, durability: Durability, mode: ModeStatus, cleanup: Cleanup,
    sourceInterference: bool, preRenameEdit: bool, finalInterference: bool, finalState: FinalState)

  datatype Claims = Claims(
    operation: Operation, durability: Durability, mode: ModeStatus, cleanup: Cleanup,
    sourceInterference: bool, preRenameEdit: bool)

  function CleanOutcome(op: Operation): Outcome { if op.Create? then Created else Replaced }

  function DurabilityStatus(errors: seq<string>): Durability {
    if errors == [] then Durable else Uncertain(errors)
  }

  /** `PublicationClaims::finish`. */
  function Finish(c: Claims, final: FinalState, expected: Option<DocumentRead>): Report {
    var finalInterference := !(final.Present? && expected.Some? && ExactRead(final.read, expected.value));
    var interfered := c.sourceInterference || c.preRenameEdit || finalInterference;
    Report(
      if interfered then Interfered(c.operation) else CleanOutcome(c.operation),
      if interfered then NoDurabilityClaim else c.durability,
      if interfered then NoModeClaim else c.mode,
      c.cleanup, c.sourceInterference, c.preRenameEdit, finalInterference, final)
  }

  /** What a report says of its claims: any interference withdraws those on durability and mode. */
  lemma FinishTells(c: Claims, final: FinalState, expected: Option<DocumentRead>)
    ensures var r := Finish(c, final, expected);
      && r.cleanup == c.cleanup && r.sourceInterference == c.sourceInterference && r.preRenameEdit == c.preRenameEdit
      && r.finalState == final
      && r.outcome == (
        if c.sourceInterference || c.preRenameEdit || r.finalInterference then Interfered(c.operation)
        else CleanOutcome(c.operation))
      && (r.finalInterference <==> !(expected.Some? && final == Present(expected.value)))
      && (r.outcome == Interfered(c.operation) ==> r.durability == NoDurabilityClaim && r.mode == NoModeClaim)
      && (r.outcome == CleanOutcome(c.operation) ==> r.durability == c.durability && r.mode == c.mode)
  {
    if expected.Some? && final.Present? && ExactRead(final.read, expected.value) {
      assert final.read.pre == expected.value.pre;
    }
  }

  predicate PublicationIsClean(r: Report, intended: string) {
    && r.outcome in {Created, Replaced}
    && r.durability == Durable
    && r.mode == Applied
    && r.cleanup in {Complete, NotRequired}
    && !r.sourceInterference && !r.preRenameEdit && !r.finalInterference
    && r.finalState.Present? && r.finalState.read.bytes == intended
  }

  /** `refresh_publication_final_state`, given what the destination now reads as. */
  function Refreshed(r: Report, final: FinalState, intended: string): Report {
    var same := r.finalState.Present? && final.Present?
      && ExactRead(final.read, r.finalState.read) && final.read.bytes == intended;
    r.(finalInterference := r.finalInterference || !same, finalState := final)
  }

  /** A report is clean exactly when nothing was flagged, every claim succeeded, and the final read is
      both the read taken after the mode was set and the intended bytes. */
  lemma CleanMeans(c: Claims, final: FinalState, expected: Option<DocumentRead>, intended: string)
    ensures PublicationIsClean(Finish(c, final, expected), intended) <==>
      && c.durability == Durable && c.mode == Applied && c.cleanup != CleanupFailed
      && !c.sourceInterference && !c.preRenameEdit
      && expected.Some? && final == Present(expected.value) && expected.value.bytes == intended
  {
    if expected.Some? && final.Present? && ExactRead(final.read, expected.value) {
      assert final.read.pre == expected.value.pre;
    }
  }

  /** The outcome tag alone says nothing about the content: when the file was edited before the read
      that follows the mode change, a report can say `Created` and flag nothing, and only the
      comparison with the intended bytes tells. */
  lemma TagIsNotContent(c: Claims, edited: DocumentRead, intended: string)
    requires c.durability == Durable && c.mode == Applied && c.cleanup != CleanupFailed
    requires !c.sourceInterference && !c.preRenameEdit
    ensures var r := Finish(c, Present(edited), Some(edited));
      && r.outcome == CleanOutcome(c.operation) && !r.finalInterference
      && (PublicationIsClean(r, intended) <==> edited.bytes == intended)
  {
    CleanMeans(c, Present(edited), Some(edited), intended);
  }

  /** A refreshed report is clean exactly when it was clean before and the new read is the same in
      identity, content, mode and change time; otherwise it flags final interference. */
  lemma RefreshedIsClean(r: Report, final: FinalState, intended: string)
    ensures PublicationIsClean(Refreshed(r, final, intended), intended) <==>
      PublicationIsClean(r, intended) && final == r.finalState
    ensures Refreshed(r, final, intended).finalInterference <==>
      r.finalInterference || final != r.finalState || !final.Present? || final.read.bytes != intended
  {
    if r.finalState.Present? && final.Present? && ExactRead(final.read, r.finalState.read) {
      assert final.read.pre == r.finalState.read.pre;
    }
  }
}
