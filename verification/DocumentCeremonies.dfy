/** `doc apply` and `doc export` from end to end: the daemon, the rewriting of the document, and its
    replacement on disk. */
module DocumentCeremonies {
  import opened Basics
  import opened ManagedBlock
  import opened DocumentCodec
  import opened DocumentRewrite
  import opened Drift
  import opened FileSystem
  import opened PublicationReport
  import opened PublicationMoments
  import opened Publication
  import AuthorityClient
  import CermetDocument
  import ManagedDocument
  import Pinning
  import SentenceRecord

  datatype Update = NotAttempted | Unrenderable | PreservedEdit | Disturbed | Updated

  /** How the client's marker reads in the document. */
  ghost function Shown(m: AuthorityClient.Marker, digest: DigestOf): Marker {
    match m
    case NoMarker => NoAuthority
    case Pin(d) => Marker.Digest(digest(d.of))
  }

  /** How the daemon's state counts in the drift. */
  ghost function LiveShown(s: SentenceRecord.Snapshot, digest: DigestOf): Live {
    match s
    case SnapAbsent => Absent
    case SnapServed(_, _, d, _, _) => Served(digest(d.of))
    case SnapUnserved(_, _, _, _, _) => Unserved
    case SnapCorrupt(_) => Corrupt
  }

  /** `prepare_document`: what the client makes of a document's bytes and the daemon's reading of them. */
  ghost predicate Prepared(d: Managed, doc: AuthorityClient.Document, canon: Canon, digest: DigestOf) {
    && Parse(CERMET, d.source) == Ok(d)
    && canon(d.body) == Ok(doc.candidate.text) && AuthorityClient.Honest(doc.candidate)
    && (doc.canonical <==> d.body == doc.candidate.text)
    && (doc.sourceIsEmpty <==> d.body == [])
    && d.marker == Shown(doc.marker, digest)
  }

  /** The document rewritten to a corpus and the marker that names it. */
  ghost function Given(canon: Canon, digest: DigestOf, d: Managed, corpus: Corpus): Result<string, DocumentError>
    requires d.start <= d.end <= |d.source|
  {
    Rewritten(CERMET, canon, d, MarkerOf(corpus, digest), BodyOf(corpus))
  }

  /** When the document's name was last looked up, it stood for a file of these bytes. */
  ghost predicate FoundHolding(t: Moments, bytes: string) {
    DOCUMENT in t.lookup.disk.names && Node(t.lookup.disk, t.lookup.disk.names[DOCUMENT]).bytes == bytes
  }

  lemma CleanIsFound(start: World, now: World, r: Report, ino: nat, mode: nat, t: Moments, intended: string)
    requires PublicationIsClean(r, intended)
    ensures !r.preRenameEdit && !r.finalInterference
    ensures Observed(start, now, r, ino, mode, t) ==> FoundHolding(t, intended)
  {
    if Observed(start, now, r, ino, mode, t) {
      CleanIsPublished(start, now, r, ino, mode, t, intended);
    }
  }

  /** Nobody disturbs the replacement, and the document is still as it was read. */
  ghost predicate Writable(w: FileSystem.World, pre: Preimage, bytes: string) {
    w.turns == [] && AsExpected(w, pre) && Unused(w, bytes)
  }

  /** The end both ceremonies share: the bytes as they were read are parsed again, rewritten, and put in
      place of the file they were read from. */
  method Republish(store: Store, canon: Canon, digest: DigestOf, ghost d: Managed, pre: Preimage, corpus: Corpus)
    returns (update: Update, ghost temp: Temp, ghost t: Moments)
    requires FileSystem.Valid(store.world)
    requires Parse(CERMET, pre.content) == Ok(d) && d.source == pre.content && d.start <= d.end <= |d.source|
    modifies store
    ensures !update.NotAttempted?
    ensures update.Unrenderable? <==> Given(canon, digest, d, corpus).Err?
    ensures update.Unrenderable? ==> store.world == old(store.world)
    ensures Steps(old(store.world), store.world, if update.Updated? || update.Disturbed? then 1 else 0)
    ensures update.Updated? ==>
      && Rechecked(old(store.world), store.world, temp, pre, false, t)
      && FoundHolding(t, Given(canon, digest, d, corpus).value)
    ensures Given(canon, digest, d, corpus).Ok?
            && Writable(old(store.world), pre, Given(canon, digest, d, corpus).value) ==>
      update.Updated?
  {
    hide CERMET, Parse, Rewritten, MarkerOf, BodyOf, ManagedDocument.WellFormed, Unused, AsExpected;
    hide Steps, FileSystem.Valid, Rechecked, Observed, BoundAt, PublicationIsClean, Exists, Displaced, SwappedInWindow;
    ManagedDocument.CermetIsWellFormed();
    temp, t := Temp("", 0), AllAt(store.world);
    var parsed := ParseDocument(CERMET, pre.content);
    var rewritten := Rewrite(CERMET, canon, parsed.value, MarkerOf(corpus, digest), BodyOf(corpus));
    if rewritten.Err? {
      StepsReflexive(store.world);
      return Unrenderable, temp, t;
    }
    var report;
    report, temp, t := store.Replace(pre, rewritten.value);
    if report.Ok? && PublicationIsClean(report.value, rewritten.value) {
      CleanIsFound(old(store.world), store.world, report.value, temp.ino, pre.mode, t, rewritten.value);
    }
    update :=
      if report.Err? then PreservedEdit
      else if PublicationIsClean(report.value, rewritten.value) then Updated
      else Disturbed;
  }

  // ---- `doc apply` -----------------------------------------------------------------------------

  function PinOf(d: Managed, digest: DigestOf): Marker { Marker.Digest(digest(d.body)) }

  /** The document still fits with the digest of its body in its marker. */
  predicate Fits(d: Managed, digest: DigestOf) {
    |d.source| - |MarkerText(d.marker)| + |MarkerText(PinOf(d, digest))| <= MAX_DOCUMENT_BYTES
  }

  /** The document with its marker naming its own body, and every other byte as it was. */
  function PinnedSource(d: Managed, digest: DigestOf): string
    requires d.start <= d.end <= |d.source|
  {
    Spliced(d, ManagedDocument.Block(CERMET, PinOf(d, digest), d.body))
  }

  /** A canonical document that fits is rewritten to the one that names it, which is aligned with it. */
  lemma PinAligns(canon: Canon, digest: DigestOf, d: Managed)
    requires IsDigestFunction(digest) && Parse(CERMET, d.source) == Ok(d) && canon(d.body) == Ok(d.body)
    ensures d.start <= d.end <= |d.source|
    ensures Given(canon, digest, d, ServedText(d.body))
      == if Fits(d, digest) then Ok(PinnedSource(d, digest)) else Err(TooLarge)
    ensures Fits(d, digest) ==>
      Classify(RepositoryOf(CERMET, canon, digest, PinnedSource(d, digest)), Served(digest(d.body))) == Aligned
  {
    hide CERMET, Parse, Rewritten, MarkerText, RepositoryOf, Classify, ManagedDocument.Block;
    assert IsMarker(PinOf(d, digest));
    CermetDocument.CermetPinsExactly(canon, d, PinOf(d, digest));
    ManagedDocument.CermetIsWellFormed();
    CermetDocument.CermetPins();
    Pinning.PinsExactly(CERMET, canon, d, PinOf(d, digest));
    if Fits(d, digest) {
      RewriteAligns(CERMET, canon, digest, d, ServedText(d.body), PinnedSource(d, digest));
    }
  }

  lemma ExactIsShown(
    s: SentenceRecord.Snapshot, c: AuthorityClient.Candidate, t: SentenceRecord.Token, digest: DigestOf)
    requires AuthorityClient.Honest(c) && AuthorityClient.IsExactCommit(s, c, t)
    ensures LiveShown(s, digest) == Served(digest(c.text))
  {
  }

  /** After an undisturbed commit, what an operator reads is the candidate, served. */
  lemma ServedAfter(w: SentenceRecord.World, c: AuthorityClient.Candidate, digest: DigestOf)
    requires AuthorityClient.Ready(w, c)
    ensures var s := AuthorityClient.CommittedWorld(w, c.text).store;
      LiveShown(SentenceRecord.TakeSnapshot(s), digest) == Served(digest(c.text))
  {
    hide AuthorityClient.CommittedWorld, SentenceRecord.TakeSnapshot, LiveShown;
    AuthorityClient.UndisturbedCommit(w, c);
    var s := AuthorityClient.CommittedWorld(w, c.text).store;
    ExactIsShown(SentenceRecord.TakeSnapshot(s), c, |w.store.stagings|, digest);
  }

  /** Nobody interferes with the transaction, although the network may lose its calls from the commit
      message on; the document is permitted, and the operator agrees. */
  ghost predicate Granted(
    h: AuthorityClient.Host, doc: AuthorityClient.Document, replaceLive: bool, recover: bool,
    op: AuthorityClient.Operator)
    reads h
  {
    && AuthorityClient.LosesAfter(h.turns, 5) && AuthorityClient.Ready(h.w, doc.candidate)
    && AuthorityClient.Cleared(h.w, doc, replaceLive, recover, op)
  }

  /** `run_apply`: the marker is updated after the commit, or repaired when the candidate was live. */
  method Apply(
    h: AuthorityClient.Host, store: Store, canon: Canon, digest: DigestOf, ghost d: Managed,
    doc: AuthorityClient.Document, pre: Preimage, replaceLive: bool, recover: bool, op: AuthorityClient.Operator)
    returns (out: AuthorityClient.Outcome, update: Update, ghost t: Moments)
    requires SentenceRecord.Valid(h.w) && h.w.mine == None && FileSystem.Valid(store.world)
    requires Prepared(d, doc, canon, digest) && IsDigestFunction(digest) && pre.content == d.source
    requires d.start <= d.end <= |d.source|
    modifies h, store
    ensures SentenceRecord.Valid(h.w)
    // The document is touched only once its corpus is the daemon's, and by at most one rename.
    ensures !update.NotAttempted? <==> out.Applied? || out.MarkerRepair?
    ensures out.Applied? ==> AuthorityClient.CommittedOnce(h.w, doc.candidate)
    ensures update.NotAttempted? || update.Unrenderable? ==> store.world == old(store.world)
    ensures Steps(old(store.world), store.world, if update.Updated? || update.Disturbed? then 1 else 0)
    // The rewrite after the commit fails exactly when the document is too large for its marker.
    ensures !update.NotAttempted? ==> (update.Unrenderable? <==> !Fits(d, digest))
    // Updated means: the document found names the corpus that was applied, whatever was in the way.
    ensures update.Updated? ==>
      && FoundHolding(t, PinnedSource(d, digest))
      && Classify(RepositoryOf(CERMET, canon, digest, PinnedSource(d, digest)), Served(digest(doc.candidate.text)))
        == Aligned
    // The update succeeds when nobody interferes with it and the document fits.
    ensures out.Applied? || out.MarkerRepair? ==>
      Writable(old(store.world), pre, PinnedSource(d, digest)) && Fits(d, digest) ==> update.Updated?
    // When nobody interferes with the transaction, it ends as the lost calls allow; with none lost, the
    // corpus is committed and served.
    ensures old(Granted(h, doc, replaceLive, recover, op)) ==>
      out == AuthorityClient.LossOutcome(AuthorityClient.Rest(old(h.turns), 5))
    ensures old(Granted(h, doc, replaceLive, recover, op)) && old(h.turns) == [] ==>
      && out == AuthorityClient.Applied(AuthorityClient.PlainlyCommitted)
      && LiveShown(SentenceRecord.TakeSnapshot(h.w.store), digest) == Served(digest(doc.candidate.text))
  {
    hide CERMET, Parse, Rewritten, MarkerText, PinnedSource, Fits, PinOf, Given, Writable, RepositoryOf, Classify;
    hide Steps, FileSystem.Valid, Rechecked, SentenceRecord.Valid, SentenceRecord.TakeSnapshot, AuthorityClient.Ready;
    hide AuthorityClient.Cleared, AuthorityClient.Honest, AuthorityClient.CommittedOnce, AuthorityClient.CommittedWorld;
    hide LiveShown, AuthorityClient.Traced, AuthorityClient.BoundTo, FoundHolding, AuthorityClient.LossOutcome;
    hide AuthorityClient.IsExactOccurrence, AuthorityClient.Faithful, SentenceRecord.Follows;
    ghost var before := h.w;
    ghost var granted := Granted(h, doc, replaceLive, recover, op);
    var baseline;
    ghost var read, atStage;
    out, baseline, read, atStage := AuthorityClient.RunApply(h, doc, replaceLive, recover, op);
    if granted {
      ServedAfter(before, doc.candidate, digest);
    }
    t := AllAt(store.world);
    if out.Applied? || out.MarkerRepair? {
      PinAligns(canon, digest, d);
      ghost var temp;
      update, temp, t := Republish(store, canon, digest, d, pre, ServedText(doc.candidate.text));
    } else {
      StepsReflexive(store.world);
      update := NotAttempted;
    }
  }

  // ---- `doc export` ----------------------------------------------------------------------------

  /** The corpus an export works from; none of the daemon's other states has one. */
  function CorpusOf(s: SentenceRecord.Snapshot): Option<Corpus> {
    match s
    case SnapAbsent => Some(NoCorpus)
    case SnapServed(_, text, _, _, _) => Some(ServedText(text))
    case _ => None
  }

  lemma CorpusIsLive(s: SentenceRecord.Store, digest: DigestOf)
    ensures var shown := SentenceRecord.TakeSnapshot(s);
      CorpusOf(shown).Some? ==> LiveOf(CorpusOf(shown).value, digest) == LiveShown(shown, digest)
  {
  }

  /** What export makes of a document and a reading of the daemon, with nobody interfering. */
  ghost function Exports(canon: Canon, digest: DigestOf, d: Managed, s: SentenceRecord.Snapshot, replaceDraft: bool)
    : Option<Exported>
    requires d.start <= d.end <= |d.source| && canon(d.body).Ok?
  {
    if CorpusOf(s).None? then None else Some(Export(CERMET, canon, digest, d, CorpusOf(s).value, replaceDraft))
  }

  /** `run_export` on a valid document: `preparable` says whether the daemon could prepare what it serves. */
  method RunExport(
    h: AuthorityClient.Host, store: Store, canon: Canon, digest: DigestOf, d: Managed, pre: Preimage,
    preparable: bool, replaceDraft: bool)
    returns (status: Option<SentenceRecord.Snapshot>, update: Update, ghost t: Moments)
    requires SentenceRecord.Valid(h.w) && FileSystem.Valid(store.world) && IsDigestFunction(digest)
    requires Parse(CERMET, d.source) == Ok(d) && canon(d.body).Ok? && pre.content == d.source
    requires d.start <= d.end <= |d.source|
    modifies h, store
    // It commits nothing.
    ensures SentenceRecord.Valid(h.w) && SentenceRecord.Follows(old(h.w), h.w)
    ensures status.Some? ==> status.value == SentenceRecord.TakeSnapshot(h.w.store)
    ensures status.Some? <==> !AuthorityClient.Silent(AuthorityClient.TurnAt(old(h.turns), 0))
    // It touches the document only to give it the corpus it read, and not when that would lose a draft.
    ensures !update.NotAttempted? <==>
      && status.Some? && (status.value.SnapAbsent? || (status.value.SnapServed? && preparable))
      && Exports(canon, digest, d, status.value, replaceDraft) != Some(Preserved)
    ensures !update.NotAttempted? ==>
      && Exports(canon, digest, d, status.value, replaceDraft).Some?
      && (update.Unrenderable? <==> Exports(canon, digest, d, status.value, replaceDraft).value.Failed?)
    ensures update.NotAttempted? || update.Unrenderable? ==> store.world == old(store.world)
    ensures Steps(old(store.world), store.world, if update.Updated? || update.Disturbed? then 1 else 0)
    // Updated means: the document found is aligned with the corpus read, whatever was in the way.
    ensures update.Updated? ==>
      && var bytes := Exports(canon, digest, d, status.value, replaceDraft).value.bytes;
      && FoundHolding(t, bytes)
      && Classify(RepositoryOf(CERMET, canon, digest, bytes), LiveShown(status.value, digest))
        == if status.value.SnapAbsent? then AlignedNoAuthority else Aligned
    // Undisturbed, it ends up aligned with what is live.
    ensures
      var live := SentenceRecord.TakeSnapshot(old(h.w).store);
      var exported := Exports(canon, digest, d, live, replaceDraft);
      old(h.turns) == [] && (live.SnapServed? ==> preparable) && exported.Some? && exported.value.Rewrote?
      && Writable(old(store.world), pre, exported.value.bytes) ==>
        update.Updated? && status == Some(live) && SentenceRecord.TakeSnapshot(h.w.store) == live
  {
    hide CERMET, Parse, Rewritten, Writable, RepositoryOf, Classify, Unapplied, MarkerOf, BodyOf, LiveOf;
    hide Steps, FileSystem.Valid, Rechecked, SentenceRecord.Valid, SentenceRecord.TakeSnapshot, SentenceRecord.Follows;
    hide LiveShown, FoundHolding;
    t := AllAt(store.world);
    StepsReflexive(store.world);
    update := NotAttempted;
    status := h.AuthorityStatus();
    if status.Some? && CorpusOf(status.value).Some? && (status.value.SnapServed? ==> preparable) {
      var corpus := CorpusOf(status.value).value;
      if !Unapplied(digest(canon(d.body).value), d, corpus, digest) || replaceDraft {
        ghost var temp;
        update, temp, t := Republish(store, canon, digest, d, pre, corpus);
        if update.Updated? {
          ManagedDocument.CermetIsWellFormed();
          RewriteAligns(CERMET, canon, digest, d, corpus, Given(canon, digest, d, corpus).value);
          CorpusIsLive(h.w.store, digest);
        }
      }
    }
  }
}
