/** Drift between the document, its marker and the live corpus, and what export and apply make of it.
    `canon` gives the canonical bytes of a body and `digest` the text of their authority digest. */
module Drift {
  import opened Basics
  import opened ManagedBlock
  import opened ManagedDocument
  import opened DocumentCodec
  import opened DocumentRewrite

  datatype Live = Absent | Served(digest: string) | Unserved | Corrupt | LiveUnknown

  datatype Repository =
    | RepositoryMissing | RepositoryInvalid | RepositoryUnknown
    | Candidate(digest: string, sourceIsEmpty: bool, marker: Marker)

  datatype DriftState =
    | Aligned | AlignedNoAuthority | UnappliedDocument | UnexportedLive | MarkerStale | Diverged
    | RepoMissing | RepoInvalid | DataPlaneUnserved | DataPlaneCorrupt | DataPlaneUnknown

  function LiveText(live: Live): string { if live.Served? then live.digest else "none" }

  /** `classify_drift`. An empty body with marker `none` stands for the absent baseline. */
  function Classify(repo: Repository, live: Live): DriftState {
    match live
    case Unserved => DataPlaneUnserved
    case Corrupt => DataPlaneCorrupt
    case LiveUnknown => DataPlaneUnknown
    case _ =>
      match repo
      case RepositoryMissing => RepoMissing
      case RepositoryInvalid => RepoInvalid
      case RepositoryUnknown => DataPlaneUnknown
      case Candidate(digest, sourceIsEmpty, marker) =>
        if sourceIsEmpty && marker == NoAuthority && live == Absent then AlignedNoAuthority
        else
          var liveText, markerText := LiveText(live), MarkerText(marker);
          var candidate := if sourceIsEmpty && markerText == "none" then "none" else digest;
          if candidate == markerText && markerText == liveText then Aligned
          else if markerText == liveText && candidate != liveText then UnappliedDocument
          else if candidate == markerText && liveText != candidate then UnexportedLive
          else if candidate == liveText && markerText != liveText then MarkerStale
          else Diverged
  }

  type DigestOf = string -> string

  /** Digests have the form of one. */
  ghost predicate IsDigestFunction(digest: DigestOf) {
    forall text {:trigger digest(text)} :: IsDigest(digest(text))
  }

  /** The two texts are not a collision of the digest. */
  ghost predicate NoCollision(digest: DigestOf, a: string, b: string) {
    digest(a) == digest(b) ==> a == b
  }

  /** What the repository shows for a document of these bytes. */
  ghost function RepositoryOf(x: Delimiters, canon: Canon, digest: DigestOf, s: string): Repository {
    var parsed := Parse(x, s);
    if parsed.Err? || canon(parsed.value.body).Err? then RepositoryInvalid
    else Candidate(digest(canon(parsed.value.body).value), parsed.value.body == [], parsed.value.marker)
  }

  /** The live corpus an export works from, if it can work at all. */
  datatype Corpus = NoCorpus | ServedText(text: string)

  function LiveOf(corpus: Corpus, digest: DigestOf): Live {
    match corpus
    case NoCorpus => Absent
    case ServedText(text) => Served(digest(text))
  }

  function MarkerOf(corpus: Corpus, digest: DigestOf): Marker {
    match corpus
    case NoCorpus => NoAuthority
    case ServedText(text) => Digest(digest(text))
  }

  function BodyOf(corpus: Corpus): string { if corpus.ServedText? then corpus.text else [] }

  /** The guard of `run_export`: the document holds edits that were never applied. */
  predicate Unapplied(candidate: string, d: Managed, corpus: Corpus, digest: DigestOf) {
    && !(d.body == [] && d.marker == NoAuthority)
    && candidate != MarkerText(d.marker)
    && candidate != MarkerText(MarkerOf(corpus, digest))
  }

  datatype Exported = Preserved | Rewrote(bytes: string) | Failed(error: DocumentError)

  /** `run_export` on a valid document, with nobody interfering. */
  ghost function Export(x: Delimiters, canon: Canon, digest: DigestOf, d: Managed, corpus: Corpus, replaceDraft: bool)
    : Exported
    requires d.start <= d.end <= |d.source| && canon(d.body).Ok?
  {
    if Unapplied(digest(canon(d.body).value), d, corpus, digest) && !replaceDraft then Preserved
    else
      var rewritten := Rewritten(x, canon, d, MarkerOf(corpus, digest), BodyOf(corpus));
      if rewritten.Ok? then Rewrote(rewritten.value) else Failed(rewritten.error)
  }

  /** Whatever the document and its marker said before, a document that was given the live corpus and
      the marker that names it is aligned with it. Exports and applies both end this way. */
  lemma RewriteAligns(x: Delimiters, canon: Canon, digest: DigestOf, d: Managed, corpus: Corpus, s: string)
    requires WellFormed(x) && IsDigestFunction(digest) && Parse(x, d.source) == Ok(d)
    requires d.start <= d.end <= |d.source|
    requires Rewritten(x, canon, d, MarkerOf(corpus, digest), BodyOf(corpus)) == Ok(s)
    ensures Classify(RepositoryOf(x, canon, digest, s), LiveOf(corpus, digest))
      == if corpus == NoCorpus then AlignedNoAuthority else Aligned
  {
    hide WellFormed, Parse, Doc, Block, Validate, Utf8;
    var m, body := MarkerOf(corpus, digest), BodyOf(corpus);
    assert IsMarker(m);
    PutGet(x, canon, d, m, body, s);
    RewrittenIsCanonical(x, canon, d, m, body, s);
    if corpus.ServedText? {
      DigestIsNotNone(digest(corpus.text));
    }
  }

  lemma RewrittenIsCanonical(x: Delimiters, canon: Canon, d: Managed, m: Marker, body: string, s: string)
    requires d.start <= d.end <= |d.source| && Rewritten(x, canon, d, m, body) == Ok(s)
    ensures canon(body) == Ok(body)
  {
  }

  lemma DigestIsNotNone(text: string)
    requires IsDigest(text)
    ensures text != "none"
  {
    assert |text| != |"none"|;
  }

  // ---- what each state means -------------------------------------------------------------------

  /** The corpus a document stands for: an empty unpinned one stands for none. */
  ghost function CorpusIn(d: Managed, canon: Canon): Corpus
    requires canon(d.body).Ok?
  {
    if d.body == [] && d.marker == NoAuthority then NoCorpus else ServedText(canon(d.body).value)
  }

  /** Different corpora have different digests. */
  ghost predicate Distinguished(digest: DigestOf, a: Corpus, b: Corpus) {
    a.ServedText? && b.ServedText? ==> NoCollision(digest, a.text, b.text)
  }

  lemma MarkerTextsDiffer(digest: DigestOf, a: Corpus, b: Corpus)
    requires IsDigestFunction(digest) && Distinguished(digest, a, b)
    ensures MarkerText(MarkerOf(a, digest)) == MarkerText(MarkerOf(b, digest)) <==> a == b
  {
    if a.ServedText? {
      DigestIsNotNone(digest(a.text));
    }
    if b.ServedText? {
      DigestIsNotNone(digest(b.text));
    }
  }

  /** The drift of a valid document says which of the document and the live corpus has moved away from
      the corpus the marker names: neither, one of them, both to the same corpus, or both apart. */
  lemma DriftMeans(x: Delimiters, canon: Canon, digest: DigestOf, d: Managed, base: Corpus, live: Corpus)
    requires WellFormed(x) && IsDigestFunction(digest) && Parse(x, d.source) == Ok(d) && canon(d.body).Ok?
    requires d.marker == MarkerOf(base, digest)
    requires var doc := CorpusIn(d, canon);
      Distinguished(digest, doc, base) && Distinguished(digest, doc, live) && Distinguished(digest, base, live)
    ensures var doc := CorpusIn(d, canon);
      var drift := Classify(RepositoryOf(x, canon, digest, d.source), LiveOf(live, digest));
      && (drift == AlignedNoAuthority <==> doc == base == live == NoCorpus)
      && (drift == Aligned <==> doc == base == live && live != NoCorpus)
      && (drift == UnappliedDocument <==> live == base && doc != base)
      && (drift == UnexportedLive <==> doc == base && live != base)
      && (drift == MarkerStale <==> doc == live && live != base)
      && (drift == Diverged <==> doc != base && live != base && doc != live)
  {
    hide WellFormed, Parse, Distinguished;
    var doc := CorpusIn(d, canon);
    MarkerTextsDiffer(digest, doc, base);
    MarkerTextsDiffer(digest, doc, live);
    MarkerTextsDiffer(digest, base, live);
    DigestIsNotNone(digest(canon(d.body).value));
    assert MarkerText(d.marker) == "none" <==> d.marker == NoAuthority by {
      MarkerNone(x, d);
    }
  }

  /** Without a valid document or a live corpus, the drift names what is missing, the daemon first. */
  lemma DriftOfFailures(repo: Repository, live: Live)
    ensures Classify(repo, Unserved) == DataPlaneUnserved && Classify(repo, Corrupt) == DataPlaneCorrupt
    ensures Classify(repo, LiveUnknown) == Classify(RepositoryUnknown, Absent) == DataPlaneUnknown
    ensures live == Absent || live.Served? ==>
      && Classify(RepositoryMissing, live) == RepoMissing && Classify(RepositoryInvalid, live) == RepoInvalid
      && Classify(RepositoryUnknown, live) == DataPlaneUnknown
  {
  }

  /** Without `--replace-draft`, export keeps its hands off a document exactly when the drift it would
      report is an unapplied document or a divergence. */
  lemma PreservesDrafts(x: Delimiters, canon: Canon, digest: DigestOf, d: Managed, corpus: Corpus)
    requires WellFormed(x) && IsDigestFunction(digest) && Parse(x, d.source) == Ok(d)
    requires d.start <= d.end <= |d.source| && canon(d.body).Ok?
    ensures Export(x, canon, digest, d, corpus, false) == Preserved
      <==> Classify(RepositoryOf(x, canon, digest, d.source), LiveOf(corpus, digest)) in {UnappliedDocument, Diverged}
  {
    hide WellFormed, Parse, Doc, Rewritten;
    MarkerNone(x, d);
    DigestIsNotNone(digest(canon(d.body).value));
    if corpus.ServedText? {
      DigestIsNotNone(digest(corpus.text));
    }
  }

  lemma MarkerNone(x: Delimiters, d: Managed)
    requires WellFormed(x) && Parse(x, d.source) == Ok(d)
    ensures MarkerText(d.marker) == "none" <==> d.marker == NoAuthority
  {
    hide WellFormed, Validate, SoleBlock, Block, EndsLine, StartsLine;
    assert IsMarker(d.marker);
    if d.marker.Digest? {
      DigestIsNotNone(d.marker.text);
    }
  }

  /** So what it does overwrite is the live corpus, or the corpus the marker names, or the empty
      unpinned baseline: nothing that would be lost. */
  lemma OverwritesNothingNew(x: Delimiters, canon: Canon, digest: DigestOf, d: Managed, corpus: Corpus)
    requires IsDigestFunction(digest)
    requires d.start <= d.end <= |d.source| && canon(d.body).Ok?
    requires corpus.ServedText? ==> NoCollision(digest, canon(d.body).value, corpus.text)
    requires Export(x, canon, digest, d, corpus, false).Rewrote?
    ensures || (corpus.ServedText? && canon(d.body).value == corpus.text)
            || d.marker == Digest(digest(canon(d.body).value))
            || (d.body == [] && d.marker == NoAuthority)
  {
    hide Rewritten;
    DigestIsNotNone(digest(canon(d.body).value));
  }

  /** Pinning is not always possible: the text of a digest is 67 bytes longer than `none`, so a valid
      document closer than that to the size limit cannot take its first marker. The apply only finds
      out after its commit, where it does not expect the rewrite to fail. */
  lemma PinningCanOverflow(x: Delimiters, canon: Canon, d: Managed, m: Marker)
    requires WellFormed(x) && Parse(x, d.source) == Ok(d)
    requires d.marker == NoAuthority && m.Digest? && IsMarker(m)
    requires d.start <= d.end <= |d.source|
    ensures |d.source| > MAX_DOCUMENT_BYTES - 67 ==> Rewritten(x, canon, d, m, d.body).Err?
    ensures Rewritten(x, canon, d, m, d.body).Ok? ==> |Rewritten(x, canon, d, m, d.body).value| == |d.source| + 67
  {
    hide WellFormed, Validate, SoleBlock, Block, EndsLine, StartsLine, Utf8, IsMarker;
    var r := Rendered(x, canon, m, d.body);
    BlockLength(x, m, d.body);
    BlockLength(x, d.marker, d.body);
    MarkerLengths(x, m);
    assert d.source == d.source[..d.start] + Block(x, d.marker, d.body) + d.source[d.end..];
  }

  lemma MarkerLengths(x: Delimiters, m: Marker)
    requires m.Digest? && IsMarker(m)
    ensures |PinnedLine(x, m)| == |PinnedLine(x, NoAuthority)| + 67
  {
    assert |MarkerText(NoAuthority)| == 4;
  }
}
