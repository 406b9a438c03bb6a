/** The codec for the one managed block of `CERMET.md`. A document is a string with one character
    per byte. */
module ManagedBlock {
  import opened Basics

  const MAX_DOCUMENT_BYTES := 1024 * 1024
  const NL := '\n'

  /** The fixed texts of the envelope, and the fragments that make another line a look-alike. */
  datatype Delimiters = Delimiters(
    start: string, end: string, prefix: string, suffix: string, open: string, close: string,
    authorityWord: string, pinnedWord: string, pinnedLead: string, fenceWord: string)

  const CERMET := Delimiters(
    "<!-- cermet:authority:v1 -->", "<!-- /cermet:authority:v1 -->",
    "Pinned authority: `", "` <!-- cermet:pinned:v1 -->", "```cermet", "```",
    "cermet:authority", "cermet:pinned", "pinned authority:", "```cermet")

  datatype DocumentError =
    | TooLarge | InvalidEncoding | InvalidControl | InvalidEnvelope | InvalidBody(reason: string) | NonCanonicalBody

  // ---- markers ---------------------------------------------------------------------------------

  /** `none`, or the text of an authority digest. */
  datatype Marker = NoAuthority | Digest(text: string)

  predicate IsHex(c: char) { '0' <= c <= '9' || 'a' <= c <= 'f' }

  predicate IsDigest(text: string) {
    |text| == 71 && text[..7] == "sha256:" && forall c :: c in text[7..] ==> IsHex(c)
  }

  /** Digests are only made by parsing, so every marker is one of these. */
  predicate IsMarker(m: Marker) { m.Digest? ==> IsDigest(m.text) }

  function MarkerText(m: Marker): string {
    match m
    case NoAuthority => "none"
    case Digest(text) => text
  }

  function ParseMarker(text: string): Option<Marker> {
    if text == "none" then Some(NoAuthority)
    else if IsDigest(text) then Some(Digest(text))
    else None
  }

  function PinnedLine(x: Delimiters, m: Marker): string { x.prefix + MarkerText(m) + x.suffix }

  function ParsePinnedLine(x: Delimiters, line: string): Option<Marker> {
    if x.prefix <= line then
      var rest := line[|x.prefix|..];
      if |x.suffix| <= |rest| && rest[|rest| - |x.suffix|..] == x.suffix
      then ParseMarker(rest[..|rest| - |x.suffix|])
      else None
    else None
  }

  lemma PinnedLineParses(x: Delimiters, m: Marker)
    requires IsMarker(m)
    ensures ParsePinnedLine(x, PinnedLine(x, m)) == Some(m)
  {
    MarkerTextParses(m);
    var rest := PinnedLine(x, m)[|x.prefix|..];
    assert rest == MarkerText(m) + x.suffix;
    assert rest[..|rest| - |x.suffix|] == MarkerText(m);
  }

  lemma PinnedLineOnly(x: Delimiters, line: string, m: Marker)
    requires ParsePinnedLine(x, line) == Some(m)
    ensures IsMarker(m) && line == PinnedLine(x, m)
  {
    var rest := line[|x.prefix|..];
    assert line == x.prefix + rest;
    assert rest == rest[..|rest| - |x.suffix|] + x.suffix;
  }

  lemma MarkerTextParses(m: Marker)
    requires IsMarker(m)
    ensures ParseMarker(MarkerText(m)) == Some(m)
  {
    if m.Digest? {
      assert |m.text| != |"none"|;
    }
  }

  lemma MarkerTextIsOneLine(m: Marker)
    requires IsMarker(m)
    ensures NL !in MarkerText(m)
  {
    if m.Digest? {
      assert m.text == m.text[..7] + m.text[7..];
      assert NL !in "sha256:";
      assert !IsHex(NL);
    }
  }

  // ---- byte validation -------------------------------------------------------------------------

  predicate Between(c: char, lo: int, hi: int) { lo <= c as int <= hi }

  predicate Continuation(s: string, k: nat) { k < |s| && Between(s[k], 0x80, 0xBF) }

  /** Bytes taken by the first encoded character, or zero if there is none well-formed. */
  function Utf8Length(s: string): (n: nat)
    ensures n <= |s| && n <= 4
    ensures forall k :: 0 < k < n ==> s[k] as int >= 0x80
  {
    if s == [] then 0
    else if Between(s[0], 0, 0x7F) then 1
    else if Between(s[0], 0xC2, 0xDF) && Continuation(s, 1) then 2
    else if Continuation(s, 1) && Continuation(s, 2)
      && (if Between(s[0], 0xE0, 0xE0) then Between(s[1], 0xA0, 0xBF)
          else if Between(s[0], 0xED, 0xED) then Between(s[1], 0x80, 0x9F)
          else Between(s[0], 0xE1, 0xEF)) then 3
    else if Continuation(s, 1) && Continuation(s, 2) && Continuation(s, 3)
      && (if Between(s[0], 0xF0, 0xF0) then Between(s[1], 0x90, 0xBF)
          else if Between(s[0], 0xF4, 0xF4) then Between(s[1], 0x80, 0x8F)
          else Between(s[0], 0xF1, 0xF3)) then 4
    else 0
  }

  predicate Utf8(s: string) {
    s == [] || (Utf8Length(s) > 0 && Utf8(s[Utf8Length(s)..]))
  }

  /** The first character only depends on its own bytes. */
  lemma Utf8LengthLocal(a: string, b: string)
    requires 0 < Utf8Length(a + b) <= |a|
    ensures Utf8Length(a) == Utf8Length(a + b)
  {
    var s, n := a + b, Utf8Length(a + b);
    assert s[0] == a[0];
    assert 1 < n ==> s[1] == a[1] && Continuation(a, 1);
    assert 2 < n ==> s[2] == a[2] && Continuation(a, 2);
    assert 3 < n ==> s[3] == a[3] && Continuation(a, 3);
  }

  /** An encoded text may be cut in front of any ASCII character. */
  lemma {:induction false} Utf8Split(a: string, b: string)
    requires Utf8(a + b) && (b == [] || b[0] as int < 0x80)
    ensures Utf8(a) && Utf8(b)
    decreases |a|
  {
    if a == [] {
      assert a + b == b;
    } else {
      var n := Utf8Length(a + b);
      assert n <= |a| by {
        assert b != [] ==> (a + b)[|a|] == b[0];
      }
      Utf8LengthLocal(a, b);
      assert (a + b)[n..] == a[n..] + b;
      Utf8Split(a[n..], b);
    }
  }

  predicate HasBom(s: string) {
    exists k :: 0 <= k <= |s| - 3 && s[k] as int == 0xEF && s[k + 1] as int == 0xBB && s[k + 2] as int == 0xBF
  }

  predicate Disallowed(c: char) {
    c == '\r' || c as int == 0x7F || (c as int < 0x20 && c != NL && c != '\t')
  }

  /** `validate_document_bytes`. */
  function Validate(s: string): Option<DocumentError> {
    if |s| > MAX_DOCUMENT_BYTES then Some(TooLarge)
    else if HasBom(s) || !Utf8(s) then Some(InvalidEncoding)
    else if exists c :: c in s && Disallowed(c) then Some(InvalidControl)
    else None
  }

  lemma PartUtf8(a: string, b: string, c: string)
    requires Utf8(a + b + c)
    requires b != [] && b[0] as int < 0x80 && (c == [] || c[0] as int < 0x80)
    ensures Utf8(b)
  {
    hide Utf8;
    assert a + b + c == a + (b + c);
    Utf8Split(a, b + c);
    Utf8Split(b, c);
  }

  lemma PartBom(a: string, b: string, c: string)
    requires HasBom(b)
    ensures HasBom(a + b + c)
  {
    var k :| 0 <= k <= |b| - 3 && b[k] as int == 0xEF && b[k + 1] as int == 0xBB && b[k + 2] as int == 0xBF;
    var s := a + b + c;
    assert s[|a| + k] == b[k] && s[|a| + k + 1] == b[k + 1] && s[|a| + k + 2] == b[k + 2];
  }

  /** Valid bytes stay valid when cut at ASCII characters. */
  lemma ValidatePart(a: string, b: string, c: string)
    requires Validate(a + b + c) == None
    requires b != [] && b[0] as int < 0x80 && (c == [] || c[0] as int < 0x80)
    ensures Validate(b) == None
  {
    hide Utf8, HasBom, Disallowed;
    PartUtf8(a, b, c);
    if HasBom(b) {
      PartBom(a, b, c);
    }
    assert forall x :: x in b ==> x in a + b + c;
  }

  // ---- lines -----------------------------------------------------------------------------------

  datatype Line = Line(start: nat, end: nat, next: nat)

  /** Consecutive lines from the start of the text to `upto`, each ended by a newline or the end. */
  ghost predicate IsLines(s: string, ls: seq<Line>, upto: nat) {
    if ls == [] then upto == 0
    else
      var last := ls[|ls| - 1];
      && last.start <= last.end <= |s| && last.start < |s|
      && (if last.end < |s| then s[last.end] == NL && last.next == last.end + 1 else last.next == |s|)
      && upto == last.next && IsLines(s, ls[..|ls| - 1], last.start)
  }

  ghost predicate OneLine(s: string, from: nat, to: nat)
    requires to <= |s|
  {
    forall i :: from <= i < to ==> s[i] != NL
  }

  /** No line contains a newline. */
  ghost predicate NoneSplit(s: string, ls: seq<Line>) {
    forall l :: l in ls ==> l.end <= |s| && OneLine(s, l.start, l.end)
  }

  /** `lines`: the scan for newlines. */
  method Lines(s: string) returns (ls: seq<Line>)
    ensures IsLines(s, ls, |s|) && NoneSplit(s, ls)
  {
    ls := [];
    var start := 0;
    while start < |s|
      invariant start <= |s| && IsLines(s, ls, start) && NoneSplit(s, ls)
      decreases |s| - start
    {
      var end := start;
      while end < |s| && s[end] != NL
        invariant start <= end <= |s| && OneLine(s, start, end)
      {
        end := end + 1;
      }
      var next := if end < |s| then end + 1 else |s|;
      assert (ls + [Line(start, end, next)])[..|ls|] == ls;
      ls := ls + [Line(start, end, next)];
      start := next;
    }
  }

  function Text(s: string, l: Line): string {
    if l.start <= l.end <= |s| then s[l.start..l.end] else []
  }

  function Texts(s: string, ls: seq<Line>): (r: seq<string>)
    ensures |r| == |ls|
  {
    seq(|ls|, k requires 0 <= k < |ls| => Text(s, ls[k]))
  }

  /** `v` is the line of `s` that starts at `p`. */
  ghost predicate LineAt(s: string, p: nat, v: string) {
    && p < |s| && (p == 0 || s[p - 1] == NL)
    && p + |v| <= |s| && s[p..p + |v|] == v && OneLine(s, p, p + |v|)
    && (p + |v| == |s| || s[p + |v|] == NL)
  }

  lemma {:induction false} LineCovers(s: string, ls: seq<Line>, upto: nat, p: nat) returns (k: nat)
    requires IsLines(s, ls, upto) && p < upto
    ensures k < |ls| && ls[k].start <= p < ls[k].next
    decreases |ls|
  {
    k := |ls| - 1;
    if p < ls[k].start {
      k := LineCovers(s, ls[..k], ls[k].start, p);
    }
  }

  /** The edges of a line, without what lies between them. */
  lemma {:induction false} LineEdges(s: string, ls: seq<Line>, upto: nat, k: nat)
    requires IsLines(s, ls, upto) && k < |ls|
    ensures ls[k].start <= ls[k].end <= |s| && ls[k].start < |s|
    ensures ls[k].start == 0 || s[ls[k].start - 1] == NL
    ensures if ls[k].end < |s| then s[ls[k].end] == NL && ls[k].next == ls[k].end + 1 else ls[k].next == |s|
    ensures if k + 1 < |ls| then ls[k].end < |s| && ls[k + 1].start == ls[k].end + 1 else ls[k].next == upto
    decreases |ls|
  {
    var n := |ls| - 1;
    if k < n {
      LineEdges(s, ls[..n], ls[n].start, k);
    } else if n > 0 {
      LineEdges(s, ls[..n], ls[n].start, n - 1);
    }
  }

  /** The scan finds every line of the text, with its exact extent. */
  lemma LineIndex(s: string, ls: seq<Line>, p: nat, v: string) returns (k: nat)
    requires IsLines(s, ls, |s|) && NoneSplit(s, ls) && LineAt(s, p, v)
    ensures k < |ls| && ls[k].start == p && Text(s, ls[k]) == v
  {
    k := LineCovers(s, ls, |s|, p);
    LineEdges(s, ls, |s|, k);
    assert ls[k] in ls;
    assert ls[k].end == p + |v|;
  }

  /** Every scanned line is a line of the text. */
  lemma LineOf(s: string, ls: seq<Line>, k: nat)
    requires IsLines(s, ls, |s|) && NoneSplit(s, ls) && k < |ls|
    ensures LineAt(s, ls[k].start, Text(s, ls[k]))
  {
    hide IsLines, OneLine;
    LineEdges(s, ls, |s|, k);
    assert ls[k] in ls;
  }
}
