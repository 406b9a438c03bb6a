/** The grammar of a managed document, the strict parser that accepts exactly that grammar, and the
    rewriter. Everything is stated for arbitrary delimiters. */
module ManagedDocument {
  import opened Basics
  import opened ManagedBlock

  // ---- look-alikes -----------------------------------------------------------------------------

  function LowerChar(c: char): char {
    if 'A' <= c <= 'Z' then (c as int + 32) as char else c
  }

  function Lower(s: string): (r: string)
    ensures |r| == |s|
  {
    seq(|s|, k requires 0 <= k < |s| => LowerChar(s[k]))
  }

  predicate OccursAt(s: string, part: string, k: int) {
    0 <= k <= |s| - |part| && s[k..k + |part|] == part
  }

  predicate Contains(s: string, part: string) {
    exists k :: 0 <= k <= |s| && OccursAt(s, part, k)
  }

  /** A line that resembles one of the block's delimiters without being it. */
  predicate Lookalike(x: Delimiters, v: string) {
    var lower := Lower(v);
    || (Contains(lower, x.authorityWord) && v != x.start && v != x.end)
    || ((Contains(lower, x.pinnedWord) || x.pinnedLead <= lower) && ParsePinnedLine(x, v).None?)
    || (Contains(lower, x.fenceWord) && v != x.open)
  }

  // ---- the grammar -----------------------------------------------------------------------------

  function Ln(line: string, rest: string): string { line + [NL] + rest }

  function FenceOnward(x: Delimiters, body: string): string { body + Ln(x.close, x.end) }

  /** The printed block. */
  function Block(x: Delimiters, m: Marker, body: string): string {
    Ln(x.start, Ln(PinnedLine(x, m), Ln("", Ln(x.open, FenceOnward(x, body)))))
  }

  predicate EndsLine(s: string) { s == [] || s[|s| - 1] == NL }

  predicate StartsLine(s: string) { s == [] || s[0] == NL }

  /** Where the block's own lines start. */
  datatype Places = Places(start: nat, pinned: nat, open: nat, body: nat, close: nat, end: nat)

  function PlacesOf(x: Delimiters, pre: string, m: Marker, body: string): Places {
    var pinned := |pre| + |x.start| + 1;
    var open := pinned + |PinnedLine(x, m)| + 2;
    var inside := open + |x.open| + 1;
    var close := inside + |body|;
    Places(|pre|, pinned, open, inside, close, close + |x.close| + 1)
  }

  /** A line is a delimiter only in the delimiter's own place, and resembles none. */
  ghost predicate LineFits(x: Delimiters, at: Places, p: nat, v: string) {
    && !Lookalike(x, v)
    && (v == x.start ==> p == at.start)
    && (ParsePinnedLine(x, v).Some? ==> p == at.pinned)
    && (v == x.open ==> p == at.open)
    && (v == x.close && at.open < p < at.end ==> p == at.close)
    && (v == x.end ==> p == at.end)
  }

  ghost predicate SoleBlock(x: Delimiters, s: string, at: Places) {
    forall p: nat, v: string {:trigger LineAt(s, p, v)} :: LineAt(s, p, v) ==> LineFits(x, at, p, v)
  }

  /** The document is prose, the block, prose; the block stands on lines of its own, and no other
      line is a delimiter or resembles one. */
  ghost predicate Doc(x: Delimiters, s: string, pre: string, m: Marker, body: string, post: string) {
    && s == pre + Block(x, m, body) + post
    && EndsLine(pre) && EndsLine(body) && StartsLine(post)
    && IsMarker(m)
    && SoleBlock(x, s, PlacesOf(x, pre, m, body))
  }

  // ---- what the parser looks at: the texts of the lines ----------------------------------------

  datatype Kind = KStart | KEnd | KOpen | KPinned | KClose

  predicate Is(x: Delimiters, kind: Kind, v: string) {
    match kind
    case KStart => v == x.start
    case KEnd => v == x.end
    case KOpen => v == x.open
    case KPinned => ParsePinnedLine(x, v).Some?
    case KClose => v == x.close
  }

  /** Which lines are of a kind. */
  function Bits(x: Delimiters, vs: seq<string>, kind: Kind): (r: seq<bool>)
    ensures |r| == |vs|
  {
    seq(|vs|, k requires 0 <= k < |vs| => Is(x, kind, vs[k]))
  }

  /** The indexes of the set bits, in order. */
  function Hits(bits: seq<bool>): seq<nat> {
    if bits == [] then []
    else
      var n := |bits| - 1;
      Hits(bits[..n]) + if bits[n] then [n] else []
  }

  lemma {:induction false} HitsExact(bits: seq<bool>, k: nat)
    ensures k in Hits(bits) <==> (k < |bits| && bits[k])
  {
    if bits != [] {
      HitsExact(bits[..|bits| - 1], k);
    }
  }

  lemma {:induction false} HitsSingle(bits: seq<bool>, at: nat)
    requires at < |bits| && bits[at] && forall k :: 0 <= k < |bits| && k != at ==> !bits[k]
    ensures Hits(bits) == [at]
  {
    var n := |bits| - 1;
    if at == n {
      HitsNone(bits[..n]);
    } else {
      HitsSingle(bits[..n], at);
    }
  }

  lemma {:induction false} HitsNone(bits: seq<bool>)
    requires forall k :: 0 <= k < |bits| ==> !bits[k]
    ensures Hits(bits) == []
  {
    if bits != [] {
      HitsNone(bits[..|bits| - 1]);
    }
  }

  lemma OnlyHit(bits: seq<bool>, at: nat)
    requires Hits(bits) == [at]
    ensures at < |bits| && forall k :: 0 <= k < |bits| ==> (bits[k] <==> k == at)
  {
    HitsExact(bits, at);
    assert at in Hits(bits);
    forall k | 0 <= k < |bits| ensures bits[k] <==> k == at {
      HitsExact(bits, k);
    }
  }

  ghost predicate NoLookalikes(x: Delimiters, vs: seq<string>, upto: nat) {
    forall j :: 0 <= j < upto && j < |vs| ==> !Lookalike(x, vs[j])
  }

  /** The parser's acceptance condition when no line is a look-alike. */
  ghost predicate Envelope(x: Delimiters, vs: seq<string>, k: nat, e: nat, m: Marker) {
    && k + 4 < e < |vs|
    && Hits(Bits(x, vs, KStart)) == [k]
    && Hits(Bits(x, vs, KEnd)) == [e]
    && Hits(Bits(x, vs, KPinned)) == [k + 1]
    && Hits(Bits(x, vs, KOpen)) == [k + 3]
    && vs[k + 2] == []
    && vs[e - 1] == x.close
    && |Hits(Bits(x, vs, KClose)[k + 4..e])| == 1
    && ParsePinnedLine(x, vs[k + 1]) == Some(m)
  }

  /** The same without counting: which lines are which, and that they are no other. */
  ghost predicate Frame(x: Delimiters, vs: seq<string>, k: nat, e: nat, m: Marker) {
    && k + 4 < e < |vs|
    && vs[k] == x.start && vs[k + 1] == PinnedLine(x, m) && vs[k + 2] == [] && vs[k + 3] == x.open
    && vs[e - 1] == x.close && vs[e] == x.end
    && IsMarker(m)
  }

  ghost predicate OnlyThere(x: Delimiters, v: string, k: nat, e: nat, j: nat) {
    && (v == x.start ==> j == k)
    && (ParsePinnedLine(x, v).Some? ==> j == k + 1)
    && (v == x.open ==> j == k + 3)
    && (v == x.close && k + 4 <= j < e ==> j == e - 1)
    && (v == x.end ==> j == e)
  }

  ghost predicate Unique(x: Delimiters, vs: seq<string>, k: nat, e: nat) {
    forall j: nat {:trigger OnlyThere(x, vs[j], k, e, j)} :: j < |vs| ==> OnlyThere(x, vs[j], k, e, j)
  }

  lemma CountedOnce(bits: seq<bool>, a: nat, b: nat)
    requires |Hits(bits)| == 1 && a < |bits| && b < |bits| && bits[a] && bits[b]
    ensures a == b
  {
    HitsExact(bits, a);
    HitsExact(bits, b);
  }

  lemma KindOnly(x: Delimiters, vs: seq<string>, kind: Kind, at: nat, j: nat)
    requires Hits(Bits(x, vs, kind)) == [at] && j < |vs|
    ensures at < |vs| && (Is(x, kind, vs[j]) <==> j == at)
  {
    OnlyHit(Bits(x, vs, kind), at);
    assert Bits(x, vs, kind)[j] == Is(x, kind, vs[j]);
  }

  lemma CloseOnly(x: Delimiters, vs: seq<string>, k: nat, e: nat, m: Marker, j: nat)
    requires Envelope(x, vs, k, e, m) && k + 4 <= j < e && vs[j] == x.close
    ensures j == e - 1
  {
    var close := Bits(x, vs, KClose)[k + 4..e];
    assert close[j - k - 4] && close[e - 1 - k - 4];
    CountedOnce(close, j - k - 4, e - 1 - k - 4);
  }

  lemma EnvelopeUnique(x: Delimiters, vs: seq<string>, k: nat, e: nat, m: Marker, j: nat)
    requires Envelope(x, vs, k, e, m) && j < |vs|
    ensures OnlyThere(x, vs[j], k, e, j)
  {
    KindOnly(x, vs, KStart, k, j);
    KindOnly(x, vs, KPinned, k + 1, j);
    KindOnly(x, vs, KOpen, k + 3, j);
    KindOnly(x, vs, KEnd, e, j);
    if vs[j] == x.close && k + 4 <= j < e {
      CloseOnly(x, vs, k, e, m, j);
    }
  }

  lemma EnvelopeFrames(x: Delimiters, vs: seq<string>, k: nat, e: nat, m: Marker)
    requires Envelope(x, vs, k, e, m)
    ensures Frame(x, vs, k, e, m) && Unique(x, vs, k, e)
  {
    forall j: nat | j < |vs| ensures OnlyThere(x, vs[j], k, e, j) {
      EnvelopeUnique(x, vs, k, e, m, j);
    }
    KindOnly(x, vs, KStart, k, k);
    KindOnly(x, vs, KOpen, k + 3, k + 3);
    KindOnly(x, vs, KEnd, e, e);
    PinnedLineOnly(x, vs[k + 1], m);
  }

  lemma SingleKind(x: Delimiters, vs: seq<string>, kind: Kind, at: nat)
    requires at < |vs| && Is(x, kind, vs[at])
    requires forall j :: 0 <= j < |vs| && Is(x, kind, vs[j]) ==> j == at
    ensures Hits(Bits(x, vs, kind)) == [at]
  {
    HitsSingle(Bits(x, vs, kind), at);
  }

  lemma SingleClose(x: Delimiters, vs: seq<string>, k: nat, e: nat)
    requires k + 4 < e < |vs| && vs[e - 1] == x.close
    requires forall j :: k + 4 <= j < e && vs[j] == x.close ==> j == e - 1
    ensures |Hits(Bits(x, vs, KClose)[k + 4..e])| == 1
  {
    var close := Bits(x, vs, KClose)[k + 4..e];
    assert forall j :: 0 <= j < |close| ==> close[j] == (vs[k + 4 + j] == x.close);
    HitsSingle(close, e - 1 - k - 4);
  }

  lemma FrameKind(x: Delimiters, vs: seq<string>, kind: Kind, k: nat, e: nat, m: Marker, at: nat)
    requires Frame(x, vs, k, e, m) && Unique(x, vs, k, e) && ParsePinnedLine(x, PinnedLine(x, m)).Some?
    requires at ==
      match kind case KStart => k case KEnd => e case KOpen => k + 3 case KPinned => k + 1 case KClose => |vs|
    requires kind != KClose
    ensures Hits(Bits(x, vs, kind)) == [at]
  {
    hide PinnedLine, ParsePinnedLine, IsMarker, Bits, Hits;
    forall j: nat | j < |vs| && Is(x, kind, vs[j]) ensures j == at {
      assert OnlyThere(x, vs[j], k, e, j);
    }
    SingleKind(x, vs, kind, at);
  }

  lemma FrameEnvelopes(x: Delimiters, vs: seq<string>, k: nat, e: nat, m: Marker)
    requires Frame(x, vs, k, e, m) && Unique(x, vs, k, e)
    ensures Envelope(x, vs, k, e, m)
  {
    hide PinnedLine, ParsePinnedLine, IsMarker, Bits, Hits;
    PinnedLineParses(x, m);
    forall j: nat | j < |vs| ensures OnlyThere(x, vs[j], k, e, j) {
    }
    FrameKind(x, vs, KStart, k, e, m, k);
    FrameKind(x, vs, KEnd, k, e, m, e);
    FrameKind(x, vs, KOpen, k, e, m, k + 3);
    FrameKind(x, vs, KPinned, k, e, m, k + 1);
    SingleClose(x, vs, k, e);
  }

  // ---- accepted documents are in the grammar ---------------------------------------------------

  lemma CutLine(s: string, a: nat, b: nat, c: nat)
    requires a <= b < c <= |s| && s[b] == NL
    ensures s[a..c] == Ln(s[a..b], s[b + 1..c])
  {
  }

  /** A line that is not the last one reads as its text, a newline, and what follows. */
  lemma LineStep(s: string, ls: seq<Line>, j: nat, c: nat)
    requires IsLines(s, ls, |s|) && j + 1 < |ls| && ls[j + 1].start <= c <= |s|
    ensures ls[j].start <= c
    ensures s[ls[j].start..c] == Ln(Texts(s, ls)[j], s[ls[j + 1].start..c])
    ensures ls[j + 1].start == ls[j].start + |Texts(s, ls)[j]| + 1
  {
    LineEdges(s, ls, |s|, j);
    CutLine(s, ls[j].start, ls[j].end, c);
  }

  lemma {:induction false} LinesOrdered(s: string, ls: seq<Line>, i: nat, j: nat)
    requires IsLines(s, ls, |s|) && i <= j < |ls|
    ensures ls[i].start <= ls[j].start < |s| && (i < j ==> ls[i].start < ls[j].start)
    decreases j - i
  {
    LineEdges(s, ls, |s|, j);
    if i < j {
      LinesOrdered(s, ls, i, j - 1);
      LineEdges(s, ls, |s|, j - 1);
    }
  }

  /** Lines that start earlier come earlier. */
  lemma StartsBefore(s: string, ls: seq<Line>, i: nat, j: nat)
    requires IsLines(s, ls, |s|) && i < |ls| && j < |ls|
    ensures ls[i].start < ls[j].start <==> i < j
  {
    if j <= i {
      LinesOrdered(s, ls, j, i);
    } else {
      LinesOrdered(s, ls, i, j);
    }
  }

  lemma HeadText(x: Delimiters, s: string, ls: seq<Line>, k: nat, e: nat, m: Marker, c: nat)
    requires IsLines(s, ls, |s|) && Frame(x, Texts(s, ls), k, e, m) && ls[k + 4].start <= c <= |s|
    ensures ls[k].start <= c
    ensures s[ls[k].start..c] == Ln(x.start, Ln(PinnedLine(x, m), Ln("", Ln(x.open, s[ls[k + 4].start..c]))))
    ensures ls[k + 1].start == ls[k].start + |x.start| + 1
    ensures ls[k + 3].start == ls[k + 1].start + |PinnedLine(x, m)| + 2
    ensures ls[k + 4].start == ls[k + 3].start + |x.open| + 1
  {
    LineStep(s, ls, k + 3, c);
    LineStep(s, ls, k + 2, c);
    LineStep(s, ls, k + 1, c);
    LineStep(s, ls, k, c);
  }

  /** The last of some consecutive lines reads as its text. */
  lemma LastText(s: string, ls: seq<Line>, e: nat)
    requires IsLines(s, ls, |s|) && e < |ls|
    ensures ls[e].start <= ls[e].end <= |s| && s[ls[e].start..ls[e].end] == Texts(s, ls)[e]
  {
    LineEdges(s, ls, |s|, e);
  }

  lemma TailText(x: Delimiters, s: string, ls: seq<Line>, k: nat, e: nat, m: Marker)
    requires IsLines(s, ls, |s|) && Frame(x, Texts(s, ls), k, e, m)
    ensures ls[k + 4].start <= ls[e - 1].start <= ls[e].start <= ls[e].end <= |s|
    ensures s[ls[k + 4].start..ls[e].end] == FenceOnward(x, s[ls[k + 4].start..ls[e - 1].start])
    ensures ls[e].start == ls[e - 1].start + |x.close| + 1
  {
    hide Ln, IsLines, PinnedLine, IsMarker, Texts;
    LinesOrdered(s, ls, k + 4, e - 1);
    LastText(s, ls, e);
    LineStep(s, ls, e - 1, ls[e].end);
    Glue(s, ls[k + 4].start, ls[e - 1].start, ls[e].end);
  }

  lemma Glue(s: string, a: nat, b: nat, c: nat)
    requires a <= b <= c <= |s|
    ensures s[a..c] == s[a..b] + s[b..c]
  {
  }

  /** A cut at the start of a line ends a line. */
  lemma CutEnds(s: string, a: nat, p: nat)
    requires a <= p <= |s| && (p == 0 || s[p - 1] == NL)
    ensures EndsLine(s[a..p])
  {
  }

  /** Where the parser puts the block. */
  function Pieces(ls: seq<Line>, k: nat, e: nat): (nat, nat, nat, nat)
    requires k + 4 < e < |ls|
  {
    (ls[k].start, ls[k + 4].start, ls[e - 1].start, ls[e].end)
  }

  lemma PieceOrder(s: string, ls: seq<Line>, k: nat, e: nat)
    requires IsLines(s, ls, |s|) && k + 4 < e < |ls|
    ensures ls[k].start <= ls[k + 4].start <= ls[e - 1].start <= ls[e].end <= |s|
  {
    LinesOrdered(s, ls, k, k + 4);
    LinesOrdered(s, ls, k + 4, e - 1);
    LinesOrdered(s, ls, e - 1, e);
    LineEdges(s, ls, |s|, e);
  }

  /** A text cut where a line starts ends with a whole line. */
  lemma StartCut(s: string, ls: seq<Line>, a: nat, k: nat)
    requires IsLines(s, ls, |s|) && k < |ls| && a <= ls[k].start <= |s|
    ensures EndsLine(s[a..ls[k].start])
  {
    hide IsLines, EndsLine;
    LineEdges(s, ls, |s|, k);
    CutEnds(s, a, ls[k].start);
  }

  lemma EndCut(s: string, ls: seq<Line>, k: nat)
    requires IsLines(s, ls, |s|) && k < |ls| && ls[k].end <= |s|
    ensures StartsLine(s[ls[k].end..])
  {
    LineEdges(s, ls, |s|, k);
  }

  /** The pieces start and end at line boundaries. */
  lemma PieceEdges(s: string, ls: seq<Line>, k: nat, e: nat)
    requires IsLines(s, ls, |s|) && k + 4 < e < |ls|
    ensures ls[k].start <= ls[k + 4].start <= ls[e - 1].start <= ls[e].end <= |s|
    ensures EndsLine(s[..ls[k].start])
    ensures EndsLine(s[ls[k + 4].start..ls[e - 1].start])
    ensures StartsLine(s[ls[e].end..])
  {
    hide IsLines, EndsLine, StartsLine;
    PieceOrder(s, ls, k, e);
    HeadCut(s, ls, k);
    StartCut(s, ls, ls[k + 4].start, e - 1);
    EndCut(s, ls, e);
  }

  lemma HeadCut(s: string, ls: seq<Line>, k: nat)
    requires IsLines(s, ls, |s|) && k < |ls| && ls[k].start <= |s|
    ensures EndsLine(s[..ls[k].start])
  {
    StartCut(s, ls, 0, k);
    assert s[0..ls[k].start] == s[..ls[k].start];
  }

  lemma FrameText(x: Delimiters, s: string, ls: seq<Line>, k: nat, e: nat, m: Marker)
    requires IsLines(s, ls, |s|) && Frame(x, Texts(s, ls), k, e, m)
    ensures var (a, b, c, d) := Pieces(ls, k, e);
      && a <= b <= c <= d <= |s|
      && s == s[..a] + Block(x, m, s[b..c]) + s[d..]
      && PlacesOf(x, s[..a], m, s[b..c]) == Places(a, ls[k + 1].start, ls[k + 3].start, b, c, ls[e].start)
  {
    var (a, b, c, d) := Pieces(ls, k, e);
    TailText(x, s, ls, k, e, m);
    HeadText(x, s, ls, k, e, m, d);
    ThreeParts(s, a, d);
  }

  lemma ThreeParts(s: string, a: nat, d: nat)
    requires a <= d <= |s|
    ensures s == s[..a] + s[a..d] + s[d..]
  {
  }

  lemma FrameSole(x: Delimiters, s: string, ls: seq<Line>, k: nat, e: nat, m: Marker, p: nat, v: string)
    requires IsLines(s, ls, |s|) && Frame(x, Texts(s, ls), k, e, m)
    requires NoneSplit(s, ls) && Unique(x, Texts(s, ls), k, e) && NoLookalikes(x, Texts(s, ls), |ls|)
    requires LineAt(s, p, v)
    ensures var (a, b, c, d) := Pieces(ls, k, e);
      LineFits(x, Places(a, ls[k + 1].start, ls[k + 3].start, b, c, ls[e].start), p, v)
  {
    hide IsLines, NoneSplit, LineAt, Lookalike, OnlyThere, LineFits, IsMarker, PinnedLine;
    var j := LineIndex(s, ls, p, v);
    assert Texts(s, ls)[j] == v;
    assert OnlyThere(x, Texts(s, ls)[j], k, e, j) && !Lookalike(x, v);
    StartsBefore(s, ls, k + 3, j);
    StartsBefore(s, ls, j, e);
    FitsFromIndex(x, ls, k, e, j, v);
  }

  lemma FitsFromIndex(x: Delimiters, ls: seq<Line>, k: nat, e: nat, j: nat, v: string)
    requires k + 4 < e < |ls| && j < |ls| && OnlyThere(x, v, k, e, j) && !Lookalike(x, v)
    requires (ls[k + 3].start < ls[j].start <==> k + 3 < j) && (ls[j].start < ls[e].start <==> j < e)
    ensures LineFits(
              x, Places(ls[k].start, ls[k + 1].start, ls[k + 3].start, ls[k + 4].start, ls[e - 1].start, ls[e].start),
              ls[j].start, v)
  {
  }

  /** Whatever the parser accepts is a document of the grammar. */
  lemma AcceptedIsDoc(x: Delimiters, s: string, ls: seq<Line>, k: nat, e: nat, m: Marker)
    requires IsLines(s, ls, |s|) && Frame(x, Texts(s, ls), k, e, m)
    requires NoneSplit(s, ls) && Unique(x, Texts(s, ls), k, e) && NoLookalikes(x, Texts(s, ls), |ls|)
    ensures var (a, b, c, d) := Pieces(ls, k, e);
      a <= b <= c <= d <= |s| && Doc(x, s, s[..a], m, s[b..c], s[d..])
  {
    PieceEdges(s, ls, k, e);
    FrameText(x, s, ls, k, e, m);
    var (a, b, c, d) := Pieces(ls, k, e);
    var at := PlacesOf(x, s[..a], m, s[b..c]);
    forall p: nat, v: string {:trigger LineAt(s, p, v)} | LineAt(s, p, v)
      ensures LineFits(x, at, p, v)
    {
      FrameSole(x, s, ls, k, e, m, p, v);
    }
    assert SoleBlock(x, s, at);
  }

  // ---- documents of the grammar are accepted ---------------------------------------------------

  /** Delimiters that are themselves lines, and marker lines that are. */
  ghost predicate WellFormed(x: Delimiters) {
    && NL !in x.start && NL !in x.end && NL !in x.prefix && NL !in x.suffix && NL !in x.open && NL !in x.close
    && x.start != [] && x.end != [] && x.open != [] && x.close != []
    && x.start != x.end && x.start != x.open && x.end != x.open
    && x.start[0] as int < 0x80 && x.close[0] as int < 0x80
  }

  lemma CermetIsWellFormed()
    ensures WellFormed(CERMET)
  {
    hide CERMET;
    CermetOuter();
    CermetPinned();
    CermetFences();
  }

  lemma CermetOuter()
    ensures NL !in CERMET.start && NL !in CERMET.end && CERMET.start != CERMET.end
    ensures CERMET.start != [] && CERMET.start[0] == '<' && CERMET.end != [] && CERMET.end[0] == '<'
  {
    CermetStart();
    CermetEnd();
  }

  lemma CermetStart()
    ensures NL !in CERMET.start && |CERMET.start| == 28 && CERMET.start[0] == '<'
  {
  }

  lemma CermetEnd()
    ensures NL !in CERMET.end && |CERMET.end| == 29 && CERMET.end[0] == '<'
  {
  }

  lemma CermetPinned()
    ensures NL !in CERMET.prefix && NL !in CERMET.suffix
  {
    hide CERMET;
    CermetPrefix();
    CermetSuffix();
  }

  lemma CermetPrefix()
    ensures NL !in CERMET.prefix
  {
  }

  lemma CermetSuffix()
    ensures NL !in CERMET.suffix
  {
  }

  lemma CermetFences()
    ensures NL !in CERMET.open && NL !in CERMET.close
    ensures CERMET.open != [] && CERMET.open[0] == '`' && CERMET.close != [] && CERMET.close[0] == '`'
  {
  }

  lemma LineIn(s: string, u: string, v: string, w: string)
    requires s == u + v + w && EndsLine(u) && NL !in v && StartsLine(w) && v + w != []
    ensures LineAt(s, |u|, v)
  {
    assert s[|u|..|u| + |v|] == v;
    forall i | |u| <= i < |u| + |v| ensures s[i] != NL {
      assert s[i] == v[i - |u|];
    }
  }

  lemma LineThen(s: string, u: string, v: string, w: string)
    requires s == u + Ln(v, w) && EndsLine(u) && NL !in v
    ensures LineAt(s, |u|, v)
    ensures s == (u + v + [NL]) + w && EndsLine(u + v + [NL])
  {
    assert s == u + v + ([NL] + w);
    LineIn(s, u, v, [NL] + w);
  }

  lemma PinnedIsLine(x: Delimiters, m: Marker)
    requires WellFormed(x) && IsMarker(m)
    ensures NL !in PinnedLine(x, m)
  {
    MarkerTextIsOneLine(m);
  }

  lemma LnAppend(v: string, r: string, post: string)
    ensures Ln(v, r) + post == Ln(v, r + post)
  {
  }

  /** The block's own lines are lines of the document, each at its place. */
  ghost predicate OwnLines(x: Delimiters, s: string, at: Places, m: Marker) {
    && LineAt(s, at.start, x.start) && LineAt(s, at.pinned, PinnedLine(x, m))
    && at.open > 0 && LineAt(s, at.open - 1, []) && LineAt(s, at.open, x.open)
    && LineAt(s, at.close, x.close) && LineAt(s, at.end, x.end)
  }

  ghost predicate Shape(x: Delimiters, s: string, pre: string, m: Marker, body: string, post: string) {
    s == pre + Block(x, m, body) + post && EndsLine(pre) && EndsLine(body) && StartsLine(post) && IsMarker(m)
  }

  lemma BlockText(x: Delimiters, pre: string, m: Marker, body: string, post: string)
    ensures pre + Block(x, m, body) + post
      == pre + Ln(x.start, Ln(PinnedLine(x, m), Ln("", Ln(x.open, FenceOnward(x, body) + post))))
  {
    hide Ln, PinnedLine, FenceOnward;
    var r4 := FenceOnward(x, body);
    LnAppend(x.open, r4, post);
    LnAppend("", Ln(x.open, r4), post);
    LnAppend(PinnedLine(x, m), Ln("", Ln(x.open, r4)), post);
    LnAppend(x.start, Ln(PinnedLine(x, m), Ln("", Ln(x.open, r4))), post);
    assert pre + Block(x, m, body) + post == pre + (Block(x, m, body) + post);
  }

  lemma TwoLines(s: string, u: string, v: string, w: string, rest: string) returns (head: string)
    requires s == u + Ln(v, Ln(w, rest)) && EndsLine(u) && NL !in v && NL !in w
    ensures LineAt(s, |u|, v) && LineAt(s, |u| + |v| + 1, w)
    ensures |head| == |u| + |v| + |w| + 2 && EndsLine(head) && s == head + rest
  {
    hide Ln, LineAt, EndsLine;
    LineThen(s, u, v, Ln(w, rest));
    LineThen(s, u + v + [NL], w, rest);
    head := u + v + [NL] + w + [NL];
  }

  lemma HeadLines(x: Delimiters, s: string, pre: string, m: Marker, body: string, post: string) returns (head: string)
    requires WellFormed(x) && Shape(x, s, pre, m, body, post)
    ensures var at := PlacesOf(x, pre, m, body);
      && LineAt(s, at.start, x.start) && LineAt(s, at.pinned, PinnedLine(x, m))
      && at.open > 0 && LineAt(s, at.open - 1, []) && LineAt(s, at.open, x.open)
      && |head| == at.body && EndsLine(head) && s == head + (FenceOnward(x, body) + post)
  {
    hide Ln, LineAt, EndsLine, IsMarker, PinnedLine, FenceOnward, Block;
    PinnedIsLine(x, m);
    BlockText(x, pre, m, body, post);
    var rest := FenceOnward(x, body) + post;
    var u := TwoLines(s, pre, x.start, PinnedLine(x, m), Ln("", Ln(x.open, rest)));
    head := TwoLines(s, u, "", x.open, rest);
  }

  lemma TailLines(x: Delimiters, s: string, head: string, body: string, post: string)
    requires WellFormed(x) && EndsLine(head) && EndsLine(body) && StartsLine(post)
    requires s == head + (FenceOnward(x, body) + post)
    ensures LineAt(s, |head| + |body|, x.close) && LineAt(s, |head| + |body| + |x.close| + 1, x.end)
  {
    var u := head + body;
    EndsLines(head, body);
    OnwardLines(x, head, body, post);
    hide Ln, LineAt, EndsLine, FenceOnward, StartsLine;
    LineThen(s, u, x.close, x.end + post);
    var w := u + x.close + [NL];
    assert s == w + x.end + post;
    LineIn(s, w, x.end, post);
  }

  lemma EndsLines(head: string, body: string)
    requires EndsLine(head) && EndsLine(body)
    ensures EndsLine(head + body)
  {
  }

  lemma OnwardLines(x: Delimiters, head: string, body: string, post: string)
    ensures head + (FenceOnward(x, body) + post) == head + body + Ln(x.close, x.end + post)
  {
    LnAppend(x.close, x.end, post);
    hide Ln;
    assert FenceOnward(x, body) + post == body + (Ln(x.close, x.end) + post);
  }

  lemma ShapeLines(x: Delimiters, s: string, pre: string, m: Marker, body: string, post: string)
    requires WellFormed(x) && Shape(x, s, pre, m, body, post)
    ensures OwnLines(x, s, PlacesOf(x, pre, m, body), m)
  {
    hide LineAt, EndsLine, StartsLine, Block, PinnedLine, FenceOnward;
    var head := HeadLines(x, s, pre, m, body, post);
    TailLines(x, s, head, body, post);
  }

  lemma SameLine(s: string, p: nat, v: string, w: string)
    requires LineAt(s, p, v) && LineAt(s, p, w)
    ensures v == w
  {
    assert |v| == |w|;
  }

  lemma PinnedInjective(x: Delimiters, m: Marker, n: Marker)
    requires IsMarker(m) && IsMarker(n) && PinnedLine(x, m) == PinnedLine(x, n)
    ensures m == n
  {
    PinnedLineParses(x, m);
    PinnedLineParses(x, n);
  }

  /** A document reads in one way only: its shape is determined by its text. */
  lemma DocUnique(x: Delimiters, s: string, pre: string, m: Marker, body: string, post: string,
                  pre': string, m': Marker, body': string, post': string)
    requires WellFormed(x) && Doc(x, s, pre, m, body, post)
    requires Shape(x, s, pre', m', body', post')
    ensures pre == pre' && m == m' && body == body' && post == post'
  {
    hide Block, LineAt, EndsLine, StartsLine, IsMarker, Lookalike, WellFormed, PinnedLine;
    var at, at' := PlacesOf(x, pre, m, body), PlacesOf(x, pre', m', body');
    ShapeLines(x, s, pre, m, body, post);
    ShapeLines(x, s, pre', m', body', post');
    PinnedLineParses(x, m');
    assert LineFits(x, at, at'.start, x.start) && LineFits(x, at, at'.pinned, PinnedLine(x, m'));
    assert LineFits(x, at, at'.end, x.end);
    SameLine(s, at.pinned, PinnedLine(x, m), PinnedLine(x, m'));
    PinnedInjective(x, m, m');
    assert at == at';
    ShapeParts(x, s, pre, m, body, post);
    ShapeParts(x, s, pre', m', body', post');
  }

  lemma BlockLength(x: Delimiters, m: Marker, body: string)
    ensures |Block(x, m, body)| == |x.start| + |PinnedLine(x, m)| + |x.open| + |body| + |x.close| + |x.end| + 5
  {
  }

  /** The parts are slices of the text at the block's places. */
  lemma ShapeParts(x: Delimiters, s: string, pre: string, m: Marker, body: string, post: string)
    requires WellFormed(x) && Shape(x, s, pre, m, body, post)
    ensures var at := PlacesOf(x, pre, m, body);
      && at.start <= at.body <= at.close <= at.end + |x.end| <= |s|
      && pre == s[..at.start] && body == s[at.body..at.close] && post == s[at.end + |x.end|..]
  {
    hide Block, PinnedLine, LineAt, EndsLine, StartsLine, Ln, FenceOnward, WellFormed, IsMarker;
    BlockLength(x, m, body);
    var head := HeadLines(x, s, pre, m, body, post);
    OuterParts(s, pre, Block(x, m, body), post);
    BodyPart(s, head, body, FenceOnward(x, body)[|body|..] + post) by {
      FenceBody(x, body, head, post);
    }
  }

  lemma OuterParts(s: string, pre: string, block: string, post: string)
    requires s == pre + block + post
    ensures pre == s[..|pre|] && post == s[|pre| + |block|..]
  {
  }

  lemma FenceBody(x: Delimiters, body: string, head: string, post: string)
    ensures |body| <= |FenceOnward(x, body)|
    ensures head + (FenceOnward(x, body) + post) == head + (body + (FenceOnward(x, body)[|body|..] + post))
  {
  }

  lemma BodyPart(s: string, head: string, body: string, rest: string)
    requires s == head + (body + rest)
    ensures |head| + |body| <= |s| && body == s[|head|..|head| + |body|]
  {
  }
}
