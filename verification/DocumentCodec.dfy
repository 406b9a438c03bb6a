/** The parser and the rewriter of a managed document, and the laws they satisfy together. */
module DocumentCodec {
  import opened Basics
  import opened ManagedBlock
  import opened ManagedDocument

  /** A parsed document: its source, the marker and body of its block, and the block's range. */
  datatype Managed = Managed(source: string, marker: Marker, body: string, start: nat, end: nat)

  // ---- documents of the grammar are accepted ---------------------------------------------------

  /** The line after line `k` is the one that starts just past it. */
  lemma NextLine(s: string, ls: seq<Line>, k: nat, q: nat, v: string)
    requires IsLines(s, ls, |s|) && NoneSplit(s, ls) && k < |ls| && LineAt(s, q, v)
    requires q == ls[k].start + |Text(s, ls[k])| + 1
    ensures k + 1 < |ls| && ls[k + 1].start == q && Text(s, ls[k + 1]) == v
  {
    var j := LineIndex(s, ls, q, v);
    LineEdges(s, ls, |s|, k);
    SameStart(s, ls, k + 1, j);
  }

  /** Where a line starts identifies it. */
  lemma SameStart(s: string, ls: seq<Line>, i: nat, j: nat)
    requires IsLines(s, ls, |s|) && i < |ls| && j < |ls|
    ensures ls[i].start == ls[j].start <==> i == j
  {
    StartsBefore(s, ls, i, j);
    StartsBefore(s, ls, j, i);
  }

  lemma HeadFrame(x: Delimiters, s: string, ls: seq<Line>, at: Places, m: Marker) returns (k: nat)
    requires IsLines(s, ls, |s|) && NoneSplit(s, ls) && OwnLines(x, s, at, m)
    requires at.pinned == at.start + |x.start| + 1 && at.open == at.pinned + |PinnedLine(x, m)| + 2
    ensures k + 3 < |ls|
    ensures Text(s, ls[k]) == x.start && Text(s, ls[k + 1]) == PinnedLine(x, m)
    ensures Text(s, ls[k + 2]) == [] && Text(s, ls[k + 3]) == x.open
    ensures ls[k].start == at.start && ls[k + 1].start == at.pinned && ls[k + 3].start == at.open
  {
    hide PinnedLine, LineAt, NoneSplit, IsLines, Text;
    k := LineIndex(s, ls, at.start, x.start);
    NextLine(s, ls, k, at.pinned, PinnedLine(x, m));
    NextLine(s, ls, k + 1, at.open - 1, []);
    NextLine(s, ls, k + 2, at.open, x.open);
  }

  lemma TextEnd(s: string, ls: seq<Line>, k: nat)
    requires IsLines(s, ls, |s|) && k < |ls|
    ensures ls[k].end == ls[k].start + |Text(s, ls[k])|
    ensures k + 1 < |ls| ==> ls[k + 1].start == ls[k].end + 1
  {
    hide IsLines;
    LineEdges(s, ls, |s|, k);
  }

  lemma TailFrame(x: Delimiters, s: string, ls: seq<Line>, at: Places, m: Marker, k: nat) returns (e: nat)
    requires IsLines(s, ls, |s|) && NoneSplit(s, ls) && OwnLines(x, s, at, m)
    requires k < |ls| && ls[k].start == at.open && Text(s, ls[k]) == x.open
    requires at.open + |x.open| + 1 == at.body <= at.close && at.end == at.close + |x.close| + 1
    ensures k + 1 < e < |ls| && Text(s, ls[e - 1]) == x.close && Text(s, ls[e]) == x.end
    ensures ls[k + 1].start == at.body && ls[e - 1].start == at.close
    ensures ls[e].start == at.end && ls[e].end == at.end + |x.end|
  {
    hide LineAt, NoneSplit, IsLines, PinnedLine, Text;
    var c := LineIndex(s, ls, at.close, x.close);
    StartsBefore(s, ls, k, c);
    TextEnd(s, ls, k);
    NextLine(s, ls, c, at.end, x.end);
    e := c + 1;
    TextEnd(s, ls, e);
  }

  /** The scanned lines of a document of the grammar: the block's own, in their places. */
  lemma DocFrame(x: Delimiters, s: string, ls: seq<Line>, at: Places, m: Marker, body: string) returns (k: nat, e: nat)
    requires IsLines(s, ls, |s|) && NoneSplit(s, ls) && IsMarker(m)
    requires OwnLines(x, s, at, m)
    requires at.pinned == at.start + |x.start| + 1 && at.open == at.pinned + |PinnedLine(x, m)| + 2
    requires at.body == at.open + |x.open| + 1 && at.close == at.body + |body| && at.end == at.close + |x.close| + 1
    ensures Frame(x, Texts(s, ls), k, e, m) && k + 4 < e < |ls|
    ensures ls[k].start == at.start && ls[k + 1].start == at.pinned && ls[k + 3].start == at.open
    ensures ls[k + 4].start == at.body && ls[e - 1].start == at.close
    ensures ls[e].start == at.end && ls[e].end == at.end + |x.end|
  {
    hide PinnedLine, OwnLines, NoneSplit, IsMarker, IsLines, Text;
    k := HeadFrame(x, s, ls, at, m);
    e := TailFrame(x, s, ls, at, m, k + 3);
  }

  lemma IndexFromFits(x: Delimiters, ls: seq<Line>, k: nat, e: nat, j: nat, v: string)
    requires k + 4 < e < |ls| && j < |ls|
    requires LineFits(
               x, Places(ls[k].start, ls[k + 1].start, ls[k + 3].start, ls[k + 4].start, ls[e - 1].start, ls[e].start),
               ls[j].start, v)
    requires (ls[k + 3].start < ls[j].start <==> k + 3 < j) && (ls[j].start < ls[e].start <==> j < e)
    requires forall i: nat {:trigger ls[i].start} :: i < |ls| && ls[i].start == ls[j].start ==> i == j
    ensures OnlyThere(x, v, k, e, j) && !Lookalike(x, v)
  {
    hide Lookalike, ParsePinnedLine;
  }

  lemma DocOnly(x: Delimiters, s: string, ls: seq<Line>, at: Places, k: nat, e: nat, j: nat)
    requires IsLines(s, ls, |s|) && NoneSplit(s, ls) && SoleBlock(x, s, at)
    requires k + 4 < e < |ls| && j < |ls|
    requires at == Places(ls[k].start, ls[k + 1].start, ls[k + 3].start, ls[k + 4].start, ls[e - 1].start, ls[e].start)
    ensures !Lookalike(x, Texts(s, ls)[j]) && OnlyThere(x, Texts(s, ls)[j], k, e, j)
  {
    hide IsLines, NoneSplit, LineAt, LineFits, OnlyThere, Lookalike;
    LineOf(s, ls, j);
    forall i: nat {:trigger ls[i].start} | i < |ls| && ls[i].start == ls[j].start ensures i == j {
      SameStart(s, ls, i, j);
    }
    StartsBefore(s, ls, k + 3, j);
    StartsBefore(s, ls, j, e);
    IndexFromFits(x, ls, k, e, j, Text(s, ls[j]));
  }

  /** Every document of the grammar meets the parser's condition, with its own parts. */
  lemma DocIsAccepted(x: Delimiters, s: string, ls: seq<Line>, pre: string, m: Marker, body: string, post: string)
    returns (k: nat, e: nat)
    requires WellFormed(x) && Doc(x, s, pre, m, body, post)
    requires IsLines(s, ls, |s|) && NoneSplit(s, ls)
    ensures Envelope(x, Texts(s, ls), k, e, m) && NoLookalikes(x, Texts(s, ls), |ls|)
    ensures k + 4 < e < |ls|
    ensures Pieces(ls, k, e) == (|pre|, PlacesOf(x, pre, m, body).body, PlacesOf(x, pre, m, body).close, |s| - |post|)
  {
    hide IsLines, NoneSplit, OwnLines, WellFormed, NoLookalikes, PinnedLine, Block, Unique, Frame, Envelope;
    hide SoleBlock, EndsLine, StartsLine, IsMarker, Texts;
    var at := PlacesOf(x, pre, m, body);
    ShapeLines(x, s, pre, m, body, post);
    BlockEnds(x, s, pre, m, body, post);
    k, e := DocFrame(x, s, ls, at, m, body);
    DocAll(x, s, ls, at, k, e);
    FrameEnvelopes(x, Texts(s, ls), k, e, m);
  }

  lemma BlockEnds(x: Delimiters, s: string, pre: string, m: Marker, body: string, post: string)
    requires s == pre + Block(x, m, body) + post
    ensures PlacesOf(x, pre, m, body).end + |x.end| == |s| - |post|
  {
    BlockLength(x, m, body);
  }

  lemma DocAll(x: Delimiters, s: string, ls: seq<Line>, at: Places, k: nat, e: nat)
    requires IsLines(s, ls, |s|) && NoneSplit(s, ls) && SoleBlock(x, s, at)
    requires k + 4 < e < |ls|
    requires at == Places(ls[k].start, ls[k + 1].start, ls[k + 3].start, ls[k + 4].start, ls[e - 1].start, ls[e].start)
    ensures Unique(x, Texts(s, ls), k, e) && NoLookalikes(x, Texts(s, ls), |ls|)
  {
    hide IsLines, NoneSplit, OnlyThere, Lookalike, SoleBlock, Texts;
    forall j: nat | j < |ls| ensures OnlyThere(x, Texts(s, ls)[j], k, e, j) && !Lookalike(x, Texts(s, ls)[j]) {
      DocOnly(x, s, ls, at, k, e, j);
    }
  }

  // ---- the parser ------------------------------------------------------------------------------

  /** The parts named by `d` are a reading of `s`. */
  ghost predicate ParsesTo(x: Delimiters, s: string, d: Managed) {
    && d.source == s && d.start <= d.end <= |s|
    && Doc(x, s, s[..d.start], d.marker, d.body, s[d.end..])
  }

  /** What parsing means: the one reading of a valid text as prose, block, prose. */
  ghost function Parse(x: Delimiters, s: string): Result<Managed, DocumentError> {
    if Validate(s) != None then Err(Validate(s).value)
    else if exists d :: ParsesTo(x, s, d) then
      var d :| ParsesTo(x, s, d);
      Ok(d)
    else Err(InvalidEnvelope)
  }

  /** Any reading is the one `Parse` gives. */
  lemma ParseIs(x: Delimiters, s: string, d: Managed)
    requires WellFormed(x) && Validate(s) == None && ParsesTo(x, s, d)
    ensures Parse(x, s) == Ok(d)
  {
    hide WellFormed, Validate, SoleBlock, Block, IsMarker, EndsLine, StartsLine;
    var d' := Parse(x, s).value;
    assert ParsesTo(x, s, d');
    DocUnique(x, s, s[..d.start], d.marker, d.body, s[d.end..], s[..d'.start], d'.marker, d'.body, s[d'.end..]);
    assert |s[..d.start]| == |s[..d'.start]| && |s[d.end..]| == |s[d'.end..]|;
  }

  /** Parsing succeeds exactly on the valid texts of the grammar, with their one reading. */
  lemma ParseExactly(x: Delimiters, s: string, d: Managed)
    requires WellFormed(x)
    ensures Parse(x, s) == Ok(d) <==> Validate(s) == None && ParsesTo(x, s, d)
  {
    if Validate(s) == None && ParsesTo(x, s, d) {
      ParseIs(x, s, d);
    }
  }

  /** What the scan over the lines has collected. */
  datatype Found = Found(starts: seq<nat>, ends: seq<nat>, pinned: seq<(nat, Marker)>, fences: seq<nat>)

  ghost predicate PinnedAre(x: Delimiters, vs: seq<string>, pinned: seq<(nat, Marker)>, hits: seq<nat>) {
    && |pinned| == |hits|
    && forall i :: 0 <= i < |hits| ==>
      pinned[i].0 == hits[i] < |vs| && ParsePinnedLine(x, vs[hits[i]]) == Some(pinned[i].1)
  }

  ghost predicate Collected(x: Delimiters, vs: seq<string>, f: Found, upto: nat)
    requires upto <= |vs|
  {
    && f.starts == Hits(Bits(x, vs, KStart)[..upto])
    && f.ends == Hits(Bits(x, vs, KEnd)[..upto])
    && f.fences == Hits(Bits(x, vs, KOpen)[..upto])
    && PinnedAre(x, vs, f.pinned, Hits(Bits(x, vs, KPinned)[..upto]))
  }

  lemma HitsStep(bits: seq<bool>, i: nat)
    requires i < |bits|
    ensures Hits(bits[..i + 1]) == Hits(bits[..i]) + if bits[i] then [i] else []
  {
    assert bits[..i + 1][..i] == bits[..i];
  }

  /** The first half of `ManagedDocument::parse`: collect the delimiters, refuse a look-alike. */
  method Collect(x: Delimiters, vs: seq<string>) returns (r: Option<Found>)
    requires WellFormed(x)
    ensures r.Some? <==> NoLookalikes(x, vs, |vs|)
    ensures r.Some? ==> Collected(x, vs, r.value, |vs|)
  {
    hide ParsePinnedLine, Lookalike, Hits;
    var starts: seq<nat>, ends: seq<nat>, fences: seq<nat> := [], [], [];
    var pinned: seq<(nat, Marker)> := [];
    var i, clean := 0, true;
    HitsNothing(x, vs);
    while clean && i < |vs|
      invariant i <= |vs|
      invariant clean ==> NoLookalikes(x, vs, i) && Collected(x, vs, Found(starts, ends, pinned, fences), i)
      invariant !clean ==> !NoLookalikes(x, vs, |vs|)
      decreases |vs| - i, clean
    {
      var v := vs[i];
      HitsStep(Bits(x, vs, KStart), i);
      HitsStep(Bits(x, vs, KEnd), i);
      HitsStep(Bits(x, vs, KOpen), i);
      HitsStep(Bits(x, vs, KPinned), i);
      if v == x.start {
        starts := starts + [i];
      } else if v == x.end {
        ends := ends + [i];
      } else if v == x.open {
        fences := fences + [i];
      }
      var marker := ParsePinnedLine(x, v);
      if marker.Some? {
        pinned := pinned + [(i, marker.value)];
      }
      if Lookalike(x, v) {
        clean := false;
      } else {
        i := i + 1;
      }
    }
    r := if clean then Some(Found(starts, ends, pinned, fences)) else None;
    assert Bits(x, vs, KStart)[..|vs|] == Bits(x, vs, KStart);
  }

  lemma HitsNothing(x: Delimiters, vs: seq<string>)
    ensures Collected(x, vs, Found([], [], [], []), 0)
  {
  }

  /** The second half: the positions of what was collected. */
  method Locate(x: Delimiters, vs: seq<string>, f: Found) returns (r: Option<(nat, nat, Marker)>)
    requires Collected(x, vs, f, |vs|)
    ensures r.Some? ==> Envelope(x, vs, r.value.0, r.value.1, r.value.2)
    ensures r.None? ==> forall k, e, m :: !Envelope(x, vs, k, e, m)
  {
    hide ParsePinnedLine, Hits;
    forall kind ensures Bits(x, vs, kind)[..|vs|] == Bits(x, vs, kind) {
    }
    r := None;
    if |f.starts| == 1 && |f.ends| == 1 && |f.pinned| == 1 && |f.fences| == 1 {
      var start, end, fence := f.starts[0], f.ends[0], f.fences[0];
      var (pinned, marker) := f.pinned[0];
      HitsExact(Bits(x, vs, KEnd), end);
      HitsExact(Bits(x, vs, KOpen), fence);
      if pinned == start + 1 && fence == pinned + 2 && vs[pinned + 1] == ""
        && end > fence + 1 && vs[end - 1] == x.close
      {
        if |Hits(Bits(x, vs, KClose)[fence + 1..end])| == 1 {
          r := Some((start, end, marker));
        }
      }
    }
  }

  lemma AcceptedParses(x: Delimiters, s: string, ls: seq<Line>, k: nat, e: nat, m: Marker)
    requires WellFormed(x) && Validate(s) == None && IsLines(s, ls, |s|) && NoneSplit(s, ls)
    requires Envelope(x, Texts(s, ls), k, e, m) && NoLookalikes(x, Texts(s, ls), |ls|)
    ensures var (a, b, c, d) := Pieces(ls, k, e);
      a <= b <= c <= d <= |s| && Parse(x, s) == Ok(Managed(s, m, s[b..c], a, d))
  {
    hide Validate, IsLines, NoneSplit, Envelope, Frame, Unique, NoLookalikes, Doc, WellFormed, Parse;
    EnvelopeFrames(x, Texts(s, ls), k, e, m);
    AcceptedIsDoc(x, s, ls, k, e, m);
    var (a, b, c, d) := Pieces(ls, k, e);
    ParseIs(x, s, Managed(s, m, s[b..c], a, d));
  }

  lemma ParsesToIsAccepted(x: Delimiters, s: string, ls: seq<Line>, d: Managed) returns (k: nat, e: nat)
    requires WellFormed(x) && ParsesTo(x, s, d) && IsLines(s, ls, |s|) && NoneSplit(s, ls)
    ensures Envelope(x, Texts(s, ls), k, e, d.marker) && NoLookalikes(x, Texts(s, ls), |ls|)
  {
    hide WellFormed, Doc, IsLines, NoneSplit, Envelope, NoLookalikes;
    k, e := DocIsAccepted(x, s, ls, s[..d.start], d.marker, d.body, s[d.end..]);
  }

  lemma RefusedDoesNotParse(x: Delimiters, s: string, ls: seq<Line>)
    requires WellFormed(x) && Validate(s) == None && IsLines(s, ls, |s|) && NoneSplit(s, ls)
    requires !NoLookalikes(x, Texts(s, ls), |ls|) || forall k, e, m :: !Envelope(x, Texts(s, ls), k, e, m)
    ensures Parse(x, s) == Err(InvalidEnvelope)
  {
    hide WellFormed, Validate, Doc, IsLines, NoneSplit, Envelope, NoLookalikes;
    if d :| ParsesTo(x, s, d) {
      var k, e := ParsesToIsAccepted(x, s, ls, d);
    }
  }

  /** `ManagedDocument::parse`. The slice between the fences is cut at newlines of valid UTF-8, so
      converting it a second time cannot fail (`BodyIsUtf8`). */
  method ParseDocument(x: Delimiters, s: string) returns (r: Result<Managed, DocumentError>)
    requires WellFormed(x)
    ensures r == Parse(x, s)
  {
    hide Validate, WellFormed, Envelope, NoLookalikes, IsLines, NoneSplit, Texts, ParsesTo;
    var invalid := Validate(s);
    if invalid.Some? {
      r := Err(invalid.value);
    } else {
      var ls := Lines(s);
      var vs := Texts(s, ls);
      var found := Collect(x, vs);
      var at: Option<(nat, nat, Marker)> := None;
      if found.Some? {
        at := Locate(x, vs, found.value);
      }
      if at.Some? {
        var (start, end, marker) := at.value;
        EnvelopeOrder(x, s, ls, start, end, marker);
        AcceptedParses(x, s, ls, start, end, marker);
        r := Ok(Managed(s, marker, s[ls[start + 3].next..ls[end - 1].start], ls[start].start, ls[end].end));
      } else {
        RefusedDoesNotParse(x, s, ls);
        r := Err(InvalidEnvelope);
      }
    }
  }

  lemma EnvelopeOrder(x: Delimiters, s: string, ls: seq<Line>, k: nat, e: nat, m: Marker)
    requires IsLines(s, ls, |s|) && Envelope(x, Texts(s, ls), k, e, m)
    ensures k + 4 < e < |ls| && ls[k + 3].next == ls[k + 4].start <= ls[e - 1].start <= |s|
  {
    hide IsLines, Hits, Bits, ParsePinnedLine, Texts;
    LineEdges(s, ls, |s|, k + 3);
    PieceOrder(s, ls, k, e);
  }

  /** The body of a parsed document is valid UTF-8. */
  lemma BodyIsUtf8(x: Delimiters, s: string, d: Managed)
    requires WellFormed(x) && Parse(x, s) == Ok(d)
    ensures Utf8(d.body)
  {
    hide Utf8, HasBom, Disallowed, EndsLine, StartsLine, SoleBlock, Block, IsMarker, LineAt;
    var pre, post := s[..d.start], s[d.end..];
    var head := HeadLines(x, s, pre, d.marker, d.body, post);
    InnerUtf8(head, d.body, FenceOnward(x, d.body)[|d.body|..] + post) by {
      assert EndsLine(head) && head != [];
      FenceBody(x, d.body, head, post);
      CloseStarts(x, d.body, post);
    }
  }

  lemma CloseStarts(x: Delimiters, body: string, post: string)
    requires WellFormed(x)
    ensures |body| <= |FenceOnward(x, body)|
    ensures var rest := FenceOnward(x, body)[|body|..] + post; rest != [] && rest[0] as int < 0x80
  {
    assert FenceOnward(x, body)[|body|] == x.close[0];
  }

  lemma InnerUtf8(head: string, body: string, rest: string)
    requires Utf8(head + (body + rest)) && head != [] && EndsLine(head)
    requires rest != [] && rest[0] as int < 0x80
    ensures Utf8(body)
  {
    hide Utf8;
    var front := head[..|head| - 1];
    assert head + (body + rest) == front + ([NL] + body + rest);
    Utf8Split(front, [NL] + body + rest);
    Utf8Split([NL] + body, rest);
    AfterNewline(body);
  }

  lemma AfterNewline(body: string)
    requires Utf8([NL] + body)
    ensures Utf8(body)
  {
    assert Utf8Length([NL] + body) == 1;
    assert ([NL] + body)[1..] == body;
  }
}
