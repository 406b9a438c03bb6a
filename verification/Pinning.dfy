/** When a document can take a marker: changing the pinned line of a valid document keeps it a valid
    document, whatever the marker, as long as it fits. */
module Pinning {
  import opened Basics
  import opened ManagedBlock
  import opened ManagedDocument
  import opened DocumentCodec
  import opened DocumentRewrite

  // ---- bytes -----------------------------------------------------------------------------------

  predicate Printable(c: char) { 0x20 <= c as int < 0x7F }

  predicate AllPrintable(s: string) { forall c :: c in s ==> Printable(c) }

  lemma Utf8LengthExtends(a: string, b: string)
    requires Utf8Length(a) > 0
    ensures Utf8Length(a + b) == Utf8Length(a)
  {
    var s, n := a + b, Utf8Length(a);
    assert s[0] == a[0];
    assert 1 < n ==> s[1] == a[1];
    assert 2 < n ==> s[2] == a[2];
    assert 3 < n ==> s[3] == a[3];
  }

  lemma {:induction false} Utf8Concat(a: string, b: string)
    requires Utf8(a) && Utf8(b)
    ensures Utf8(a + b)
    decreases |a|
  {
    if a == [] {
      assert a + b == b;
    } else {
      var n := Utf8Length(a);
      Utf8LengthExtends(a, b);
      assert (a + b)[n..] == a[n..] + b;
      Utf8Concat(a[n..], b);
    }
  }

  lemma {:induction false} PrintableIsUtf8(s: string)
    requires AllPrintable(s)
    ensures Utf8(s)
  {
    if s != [] {
      assert s[0] in s;
      assert Utf8Length(s) == 1;
      PrintableIsUtf8(s[1..]);
    }
  }

  /** The outer parts of an encoded text around printable ones. */
  lemma OuterUtf8(a: string, p: string, b: string)
    requires Utf8(a + p + b) && AllPrintable(p) && b != [] && b[0] == NL
    ensures Utf8(a) && Utf8(b)
  {
    assert a + p + b == a + (p + b);
    assert p != [] ==> p[0] in p;
    hide Utf8;
    Utf8Split(a, p + b);
    Utf8Split(p, b);
  }

  lemma SwapUtf8(a: string, p: string, q: string, b: string)
    requires Utf8(a + p + b) && AllPrintable(p) && AllPrintable(q) && b != [] && b[0] == NL
    ensures Utf8(a + q + b)
  {
    hide Utf8, AllPrintable;
    OuterUtf8(a, p, b);
    PrintableIsUtf8(q);
    Utf8Concat(a, q);
    Utf8Concat(a + q, b);
  }

  lemma SwapBom(a: string, p: string, q: string, b: string)
    requires HasBom(a + q + b) && AllPrintable(q) && EndsLine(a) && b != [] && b[0] == NL
    ensures HasBom(a + p + b)
  {
    var s, t := a + p + b, a + q + b;
    var k :| 0 <= k <= |t| - 3 && t[k] as int == 0xEF && t[k + 1] as int == 0xBB && t[k + 2] as int == 0xBF;
    if k < |a| {
      assert a[|a| - 1] == NL && k + 2 < |a| by {
        assert t[|a| - 1] == NL;
      }
      assert s[k] == t[k] && s[k + 1] == t[k + 1] && s[k + 2] == t[k + 2];
    } else {
      assert forall i :: 0 <= i < |q| ==> t[|a| + i] == q[i] && q[i] in q;
      var j := k - |q| + |p|;
      assert s[j] == t[k] && s[j + 1] == t[k + 1] && s[j + 2] == t[k + 2];
    }
  }

  /** Swapping one printable text in a line for another leaves the bytes valid, as long as they fit. */
  lemma SwapValid(a: string, p: string, q: string, b: string)
    requires Validate(a + p + b) == None && AllPrintable(p) && AllPrintable(q)
    requires EndsLine(a) && b != [] && b[0] == NL
    ensures Validate(a + q + b) == if |a + q + b| > MAX_DOCUMENT_BYTES then Some(TooLarge) else None
  {
    hide Utf8, HasBom;
    SwapUtf8(a, p, q, b);
    if HasBom(a + q + b) {
      SwapBom(a, p, q, b);
    }
    SwapControls(a, p, q, b);
  }

  lemma SwapControls(a: string, p: string, q: string, b: string)
    requires AllPrintable(q) && forall c :: c in a + p + b ==> !Disallowed(c)
    ensures forall c :: c in a + q + b ==> !Disallowed(c)
  {
    forall c | c in a + q + b ensures !Disallowed(c) {
      assert c in a || c in q || c in b;
      assert c in a || c in b ==> c in a + p + b;
    }
  }

  // ---- lines -----------------------------------------------------------------------------------

  /** The text of a document around its pinned line. */
  function Above(x: Delimiters, pre: string): string { pre + x.start + [NL] }

  function Below(x: Delimiters, body: string, post: string): string {
    [NL] + Ln("", Ln(x.open, FenceOnward(x, body) + post))
  }

  lemma PinSplit(x: Delimiters, pre: string, m: Marker, body: string, post: string)
    ensures pre + Block(x, m, body) + post == Above(x, pre) + PinnedLine(x, m) + Below(x, body, post)
    ensures EndsLine(Above(x, pre)) && Above(x, pre) != [] && |Above(x, pre)| == PlacesOf(x, pre, m, body).pinned
    ensures Below(x, body, post) != [] && Below(x, body, post)[0] == NL
  {
    BlockText(x, pre, m, body, post);
    hide PinnedLine, FenceOnward, Block;
  }

  /** The lines of a text after one of its lines was swapped: above it the same, then the new line, and
      below it the same, moved. */
  lemma LinesShift(a: string, p: string, q: string, b: string, pos: nat, v: string)
    requires EndsLine(a) && a != [] && b != [] && b[0] == NL && NL !in p && NL !in q
    requires LineAt(a + q + b, pos, v)
    ensures pos < |a| ==> LineAt(a + p + b, pos, v)
    ensures pos == |a| ==> v == q
    ensures pos > |a| ==> pos > |a| + |q| && LineAt(a + p + b, pos - |q| + |p|, v)
  {
    if pos < |a| {
      LineAbove(a, p, q, b, pos, v);
    } else if pos == |a| {
      LineHere(a, q, b, v);
    } else {
      LineBelow(a, p, q, b, pos, v);
    }
  }

  lemma LineAbove(a: string, p: string, q: string, b: string, pos: nat, v: string)
    requires EndsLine(a) && pos < |a| && LineAt(a + q + b, pos, v)
    ensures LineAt(a + p + b, pos, v)
  {
    var s, t := a + p + b, a + q + b;
    assert t[|a| - 1] == NL;
    assert pos + |v| <= |a| - 1;
    assert s[pos..pos + |v|] == a[pos..pos + |v|] == t[pos..pos + |v|];
    forall i | pos <= i < pos + |v| ensures s[i] != NL {
      assert s[i] == a[i] == t[i];
    }
    assert s[pos + |v|] == a[pos + |v|] == t[pos + |v|];
    assert pos > 0 ==> s[pos - 1] == a[pos - 1] == t[pos - 1];
  }

  lemma LineHere(a: string, q: string, b: string, v: string)
    requires b != [] && b[0] == NL && NL !in q && LineAt(a + q + b, |a|, v)
    ensures v == q
  {
    var t := a + q + b;
    assert t[|a| + |q|] == NL;
    assert forall i :: 0 <= i < |q| ==> t[|a| + i] == q[i] != NL;
    assert |v| == |q|;
    assert t[|a|..|a| + |q|] == q;
  }

  lemma LineBelow(a: string, p: string, q: string, b: string, pos: nat, v: string)
    requires b != [] && b[0] == NL && NL !in q && pos > |a| && LineAt(a + q + b, pos, v)
    ensures pos > |a| + |q| && LineAt(a + p + b, pos - |q| + |p|, v)
  {
    var s, t := a + p + b, a + q + b;
    assert forall i :: 0 <= i < |q| ==> t[|a| + i] == q[i] != NL;
    assert pos > |a| + |q|;
    var j, k := pos - |q| + |p|, pos - |a| - |q|;
    assert t[pos..pos + |v|] == b[k..k + |v|] == s[j..j + |v|];
    forall i | j <= i < j + |v| ensures s[i] != NL {
      assert s[i] == b[i - |a| - |p|] == t[i - |p| + |q|];
    }
    assert s[j - 1] == b[k - 1] == t[pos - 1];
    assert j + |v| < |s| ==> s[j + |v|] == b[k + |v|] == t[pos + |v|];
  }

  /** What the pinned line of any marker must be like: printable, like no other delimiter, no look-alike. */
  ghost predicate PinnedFits(x: Delimiters) {
    forall m {:trigger PinnedLine(x, m)} :: IsMarker(m) ==> FitsAsPinned(x, PinnedLine(x, m))
  }

  predicate FitsAsPinned(x: Delimiters, v: string) {
    !Lookalike(x, v) && v != x.start && v != x.open && v != x.end && AllPrintable(v)
  }

  lemma FitsMoved(x: Delimiters, pre: string, n: Marker, m: Marker, body: string, pos: nat, to': nat, v: string)
    requires LineFits(x, PlacesOf(x, pre, n, body), pos, v)
    requires var pinned := PlacesOf(x, pre, n, body).pinned;
      || (pos < pinned && to' == pos)
      || (pos > pinned + |PinnedLine(x, n)| && to' == pos - |PinnedLine(x, n)| + |PinnedLine(x, m)|)
    ensures LineFits(x, PlacesOf(x, pre, m, body), to', v)
  {
    hide Lookalike, ParsePinnedLine, PinnedLine;
  }

  /** A document of the grammar is one with any other marker in its place. */
  lemma RepinnedDoc(x: Delimiters, s: string, pre: string, n: Marker, m: Marker, body: string, post: string)
    requires WellFormed(x) && PinnedFits(x) && IsMarker(m) && Doc(x, s, pre, n, body, post)
    ensures Doc(x, pre + Block(x, m, body) + post, pre, m, body, post)
  {
    var t := pre + Block(x, m, body) + post;
    var at := PlacesOf(x, pre, m, body);
    hide Block, Lookalike, EndsLine, StartsLine, IsMarker, WellFormed, FitsAsPinned;
    forall p: nat, v: string {:trigger LineAt(t, p, v)} | LineAt(t, p, v) ensures LineFits(x, at, p, v) {
      RepinnedLine(x, s, pre, n, m, body, post, p, v);
    }
    assert SoleBlock(x, t, at);
  }

  lemma RepinnedLine(
    x: Delimiters, s: string, pre: string, n: Marker, m: Marker, body: string, post: string, p: nat, v: string)
    requires WellFormed(x) && PinnedFits(x) && IsMarker(m) && Doc(x, s, pre, n, body, post)
    requires LineAt(pre + Block(x, m, body) + post, p, v)
    ensures LineFits(x, PlacesOf(x, pre, m, body), p, v)
  {
    hide Block, Lookalike, EndsLine, StartsLine, WellFormed, LineAt, LineFits, PinnedLine, IsMarker;
    PinSplit(x, pre, n, body, post);
    PinSplit(x, pre, m, body, post);
    PinnedIsLine(x, n);
    PinnedIsLine(x, m);
    var a, b := Above(x, pre), Below(x, body, post);
    LinesShift(a, PinnedLine(x, n), PinnedLine(x, m), b, p, v);
    if p == |a| {
      PinnedFitsHere(x, pre, m, body);
    } else {
      var from := if p < |a| then p else p - |PinnedLine(x, m)| + |PinnedLine(x, n)|;
      assert LineFits(x, PlacesOf(x, pre, n, body), from, v);
      FitsMoved(x, pre, n, m, body, from, p, v);
    }
  }

  lemma PinnedFitsHere(x: Delimiters, pre: string, m: Marker, body: string)
    requires PinnedFits(x) && IsMarker(m)
    ensures LineFits(x, PlacesOf(x, pre, m, body), PlacesOf(x, pre, m, body).pinned, PinnedLine(x, m))
  {
    assert FitsAsPinned(x, PinnedLine(x, m));
  }

  // ---- when a rewrite of the marker succeeds ---------------------------------------------------

  lemma SplicedSize(x: Delimiters, d: Managed, m: Marker)
    requires d.start <= d.end <= |d.source|
    requires d.source == d.source[..d.start] + Block(x, d.marker, d.body) + d.source[d.end..]
    ensures |Spliced(d, Block(x, m, d.body))| == |d.source| - |MarkerText(d.marker)| + |MarkerText(m)|
  {
    BlockLength(x, m, d.body);
    BlockLength(x, d.marker, d.body);
    hide Block;
    assert |PinnedLine(x, m)| - |MarkerText(m)| == |PinnedLine(x, d.marker)| - |MarkerText(d.marker)|;
  }

  /** The block with another marker is valid when it fits. */
  lemma RepinnedBlock(x: Delimiters, d: Managed, m: Marker)
    requires WellFormed(x) && PinnedFits(x) && IsMarker(m) && Parse(x, d.source) == Ok(d)
    ensures Validate(Block(x, m, d.body)) ==
      if |Block(x, m, d.body)| > MAX_DOCUMENT_BYTES then Some(TooLarge) else None
  {
    hide WellFormed, Validate, Utf8, EndsLine, Parse, Doc, IsMarker, Block, PinnedLine, Above, Below;
    OwnBlockIsValid(x, d);
    MarkerOfParsed(x, d);
    BlockSplit(x, d.marker, d.body);
    BlockSplit(x, m, d.body);
    assert FitsAsPinned(x, PinnedLine(x, m)) && FitsAsPinned(x, PinnedLine(x, d.marker));
    SwapValid(Above(x, []), PinnedLine(x, d.marker), PinnedLine(x, m), Below(x, d.body, []));
  }

  lemma BlockSplit(x: Delimiters, m: Marker, body: string)
    ensures Block(x, m, body) == Above(x, []) + PinnedLine(x, m) + Below(x, body, [])
    ensures EndsLine(Above(x, [])) && Above(x, []) != [] && Below(x, body, []) != [] && Below(x, body, [])[0] == NL
  {
    hide Block, PinnedLine, Above, Below, EndsLine;
    PinSplit(x, [], m, body, []);
    assert [] + Block(x, m, body) + [] == Block(x, m, body);
  }

  lemma MarkerOfParsed(x: Delimiters, d: Managed)
    requires Parse(x, d.source) == Ok(d) && WellFormed(x)
    ensures IsMarker(d.marker) && d.start <= d.end <= |d.source|
    ensures Validate(d.source) == None && Doc(x, d.source, d.source[..d.start], d.marker, d.body, d.source[d.end..])
  {
    hide Validate, SoleBlock, Block, EndsLine, StartsLine;
  }

  /** The document with another marker is valid when it fits, and then it parses. */
  lemma RepinnedParses(x: Delimiters, d: Managed, m: Marker)
    requires WellFormed(x) && PinnedFits(x) && IsMarker(m) && Parse(x, d.source) == Ok(d)
    ensures d.start <= d.end <= |d.source|
    ensures |Spliced(d, Block(x, m, d.body))| <= MAX_DOCUMENT_BYTES ==> Parse(x, Spliced(d, Block(x, m, d.body))).Ok?
  {
    hide WellFormed, Validate, Doc, Utf8, Block, PinnedLine, Above, Below, IsMarker, EndsLine;
    MarkerOfParsed(x, d);
    var pre, post := d.source[..d.start], d.source[d.end..];
    var t := pre + Block(x, m, d.body) + post;
    assert Spliced(d, Block(x, m, d.body)) == t;
    PinSplit(x, pre, d.marker, d.body, post);
    PinSplit(x, pre, m, d.body, post);
    assert FitsAsPinned(x, PinnedLine(x, m)) && FitsAsPinned(x, PinnedLine(x, d.marker));
    DocText(x, d.source, pre, d.marker, d.body, post);
    SwapValid(Above(x, pre), PinnedLine(x, d.marker), PinnedLine(x, m), Below(x, d.body, post));
    RepinnedDoc(x, d.source, pre, d.marker, m, d.body, post);
    if |t| <= MAX_DOCUMENT_BYTES {
      var size := |Block(x, m, d.body)|;
      OuterParts(t, pre, Block(x, m, d.body), post);
      assert ParsesTo(x, t, Managed(t, m, d.body, |pre|, |pre| + size));
    }
  }

  lemma DocText(x: Delimiters, s: string, pre: string, m: Marker, body: string, post: string)
    requires Doc(x, s, pre, m, body, post)
    ensures s == pre + Block(x, m, body) + post
  {
  }

  /** Giving a document another marker over its own canonical body succeeds exactly when the result fits,
      and fails in no other way. */
  lemma PinsExactly(x: Delimiters, canon: Canon, d: Managed, m: Marker)
    requires WellFormed(x) && PinnedFits(x) && IsMarker(m)
    requires Parse(x, d.source) == Ok(d) && canon(d.body) == Ok(d.body)
    ensures d.start <= d.end <= |d.source|
    ensures Rewritten(x, canon, d, m, d.body).Ok?
      <==> |d.source| - |MarkerText(d.marker)| + |MarkerText(m)| <= MAX_DOCUMENT_BYTES
    ensures Rewritten(x, canon, d, m, d.body) in {Ok(Spliced(d, Block(x, m, d.body))), Err(TooLarge)}
  {
    hide WellFormed, Validate, Doc, Utf8, Block, IsMarker, Parse, PinnedFits, MarkerText;
    MarkerOfParsed(x, d);
    BodyIsUtf8(x, d.source, d);
    RepinnedBlock(x, d, m);
    RepinnedParses(x, d, m);
    DocText(x, d.source, d.source[..d.start], d.marker, d.body, d.source[d.end..]);
    SplicedSize(x, d, m);
    assert |Block(x, m, d.body)| <= |Spliced(d, Block(x, m, d.body))|;
  }
}
