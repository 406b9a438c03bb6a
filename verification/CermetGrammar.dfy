/** The documents the parser accepts with the actual delimiters, in terms of their text alone: which lines
    it refuses, and where the block stands. */
module CermetGrammar {
  import opened Basics
  import opened ManagedBlock
  import opened ManagedDocument
  import opened DocumentCodec
  import opened CermetDocument
  import opened Pinning

  const START_LINE := "<!-- cermet:authority:v1 -->"
  const END_LINE := "<!-- /cermet:authority:v1 -->"
  const OPEN_LINE := "```cermet"
  const CLOSE_LINE := "```"

  // ---- words in any case -----------------------------------------------------------------------

  /** `c` is the letter `l`, or its upper-case form. */
  predicate SameLetter(c: char, l: char) { c == l || ('A' <= c <= 'Z' && c as int + 32 == l as int) }

  /** The line has the word, given in lower case, at this position, letter by letter in any case. */
  ghost predicate Spells(v: string, word: string, k: nat) {
    k + |word| <= |v| && forall i :: 0 <= i < |word| ==> SameLetter(v[k + i], word[i])
  }

  ghost predicate Mentions(v: string, word: string) { exists k: nat :: Spells(v, word, k) }

  predicate IsLower(word: string) { forall i :: 0 <= i < |word| ==> !('A' <= word[i] <= 'Z') }

  lemma LowerLetter(c: char, l: char)
    requires !('A' <= l <= 'Z')
    ensures LowerChar(c) == l <==> SameLetter(c, l)
  {
  }

  lemma OccursExactly(v: string, word: string, k: nat)
    requires IsLower(word)
    ensures OccursAt(Lower(v), word, k) <==> Spells(v, word, k)
  {
    if k + |word| <= |v| {
      var part := Lower(v)[k..k + |word|];
      forall i | 0 <= i < |word| ensures part[i] == word[i] <==> SameLetter(v[k + i], word[i]) {
        assert part[i] == LowerChar(v[k + i]);
        LowerLetter(v[k + i], word[i]);
      }
      if Spells(v, word, k) {
        assert part == word;
      }
      if part == word {
        assert forall i :: 0 <= i < |word| ==> part[i] == word[i];
      }
    }
  }

  lemma ContainsExactly(v: string, word: string)
    requires IsLower(word)
    ensures Contains(Lower(v), word) <==> Mentions(v, word)
    ensures word <= Lower(v) <==> Spells(v, word, 0)
  {
    hide Lower;
    forall k: nat ensures OccursAt(Lower(v), word, k) <==> Spells(v, word, k) {
      OccursExactly(v, word, k);
    }
    if k: nat :| Spells(v, word, k) {
      assert OccursAt(Lower(v), word, k);
    }
    assert word <= Lower(v) ==> Lower(v)[0..|word|] == word;
  }

  // ---- lines -----------------------------------------------------------------------------------

  /** The text of a marker: `none`, or a digest of sixty-four lower-case hexadecimal digits. */
  ghost predicate IsMarkerText(text: string) {
    || text == "none"
    || exists hex: string :: text == "sha256:" + hex && |hex| == 64 && forall c :: c in hex ==> c in "0123456789abcdef"
  }

  ghost predicate PinText(v: string, text: string) {
    IsMarkerText(text) && v == "Pinned authority: `" + text + "` <!-- cermet:pinned:v1 -->"
  }

  ghost predicate IsPinLine(v: string) { exists text :: PinText(v, text) }

  lemma MarkerExactly(text: string)
    ensures ParseMarker(text).Some? <==> IsMarkerText(text)
    ensures ParseMarker(text).Some? ==> MarkerText(ParseMarker(text).value) == text
  {
    assert forall c :: IsHex(c) <==> c in "0123456789abcdef";
    if IsDigest(text) {
      var hex := text[7..];
      assert text == "sha256:" + hex;
      assert IsMarkerText(text);
    }
    if hex: string :|
      text == "sha256:" + hex && |hex| == 64 && forall c :: c in hex ==> c in "0123456789abcdef"
    {
      assert text[7..] == hex && text[..7] == "sha256:";
    }
  }

  lemma CermetTexts()
    ensures CERMET.start == START_LINE && CERMET.end == END_LINE
    ensures CERMET.open == OPEN_LINE && CERMET.close == CLOSE_LINE
    ensures CERMET.prefix == "Pinned authority: `" && CERMET.suffix == "` <!-- cermet:pinned:v1 -->"
    ensures CERMET.authorityWord == "cermet:authority" && CERMET.pinnedWord == "cermet:pinned"
    ensures CERMET.pinnedLead == "pinned authority:" && CERMET.fenceWord == "```cermet"
  {
  }

  lemma PinExactly(v: string)
    ensures ParsePinnedLine(CERMET, v).Some? <==> IsPinLine(v)
    ensures ParsePinnedLine(CERMET, v).Some? ==> PinText(v, MarkerText(ParsePinnedLine(CERMET, v).value))
  {
    CermetTexts();
    hide CERMET, IsMarkerText, ParseMarker, IsMarker;
    if ParsePinnedLine(CERMET, v).Some? {
      var m := ParsePinnedLine(CERMET, v).value;
      PinnedLineOnly(CERMET, v, m);
      MarkerTextParses(m);
      MarkerExactly(MarkerText(m));
      assert PinText(v, MarkerText(m));
    }
    if text :| PinText(v, text) {
      MarkerExactly(text);
      var m := ParseMarker(text).value;
      ParsedMarker(text);
      PinnedLineParses(CERMET, m);
    }
  }

  lemma ParsedMarker(text: string)
    requires ParseMarker(text).Some?
    ensures IsMarker(ParseMarker(text).value)
  {
  }

  /** A line that mentions the block without being one of its lines. */
  ghost predicate Resembles(v: string) {
    || (Mentions(v, "cermet:authority") && v != START_LINE && v != END_LINE)
    || ((Mentions(v, "cermet:pinned") || Spells(v, "pinned authority:", 0)) && !IsPinLine(v))
    || (Mentions(v, "```cermet") && v != OPEN_LINE)
  }

  lemma AuthorityExactly(v: string)
    ensures Contains(Lower(v), "cermet:authority") <==> Mentions(v, "cermet:authority")
  {
    ContainsExactly(v, "cermet:authority");
  }

  lemma PinnedWordExactly(v: string)
    ensures Contains(Lower(v), "cermet:pinned") <==> Mentions(v, "cermet:pinned")
  {
    ContainsExactly(v, "cermet:pinned");
  }

  lemma PinnedLeadExactly(v: string)
    ensures "pinned authority:" <= Lower(v) <==> Spells(v, "pinned authority:", 0)
  {
    ContainsExactly(v, "pinned authority:");
  }

  lemma FenceExactly(v: string)
    ensures Contains(Lower(v), "```cermet") <==> Mentions(v, "```cermet")
  {
    ContainsExactly(v, "```cermet");
  }

  lemma LookalikeExactly(v: string)
    ensures Lookalike(CERMET, v) <==> Resembles(v)
  {
    CermetTexts();
    AuthorityExactly(v);
    PinnedWordExactly(v);
    PinnedLeadExactly(v);
    FenceExactly(v);
    PinExactly(v);
    hide CERMET, Contains, Mentions, Spells, Lower, ParsePinnedLine, IsPinLine;
  }

  // ---- documents -------------------------------------------------------------------------------

  /** The block, line by line. */
  function BlockText(text: string, body: string): string {
    START_LINE + "\n" + "Pinned authority: `" + text + "` <!-- cermet:pinned:v1 -->" + "\n" + "\n" + OPEN_LINE + "\n"
    + body + CLOSE_LINE + "\n" + END_LINE
  }

  /** Where the block's lines start, when it starts at `p`. */
  function LineStarts(p: nat, text: string, body: string): Places {
    var open := p + |START_LINE| + 1 + |text| + 46 + 1 + 1;
    var inside := open + |OPEN_LINE| + 1;
    Places(p, p + |START_LINE| + 1, open, inside, inside + |body|, inside + |body| + |CLOSE_LINE| + 1)
  }

  /** A line at this place is no line of the block, except in its own place, and resembles none. */
  ghost predicate InPlace(at: Places, p: nat, v: string) {
    && !Resembles(v)
    && (v == START_LINE ==> p == at.start) && (IsPinLine(v) ==> p == at.pinned)
    && (v == OPEN_LINE ==> p == at.open) && (v == END_LINE ==> p == at.end)
    && (v == CLOSE_LINE && at.open < p < at.end ==> p == at.close)
  }

  ghost predicate OnlyLines(s: string, at: Places) {
    forall p: nat, v: string {:trigger LineAt(s, p, v)} :: LineAt(s, p, v) ==> InPlace(at, p, v)
  }

  /** One block, on lines of its own, and nothing else that is or resembles one of its lines; inside, no
      line closes the fence early. */
  ghost predicate IsDocument(s: string, d: Managed) {
    && d.source == s && d.start <= d.end <= |s|
    && IsMarkerText(MarkerText(d.marker)) && d.marker != Digest("none")
    && s[d.start..d.end] == BlockText(MarkerText(d.marker), d.body)
    && (d.start > 0 ==> s[d.start - 1] == '\n') && (d.end < |s| ==> s[d.end] == '\n')
    && (d.body != [] ==> d.body[|d.body| - 1] == '\n')
    && OnlyLines(s, LineStarts(d.start, MarkerText(d.marker), d.body))
  }

  lemma MarkersExactly(m: Marker)
    ensures IsMarker(m) <==> IsMarkerText(MarkerText(m)) && m != Digest("none")
  {
    MarkerExactly(MarkerText(m));
    if m.Digest? && IsDigest(m.text) {
      assert |m.text| != |"none"|;
    }
  }

  lemma BlockExactly(m: Marker, body: string)
    ensures Block(CERMET, m, body) == BlockText(MarkerText(m), body)
    ensures |PinnedLine(CERMET, m)| == |MarkerText(m)| + 46
  {
    CermetTexts();
    hide CERMET, MarkerText;
  }

  lemma PlacesExactly(pre: string, m: Marker, body: string)
    ensures PlacesOf(CERMET, pre, m, body) == LineStarts(|pre|, MarkerText(m), body)
  {
    BlockExactly(m, body);
    CermetTexts();
    hide CERMET, PinnedLine, Block, BlockText;
  }

  lemma LineExactly(at: Places, p: nat, v: string)
    ensures LineFits(CERMET, at, p, v) <==> InPlace(at, p, v)
  {
    LookalikeExactly(v);
    PinExactly(v);
    CermetTexts();
    hide CERMET, Lookalike, Resembles, ParsePinnedLine, IsPinLine;
  }

  lemma SoleBlockExactly(s: string, at: Places)
    ensures SoleBlock(CERMET, s, at) <==> OnlyLines(s, at)
  {
    hide LineFits, InPlace, LineAt, CERMET;
    forall p: nat, v: string {:trigger LineAt(s, p, v)} | LineAt(s, p, v)
      ensures LineFits(CERMET, at, p, v) <==> InPlace(at, p, v)
    {
      LineExactly(at, p, v);
    }
  }

  lemma PiecesExactly(s: string, start: nat, end: nat, block: string)
    requires start <= end <= |s|
    ensures s == s[..start] + block + s[end..] <==> s[start..end] == block
  {
    assert s == s[..start] + s[start..end] + s[end..];
    if s == s[..start] + block + s[end..] {
      assert |s[..start] + block + s[end..]| == start + |block| + (|s| - end);
      assert s[start..end] == (s[..start] + block + s[end..])[start..end];
      assert (s[..start] + block + s[end..])[start..end] == block;
    }
  }

  lemma DocExactly(s: string, d: Managed)
    ensures ParsesTo(CERMET, s, d) <==> IsDocument(s, d)
  {
    hide CERMET, SoleBlock, OnlyLines, Block, BlockText, LineStarts, PlacesOf, MarkerText, IsMarkerText, IsMarker;
    if d.start <= d.end <= |s| {
      MarkersExactly(d.marker);
      BlockExactly(d.marker, d.body);
      PlacesExactly(s[..d.start], d.marker, d.body);
      SoleBlockExactly(s, LineStarts(d.start, MarkerText(d.marker), d.body));
      PiecesExactly(s, d.start, d.end, Block(CERMET, d.marker, d.body));
    }
  }

  /** The parser accepts exactly the documents, with exactly their parts. */
  lemma AcceptsExactly(s: string, d: Managed)
    ensures Parse(CERMET, s) == Ok(d) <==> Validate(s) == None && IsDocument(s, d)
  {
    hide CERMET, WellFormed, Parse, Validate, ParsesTo, IsDocument;
    CermetIsWellFormed();
    ParseExactly(CERMET, s, d);
    DocExactly(s, d);
  }

  /** So in an accepted document, whoever mentions the block is one of its lines. */
  lemma MentionsAreBlockLines(s: string, d: Managed, p: nat, v: string)
    requires Parse(CERMET, s) == Ok(d) && LineAt(s, p, v)
    ensures Mentions(v, "cermet:authority") ==> v == START_LINE || v == END_LINE
    ensures Mentions(v, "cermet:pinned") || Spells(v, "pinned authority:", 0) ==> IsPinLine(v)
    ensures Mentions(v, "```cermet") ==> v == OPEN_LINE
  {
    AcceptsExactly(s, d);
    hide CERMET, Parse, LineAt, Mentions, Spells, IsPinLine;
    assert InPlace(LineStarts(d.start, MarkerText(d.marker), d.body), p, v);
  }

  // ---- prose that never mentions the block -----------------------------------------------------

  ghost predicate Plain(v: string) {
    && !Mentions(v, "cermet:authority") && !Mentions(v, "cermet:pinned") && !Spells(v, "pinned authority:", 0)
    && !Mentions(v, "```cermet")
  }

  ghost predicate PlainText(t: string) {
    forall p: nat, v: string {:trigger LineAt(t, p, v)} :: LineAt(t, p, v) ==> Plain(v)
  }

  lemma EndsBefore(s: string, p: nat, v: string, k: nat)
    requires LineAt(s, p, v) && p <= k < |s| && s[k] == NL
    ensures p + |v| <= k
  {
  }

  /** A line that lies inside a part is a line of it. */
  lemma LineOfPart(s: string, t: string, off: nat, p: nat, v: string)
    requires off + |t| <= |s| && (forall i :: 0 <= i < |t| ==> t[i] == s[off + i])
    requires LineAt(s, p, v) && off <= p < off + |t| && p + |v| <= off + |t|
    ensures LineAt(t, p - off, v)
  {
    var q := p - off;
    forall i | 0 <= i < |v| ensures t[q + i] == v[i] && v[i] != NL {
      assert s[p..p + |v|][i] == s[p + i] == t[q + i];
    }
    assert t[q..q + |v|] == v;
    OneLinePart(t, q, v);
    if q > 0 {
      assert t[q - 1] == s[off + (q - 1)];
    }
    if q + |v| < |t| {
      assert t[q + |v|] == s[off + (q + |v|)];
    }
  }

  lemma OneLinePart(t: string, q: nat, v: string)
    requires q + |v| <= |t| && t[q..q + |v|] == v && forall i :: 0 <= i < |v| ==> v[i] != NL
    ensures OneLine(t, q, q + |v|)
  {
    forall j | q <= j < q + |v| ensures t[j] != NL {
      assert t[q..q + |v|][j - q] == t[j];
    }
  }

  /** A line that starts inside a part that consists of whole lines is a line of that part. */
  lemma LineInside(s: string, u: string, t: string, w: string, p: nat, v: string)
    requires s == u + t + w && EndsLine(u) && EndsLine(t) && |u| <= p < |u| + |t| && LineAt(s, p, v)
    ensures LineAt(t, p - |u|, v)
  {
    var last := |u| + |t| - 1;
    assert s[last] == t[|t| - 1] == NL && p <= last;
    EndsBefore(s, p, v, last);
    hide LineAt, EndsLine;
    LineOfPart(s, t, |u|, p, v);
  }

  /** After the last line of the block come only lines of the rest. */
  lemma LineAfter(s: string, u: string, v: string, post: string, p: nat, y: string)
    requires s == u + v + post && EndsLine(u) && NL !in v && StartsLine(post) && |u| <= p && LineAt(s, p, y)
    ensures (p == |u| && y == v) || (p > |u| + |v| && LineAt(post, p - |u| - |v|, y))
  {
    if post == [] {
      assert s == u + v;
      LastLine(s, u, v, p, y);
    } else if p == |u| {
      LineHere(u, v, post, y);
    } else {
      NotWithin(s, u, v, post, p, y);
      hide LineAt, EndsLine, StartsLine;
      assert forall i :: 0 <= i < |post| ==> post[i] == s[|u| + |v| + i];
      LineOfPart(s, post, |u| + |v|, p, y);
    }
  }

  lemma NotWithin(s: string, u: string, v: string, post: string, p: nat, y: string)
    requires s == u + v + post && NL !in v && |u| < p && LineAt(s, p, y)
    ensures p > |u| + |v| && p + |y| <= |u| + |v| + |post| && p < |s|
  {
    assert s[p - 1] == NL;
    assert forall i :: 0 <= i < |v| ==> s[|u| + i] == v[i] != NL;
  }

  /** The lines of a document: those of the prose before, the block's own, the body's, those after. */
  ghost predicate LineOfDocument(at: Places, pre: string, pin: string, body: string, post: string, p: nat, v: string) {
    || (p < |pre| && LineAt(pre, p, v))
    || (p == at.start && v == CERMET.start)
    || (p == at.pinned && v == pin)
    || v == []
    || (p == at.open && v == CERMET.open)
    || (at.body <= p < at.close && LineAt(body, p - at.body, v))
    || (p == at.close && v == CERMET.close)
    || (p == at.end && v == CERMET.end)
    || (p > at.end + |CERMET.end| && LineAt(post, p - at.end - |CERMET.end|, v))
  }

  /** The same from the pinned line on, when that starts at `pinned`. */
  ghost predicate LineFromPin(pinned: nat, pin: string, body: string, post: string, p: nat, v: string) {
    var open := pinned + |pin| + 2;
    var inside := open + |CERMET.open| + 1;
    var close := inside + |body|;
    var end := close + |CERMET.close| + 1;
    || (p == pinned && v == pin)
    || v == []
    || (p == open && v == CERMET.open)
    || (inside <= p < close && LineAt(body, p - inside, v))
    || (p == close && v == CERMET.close)
    || (p == end && v == CERMET.end)
    || (p > end + |CERMET.end| && LineAt(post, p - end - |CERMET.end|, v))
  }

  lemma LinesOfDocument(pre: string, m: Marker, body: string, post: string, p: nat, v: string)
    requires EndsLine(pre) && EndsLine(body) && StartsLine(post) && IsMarker(m)
    requires LineAt(pre + Block(CERMET, m, body) + post, p, v)
    ensures LineOfDocument(PlacesOf(CERMET, pre, m, body), pre, PinnedLine(CERMET, m), body, post, p, v)
  {
    var s, block := pre + Block(CERMET, m, body) + post, Block(CERMET, m, body);
    if p < |pre| {
      EmptyEnds();
      hide CERMET, PinnedLine, LineAt, Block, EndsLine, IsMarker, StartsLine;
      assert s == [] + pre + (block + post);
      LineInside(s, [], pre, block + post, p, v);
    } else {
      hide CERMET, PinnedLine, LineAt, Block, EndsLine, IsMarker, StartsLine;
      HeadOfDocument(s, pre, m, body, post, p, v);
    }
  }

  lemma HeadOfDocument(s: string, pre: string, m: Marker, body: string, post: string, p: nat, v: string)
    requires EndsLine(pre) && EndsLine(body) && StartsLine(post) && IsMarker(m)
    requires s == pre + Block(CERMET, m, body) + post && LineAt(s, p, v) && p >= |pre|
    ensures (p == |pre| && v == CERMET.start)
      || LineFromPin(|pre| + |CERMET.start| + 1, PinnedLine(CERMET, m), body, post, p, v)
  {
    var pin := PinnedLine(CERMET, m);
    ManagedDocument.BlockText(CERMET, pre, m, body, post);
    CermetIsWellFormed();
    PinnedIsLine(CERMET, m);
    var tail := FenceOnward(CERMET, body) + post;
    hide CERMET, PinnedLine, LineAt, Ln, EndsLine, Block, FenceOnward, IsMarker, StartsLine, LineFromPin;
    LineOfLn(s, pre, CERMET.start, Ln(pin, Ln("", Ln(CERMET.open, tail))), p, v);
    if p > |pre| {
      MarkerLines(s, pre + CERMET.start + [NL], pin, body, post, p, v);
    }
  }

  lemma MarkerLines(s: string, u: string, pin: string, body: string, post: string, p: nat, v: string)
    requires s == u + Ln(pin, Ln("", Ln(CERMET.open, FenceOnward(CERMET, body) + post))) && EndsLine(u)
    requires NL !in pin && EndsLine(body) && StartsLine(post) && LineAt(s, p, v) && p >= |u|
    ensures LineFromPin(|u|, pin, body, post, p, v)
  {
    hide CERMET, LineAt, Ln, EndsLine, FenceOnward, StartsLine;
    LineOfLn(s, u, pin, Ln("", Ln(CERMET.open, FenceOnward(CERMET, body) + post)), p, v);
    if p > |u| {
      InnerLines(s, u + pin + [NL], body, post, p, v);
    }
  }

  lemma EmptyEnds()
    ensures EndsLine([])
  {
  }

  lemma InnerLines(s: string, u: string, body: string, post: string, p: nat, v: string)
    requires s == u + Ln("", Ln(CERMET.open, FenceOnward(CERMET, body) + post)) && EndsLine(u)
    requires EndsLine(body) && StartsLine(post) && LineAt(s, p, v) && p >= |u|
    ensures var open := |u| + 1; var inside := open + |CERMET.open| + 1; var close := inside + |body|;
      var end := close + |CERMET.close| + 1;
      || v == []
      || (p == open && v == CERMET.open)
      || (inside <= p < close && LineAt(body, p - inside, v))
      || (p == close && v == CERMET.close)
      || (p == end && v == CERMET.end)
      || (p > end + |CERMET.end| && LineAt(post, p - end - |CERMET.end|, v))
  {
    var tail := FenceOnward(CERMET, body) + post;
    LnAppend(CERMET.close, CERMET.end, post);
    var rest := Ln(CERMET.close, CERMET.end + post);
    assert tail == body + rest;
    CermetIsWellFormed();
    hide CERMET, LineAt, Ln, FenceOnward, StartsLine;
    LineOfLn(s, u, "", Ln(CERMET.open, tail), p, v);
    if p > |u| {
      var u1 := u + "" + [NL];
      LineOfLn(s, u1, CERMET.open, tail, p, v);
      if p > |u1| {
        var u2 := u1 + CERMET.open + [NL];
        assert s == u2 + body + rest;
        if p < |u2| + |body| {
          LineInside(s, u2, body, rest, p, v);
        } else {
          OuterLines(s, u2 + body, post, p, v);
        }
      }
    }
  }

  lemma OuterLines(s: string, u: string, post: string, p: nat, v: string)
    requires s == u + Ln(CERMET.close, CERMET.end + post) && EndsLine(u)
    requires StartsLine(post) && LineAt(s, p, v) && p >= |u|
    ensures var end := |u| + |CERMET.close| + 1;
      || (p == |u| && v == CERMET.close)
      || (p == end && v == CERMET.end)
      || (p > end + |CERMET.end| && LineAt(post, p - end - |CERMET.end|, v))
  {
    CermetIsWellFormed();
    hide CERMET, LineAt, Ln, StartsLine;
    LineOfLn(s, u, CERMET.close, CERMET.end + post, p, v);
    if p > |u| {
      var w := u + CERMET.close + [NL];
      assert s == w + CERMET.end + post;
      LineAfter(s, w, CERMET.end, post, p, v);
    }
  }

  /** A plain line is none of the block's, apart from the closing fence. */
  lemma PlainIsNoBlockLine(v: string)
    requires Plain(v)
    ensures !Lookalike(CERMET, v) && ParsePinnedLine(CERMET, v).None?
    ensures v != CERMET.start && v != CERMET.end && v != CERMET.open
  {
    LookalikeExactly(v);
    PinExactly(v);
    CermetTexts();
    BlockWords(v);
    hide CERMET, Lookalike, ParsePinnedLine, Mentions, Spells, IsPinLine;
  }

  /** The block's own lines say what they are. */
  lemma BlockWords(v: string)
    ensures v == START_LINE ==> Mentions(v, "cermet:authority")
    ensures v == END_LINE ==> Mentions(v, "cermet:authority")
    ensures v == OPEN_LINE ==> Mentions(v, "```cermet")
    ensures IsPinLine(v) ==> Spells(v, "pinned authority:", 0)
  {
    StartSpells();
    EndSpells();
    PinSpells(v);
    FenceSpells();
    hide Spells, IsPinLine;
  }

  lemma StartSpells()
    ensures Spells(START_LINE, "cermet:authority", 5)
  {
  }

  lemma EndSpells()
    ensures Spells(END_LINE, "cermet:authority", 6)
  {
  }

  lemma FenceSpells()
    ensures Spells(OPEN_LINE, "```cermet", 0)
  {
  }

  lemma LeadSpells()
    ensures Spells("Pinned authority: `", "pinned authority:", 0)
  {
  }

  lemma SpellsOn(v: string, w: string, word: string, k: nat)
    requires v <= w && Spells(v, word, k)
    ensures Spells(w, word, k)
  {
  }

  lemma PinSpells(v: string)
    ensures IsPinLine(v) ==> Spells(v, "pinned authority:", 0)
  {
    hide Spells;
    LeadSpells();
    if text :| PinText(v, text) {
      SpellsOn("Pinned authority: `", v, "pinned authority:", 0);
    }
  }

  /** The block's own lines, and blank ones, fit in their places. */
  lemma OwnLineFits(at: Places, m: Marker, p: nat, v: string)
    requires IsMarker(m)
    requires || v == [] || (p == at.start && v == CERMET.start) || (p == at.pinned && v == PinnedLine(CERMET, m))
      || (p == at.open && v == CERMET.open) || (p == at.close && v == CERMET.close) || (p == at.end && v == CERMET.end)
    ensures LineFits(CERMET, at, p, v)
  {
    StartFits();
    EndFits();
    OpenFits();
    CloseFits();
    EmptyFits();
    PinnedFitsCermet(m);
    LinesDiffer();
    hide CERMET, Lookalike, ParsePinnedLine, PinnedLine;
  }

  lemma PlainLineFits(at: Places, p: nat, v: string)
    requires Plain(v) && (v == CLOSE_LINE ==> p <= at.open || at.end <= p)
    ensures LineFits(CERMET, at, p, v)
  {
    PlainIsNoBlockLine(v);
    CermetTexts();
    hide CERMET, Lookalike, ParsePinnedLine, Plain;
  }

  lemma PlainFits(pre: string, m: Marker, body: string, post: string, p: nat, v: string)
    requires EndsLine(pre) && EndsLine(body) && StartsLine(post) && IsMarker(m)
    requires PlainText(pre) && PlainText(body) && PlainText(post)
    requires forall q: nat :: !LineAt(body, q, CLOSE_LINE)
    requires LineAt(pre + Block(CERMET, m, body) + post, p, v)
    ensures LineFits(CERMET, PlacesOf(CERMET, pre, m, body), p, v)
  {
    hide CERMET, LineFits, PinnedLine, LineAt, Block, Plain, EndsLine, StartsLine, IsMarker;
    LinesOfDocument(pre, m, body, post, p, v);
    var at := PlacesOf(CERMET, pre, m, body);
    if Plain(v) && (v == CLOSE_LINE ==> p <= at.open || at.end <= p) {
      PlainLineFits(at, p, v);
    } else {
      OwnLineFits(at, m, p, v);
    }
  }

  /** And valid prose and rules that never mention the block are accepted around and inside one, as long
      as no rule is a closing fence. */
  lemma PlainIsAccepted(pre: string, m: Marker, body: string, post: string)
    requires EndsLine(pre) && EndsLine(body) && StartsLine(post) && IsMarker(m)
    requires PlainText(pre) && PlainText(body) && PlainText(post)
    requires forall q: nat :: !LineAt(body, q, CLOSE_LINE)
    ensures var s := pre + BlockText(MarkerText(m), body) + post;
      Validate(s) == None ==>
        Parse(CERMET, s) == Ok(Managed(s, m, body, |pre|, |pre| + |BlockText(MarkerText(m), body)|))
  {
    BlockExactly(m, body);
    var block := Block(CERMET, m, body);
    var s, at := pre + block + post, PlacesOf(CERMET, pre, m, body);
    CermetIsWellFormed();
    hide CERMET, WellFormed, Validate, LineFits, LineAt, Block, BlockText, PlainText, EndsLine, StartsLine, IsMarker;
    hide MarkerText, PlacesOf;
    forall p: nat, v: string {:trigger LineAt(s, p, v)} | LineAt(s, p, v) ensures LineFits(CERMET, at, p, v) {
      PlainFits(pre, m, body, post, p, v);
    }
    assert SoleBlock(CERMET, s, at);
    OuterParts(s, pre, block, post);
    if Validate(s) == None {
      ParseIs(CERMET, s, Managed(s, m, body, |pre|, |pre| + |block|));
    }
  }
}
