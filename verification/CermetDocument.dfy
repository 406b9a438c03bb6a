/** The actual delimiters: no marker makes its pinned line a look-alike, and documents of any size up to
    the limit exist that have no marker yet. */
module CermetDocument {
  import opened Basics
  import opened ManagedBlock
  import opened ManagedDocument
  import opened DocumentCodec
  import opened DocumentRewrite
  import opened Pinning

  // ---- look-alikes need characters that are not there ------------------------------------------

  /** A part does not occur where one character differs. */
  lemma DiffersAt(s: string, part: string, k: int, i: nat)
    requires 0 <= k && i < |part| && k + i < |s| && s[k + i] != part[i]
    ensures !OccursAt(s, part, k)
  {
    if 0 <= k <= |s| - |part| {
      assert s[k..k + |part|][i] == s[k + i];
    }
  }

  /** A part with a character the text has nowhere does not occur in it. */
  lemma LacksChar(s: string, part: string, i: nat)
    requires i < |part| && part[i] !in s
    ensures !Contains(s, part)
  {
    forall k | 0 <= k <= |s| ensures !OccursAt(s, part, k) {
      if k + i < |s| {
        assert s[k + i] in s;
        DiffersAt(s, part, k, i);
      }
    }
  }

  lemma LowerChars(s: string, c: char)
    requires forall i :: 0 <= i < |s| ==> LowerChar(s[i]) != c
    ensures c !in Lower(s)
  {
    forall l | l in Lower(s) ensures l != c {
      var k :| 0 <= k < |s| && Lower(s)[k] == l;
    }
  }

  // ---- the fixed lines -------------------------------------------------------------------------

  lemma AuthorityWord()
    ensures CERMET.authorityWord == "cermet:authority" && |CERMET.authorityWord| == 16
    ensures CERMET.authorityWord[0] == 'c' && CERMET.authorityWord[6] == ':' && CERMET.authorityWord[15] == 'y'
  {
  }

  lemma OtherWords()
    ensures CERMET.pinnedWord == "cermet:pinned" && CERMET.pinnedWord[6] == ':' && CERMET.pinnedWord[7] == 'p'
    ensures CERMET.pinnedLead != [] && CERMET.pinnedLead[0] == 'p'
    ensures CERMET.fenceWord == "```cermet" && |CERMET.fenceWord| == 9 && CERMET.fenceWord[3] == 'c'
    ensures CERMET.fenceWord[0] == CERMET.fenceWord[1] == '`'
  {
  }

  lemma StartChars(i: nat)
    requires i < |CERMET.start|
    ensures LowerChar(CERMET.start[i]) != 'p' && LowerChar(CERMET.start[i]) != '`' && Printable(CERMET.start[i])
  {
  }

  lemma EndChars(i: nat)
    requires i < |CERMET.end|
    ensures LowerChar(CERMET.end[i]) != 'p' && LowerChar(CERMET.end[i]) != '`' && Printable(CERMET.end[i])
  {
  }

  lemma OpenChars(i: nat)
    requires i < |CERMET.open|
    ensures LowerChar(CERMET.open[i]) != ':' && LowerChar(CERMET.open[i]) != 'p' && Printable(CERMET.open[i])
  {
  }

  lemma CloseChars(i: nat)
    requires i < |CERMET.close|
    ensures LowerChar(CERMET.close[i]) != ':' && LowerChar(CERMET.close[i]) != 'p' && LowerChar(CERMET.close[i]) != 'c'
    ensures Printable(CERMET.close[i])
  {
  }

  /** A line that begins with another character is no pinned line. */
  lemma NotPinned(v: string)
    requires v == [] || v[0] != 'P'
    ensures ParsePinnedLine(CERMET, v).None?
  {
    assert CERMET.prefix[0] == 'P';
  }

  /** A line without `p` and with no backtick resembles neither a pinned line nor a fence. */
  lemma NoLead(v: string)
    requires 'p' !in Lower(v)
    ensures !Contains(Lower(v), CERMET.pinnedWord) && !(CERMET.pinnedLead <= Lower(v))
  {
    OtherWords();
    LacksChar(Lower(v), CERMET.pinnedWord, 7);
    if v != [] {
      assert Lower(v)[0] in Lower(v);
    }
  }

  lemma StartFits()
    ensures !Lookalike(CERMET, CERMET.start) && ParsePinnedLine(CERMET, CERMET.start).None?
    ensures AllPrintable(CERMET.start)
  {
    hide CERMET;
    forall i | 0 <= i < |CERMET.start|
      ensures LowerChar(CERMET.start[i]) != 'p' && LowerChar(CERMET.start[i]) != '`' && Printable(CERMET.start[i])
    {
      StartChars(i);
    }
    LowerChars(CERMET.start, 'p');
    LowerChars(CERMET.start, '`');
    NoLead(CERMET.start);
    OtherWords();
    LacksChar(Lower(CERMET.start), CERMET.fenceWord, 0);
    CermetStart();
    NotPinned(CERMET.start);
  }

  lemma EndFits()
    ensures !Lookalike(CERMET, CERMET.end) && ParsePinnedLine(CERMET, CERMET.end).None? && AllPrintable(CERMET.end)
  {
    hide CERMET;
    forall i | 0 <= i < |CERMET.end|
      ensures LowerChar(CERMET.end[i]) != 'p' && LowerChar(CERMET.end[i]) != '`' && Printable(CERMET.end[i])
    {
      EndChars(i);
    }
    LowerChars(CERMET.end, 'p');
    LowerChars(CERMET.end, '`');
    NoLead(CERMET.end);
    OtherWords();
    LacksChar(Lower(CERMET.end), CERMET.fenceWord, 0);
    CermetEnd();
    NotPinned(CERMET.end);
  }

  lemma OpenFits()
    ensures !Lookalike(CERMET, CERMET.open) && ParsePinnedLine(CERMET, CERMET.open).None? && AllPrintable(CERMET.open)
  {
    hide CERMET;
    forall i | 0 <= i < |CERMET.open|
      ensures LowerChar(CERMET.open[i]) != ':' && LowerChar(CERMET.open[i]) != 'p' && Printable(CERMET.open[i])
    {
      OpenChars(i);
    }
    LowerChars(CERMET.open, 'p');
    LowerChars(CERMET.open, ':');
    NoLead(CERMET.open);
    AuthorityWord();
    LacksChar(Lower(CERMET.open), CERMET.authorityWord, 6);
    CermetFences();
    NotPinned(CERMET.open);
  }

  lemma CloseFits()
    ensures !Lookalike(CERMET, CERMET.close) && ParsePinnedLine(CERMET, CERMET.close).None?
    ensures AllPrintable(CERMET.close)
  {
    hide CERMET;
    forall i | 0 <= i < |CERMET.close|
      ensures LowerChar(CERMET.close[i]) != ':' && LowerChar(CERMET.close[i]) != 'p'
      ensures LowerChar(CERMET.close[i]) != 'c' && Printable(CERMET.close[i])
    {
      CloseChars(i);
    }
    LowerChars(CERMET.close, 'p');
    LowerChars(CERMET.close, ':');
    LowerChars(CERMET.close, 'c');
    NoLead(CERMET.close);
    AuthorityWord();
    LacksChar(Lower(CERMET.close), CERMET.authorityWord, 6);
    OtherWords();
    LacksChar(Lower(CERMET.close), CERMET.fenceWord, 3);
    CermetFences();
    NotPinned(CERMET.close);
  }

  // ---- the pinned line -------------------------------------------------------------------------

  lemma PrefixChars(i: nat)
    requires i < 19
    ensures |CERMET.prefix| == 19 && CERMET.prefix[0] == 'P'
    ensures Printable(CERMET.prefix[i])
    ensures LowerChar(CERMET.prefix[i]) == '`' ==> i == 18
    ensures LowerChar(CERMET.prefix[i]) == 'y' ==> i == 15
  {
  }

  lemma SuffixChars(i: nat)
    requires i < |CERMET.suffix|
    ensures Printable(CERMET.suffix[i]) && LowerChar(CERMET.suffix[i]) != 'y'
    ensures LowerChar(CERMET.suffix[i]) == '`' ==> i == 0
  {
  }

  lemma MarkerChars(m: Marker, c: char)
    requires IsMarker(m) && c in MarkerText(m)
    ensures Printable(c) && LowerChar(c) != '`' && LowerChar(c) != 'y'
    ensures |MarkerText(m)| >= 4
  {
    if m.Digest? {
      assert m.text == m.text[..7] + m.text[7..];
      assert forall i :: 0 <= i < 7 ==> LowerChar("sha256:"[i]) != 'y' && Printable("sha256:"[i]);
    }
  }

  /** In a pinned line the only `y` is at index 15, and no two neighbours are backticks. */
  lemma PinnedChars(m: Marker, i: nat)
    requires IsMarker(m) && i < |PinnedLine(CERMET, m)|
    ensures var v := PinnedLine(CERMET, m);
      && Printable(v[i]) && |CERMET.prefix| == 19
      && (LowerChar(v[i]) == 'y' ==> i == 15)
      && (LowerChar(v[i]) == '`' ==> i == 18 || i == 19 + |MarkerText(m)|)
  {
    var v, text := PinnedLine(CERMET, m), MarkerText(m);
    PrefixChars(0);
    hide CERMET;
    if i < 19 {
      assert v[i] == CERMET.prefix[i];
      PrefixChars(i);
    } else if i < 19 + |text| {
      assert v[i] == text[i - 19];
      MarkerChars(m, text[i - 19]);
    } else {
      assert v[i] == CERMET.suffix[i - 19 - |text|];
      SuffixChars(i - 19 - |text|);
    }
  }

  lemma NoAuthorityWord(m: Marker)
    requires IsMarker(m)
    ensures !Contains(Lower(PinnedLine(CERMET, m)), CERMET.authorityWord)
  {
    var v := PinnedLine(CERMET, m);
    var lower := Lower(v);
    AuthorityWord();
    PrefixChars(0);
    assert v[0] == 'P' && lower[0] == 'p';
    hide CERMET, PinnedLine;
    forall k | 0 <= k <= |lower| ensures !OccursAt(lower, CERMET.authorityWord, k) {
      if k == 0 {
        DiffersAt(lower, CERMET.authorityWord, 0, 0);
      } else if k + 15 < |lower| {
        PinnedChars(m, k + 15);
        DiffersAt(lower, CERMET.authorityWord, k, 15);
      }
    }
  }

  lemma NoFenceWord(m: Marker)
    requires IsMarker(m)
    ensures !Contains(Lower(PinnedLine(CERMET, m)), CERMET.fenceWord)
  {
    var v := PinnedLine(CERMET, m);
    var lower := Lower(v);
    OtherWords();
    assert MarkerText(m) != [] && MarkerText(m)[0] in MarkerText(m) by {
      assert m.Digest? ==> |m.text| == 71;
    }
    MarkerChars(m, MarkerText(m)[0]);
    hide CERMET, PinnedLine, MarkerText;
    forall k | 0 <= k <= |lower| ensures !OccursAt(lower, CERMET.fenceWord, k) {
      if k + 8 < |lower| {
        PinnedChars(m, k);
        PinnedChars(m, k + 1);
        if lower[k] != '`' {
          DiffersAt(lower, CERMET.fenceWord, k, 0);
        } else {
          DiffersAt(lower, CERMET.fenceWord, k, 1);
        }
      }
    }
  }

  /** The pinned line of any marker is printable, no other delimiter, and no look-alike. */
  lemma CermetPins()
    ensures PinnedFits(CERMET)
  {
    hide CERMET, Lookalike;
    forall m {:trigger PinnedLine(CERMET, m)} | IsMarker(m) ensures FitsAsPinned(CERMET, PinnedLine(CERMET, m)) {
      PinnedFitsCermet(m);
    }
  }

  lemma PinnedFitsCermet(m: Marker)
    requires IsMarker(m)
    ensures FitsAsPinned(CERMET, PinnedLine(CERMET, m))
  {
    var v := PinnedLine(CERMET, m);
    NoAuthorityWord(m);
    NoFenceWord(m);
    PinnedLineParses(CERMET, m);
    PrefixChars(0);
    assert v[0] == 'P';
    CermetOuter();
    CermetFences();
    hide CERMET, PinnedLine, ParsePinnedLine, Contains;
    forall c | c in v ensures Printable(c) {
      var i :| 0 <= i < |v| && v[i] == c;
      PinnedChars(m, i);
    }
  }

  /** So a valid document over its own canonical body takes any marker that fits, and the only failure is
      that it does not. */
  lemma CermetPinsExactly(canon: Canon, d: Managed, m: Marker)
    requires IsMarker(m) && Parse(CERMET, d.source) == Ok(d) && canon(d.body) == Ok(d.body)
    ensures d.start <= d.end <= |d.source|
    ensures Rewritten(CERMET, canon, d, m, d.body).Ok?
      <==> |d.source| - |MarkerText(d.marker)| + |MarkerText(m)| <= MAX_DOCUMENT_BYTES
    ensures Rewritten(CERMET, canon, d, m, d.body).Err? ==> Rewritten(CERMET, canon, d, m, d.body).error == TooLarge
  {
    hide CERMET, PinnedFits, WellFormed, Parse, Rewritten, MarkerText, IsMarker, Block;
    CermetIsWellFormed();
    CermetPins();
    PinsExactly(CERMET, canon, d, m);
  }

  // ---- documents without a marker, of any size -------------------------------------------------

  function Blank(n: nat): string { seq(n, _ => NL) }

  /** Blank lines and a block without authority and without rules. */
  function Minimal(n: nat): string { Blank(n) + Block(CERMET, NoAuthority, []) }

  /** A line of a text of lines is its first, at its place, or comes after it. */
  lemma LineOfLn(s: string, u: string, v: string, w: string, p: nat, y: string)
    requires s == u + Ln(v, w) && EndsLine(u) && NL !in v && LineAt(s, p, y) && |u| <= p
    ensures (p == |u| && y == v) || p >= |u| + |v| + 1
    ensures s == (u + v + [NL]) + w && EndsLine(u + v + [NL])
  {
    if p == |u| {
      assert s == u + v + ([NL] + w);
      LineHere(u, v, [NL] + w, y);
    } else {
      assert forall i :: 0 <= i < |v| ==> s[|u| + i] == v[i] != NL;
    }
  }

  lemma LastLine(s: string, u: string, v: string, p: nat, y: string)
    requires s == u + v && NL !in v && LineAt(s, p, y) && |u| <= p && EndsLine(u)
    ensures p == |u| && y == v
  {
    assert forall i :: 0 <= i < |v| ==> s[|u| + i] == v[i] != NL;
    assert s[|u|..] == v;
    assert p == |u|;
    assert |y| == |v|;
  }

  lemma BlankLine(n: nat, w: string, p: nat, y: string)
    requires LineAt(Blank(n) + w, p, y) && p < n
    ensures y == []
  {
    assert (Blank(n) + w)[p] == NL;
  }

  /** Which lines a minimal document has, and where. */
  predicate MinimalLine(at: Places, p: nat, v: string) {
    || v == []
    || (p == at.start && v == CERMET.start)
    || (p == at.pinned && v == PinnedLine(CERMET, NoAuthority))
    || (p == at.open && v == CERMET.open)
    || (p == at.close && v == CERMET.close)
    || (p == at.end && v == CERMET.end)
  }

  lemma MinimalLines(n: nat, p: nat, y: string)
    requires LineAt(Minimal(n), p, y)
    ensures MinimalLine(PlacesOf(CERMET, Blank(n), NoAuthority, []), p, y)
  {
    var s, pin := Minimal(n), PinnedLine(CERMET, NoAuthority);
    CermetIsWellFormed();
    PinnedIsLine(CERMET, NoAuthority);
    var tail := Ln(CERMET.close, CERMET.end);
    assert FenceOnward(CERMET, []) == tail;
    hide CERMET, PinnedLine, LineAt, Ln, EndsLine;
    if p < n {
      BlankLine(n, Block(CERMET, NoAuthority, []), p, y);
    } else {
      BlankEnds(n);
      var u0 := Blank(n);
      LineOfLn(s, u0, CERMET.start, Ln(pin, Ln("", Ln(CERMET.open, tail))), p, y);
      if p > |u0| {
        var u1 := u0 + CERMET.start + [NL];
        LineOfLn(s, u1, pin, Ln("", Ln(CERMET.open, tail)), p, y);
        if p > |u1| {
          MinimalInner(s, u1 + pin + [NL], tail, p, y);
        }
      }
    }
  }

  lemma MinimalInner(s: string, u: string, tail: string, p: nat, y: string)
    requires tail == Ln(CERMET.close, CERMET.end) && s == u + Ln("", Ln(CERMET.open, tail)) && EndsLine(u)
    requires LineAt(s, p, y) && p >= |u|
    ensures var open := |u| + 1; var close := open + |CERMET.open| + 1;
      || y == []
      || (p == open && y == CERMET.open)
      || (p == close && y == CERMET.close)
      || (p == close + |CERMET.close| + 1 && y == CERMET.end)
  {
    CermetIsWellFormed();
    hide CERMET, LineAt, Ln, EndsLine;
    LineOfLn(s, u, "", Ln(CERMET.open, tail), p, y);
    if p > |u| {
      var u1 := u + "" + [NL];
      LineOfLn(s, u1, CERMET.open, tail, p, y);
      if p > |u1| {
        var u2 := u1 + CERMET.open + [NL];
        LineOfLn(s, u2, CERMET.close, CERMET.end, p, y);
        if p > |u2| {
          LastLine(s, u2 + CERMET.close + [NL], CERMET.end, p, y);
        }
      }
    }
  }

  lemma BlankEnds(n: nat)
    ensures EndsLine(Blank(n)) && |Blank(n)| == n && forall c :: c in Blank(n) ==> c == NL
  {
  }

  lemma EmptyFits()
    ensures !Lookalike(CERMET, []) && ParsePinnedLine(CERMET, []).None?
  {
    AuthorityWord();
    OtherWords();
    LacksChar([], CERMET.authorityWord, 0);
    LacksChar([], CERMET.pinnedWord, 6);
    LacksChar([], CERMET.fenceWord, 0);
    assert Lower([]) == [];
    NotPinned([]);
  }

  /** No two of the fixed lines are the same, and none is empty. */
  lemma LinesDiffer()
    ensures |CERMET.start| == 28 && |CERMET.end| == 29 && |CERMET.open| == 9 && |CERMET.close| == 3
    ensures CERMET.open[0] == '`' && CERMET.start[0] == '<' && CERMET.end[0] == '<' && CERMET.close[0] == '`'
  {
    CermetStart();
    CermetEnd();
    CermetFences();
  }

  lemma MinimalFits(n: nat, p: nat, v: string)
    requires LineAt(Minimal(n), p, v)
    ensures LineFits(CERMET, PlacesOf(CERMET, Blank(n), NoAuthority, []), p, v)
  {
    MinimalLines(n, p, v);
    StartFits();
    EndFits();
    OpenFits();
    CloseFits();
    EmptyFits();
    PinnedFitsCermet(NoAuthority);
    LinesDiffer();
    hide CERMET, Lookalike, ParsePinnedLine, PinnedLine, LineAt, Minimal;
  }

  lemma MinimalBytes(n: nat)
    requires |Minimal(n)| <= MAX_DOCUMENT_BYTES
    ensures Validate(Minimal(n)) == None
  {
    forall c | c in Minimal(n) ensures c == NL || Printable(c) {
      MinimalChar(n, c);
    }
    LinesAreUtf8(Minimal(n));
    hide Utf8, Minimal;
    NoBom(Minimal(n));
    hide HasBom;
  }

  lemma NoBom(s: string)
    requires forall c :: c in s ==> c == NL || Printable(c)
    ensures !HasBom(s)
  {
    forall k | 0 <= k <= |s| - 3 ensures s[k] as int != 0xEF {
      assert s[k] in s;
    }
  }

  lemma {:induction false} LinesAreUtf8(s: string)
    requires forall c :: c in s ==> c == NL || Printable(c)
    ensures Utf8(s)
  {
    if s != [] {
      assert s[0] in s;
      assert Utf8Length(s) == 1;
      LinesAreUtf8(s[1..]);
    }
  }

  lemma MinimalChar(n: nat, c: char)
    requires c in Minimal(n)
    ensures c == NL || Printable(c)
  {
    StartFits();
    EndFits();
    OpenFits();
    CloseFits();
    PinnedFitsCermet(NoAuthority);
    BlankEnds(n);
    hide CERMET, Lookalike, ParsePinnedLine, PinnedLine;
    var pin := PinnedLine(CERMET, NoAuthority);
    assert c in Blank(n) || c == NL || c in CERMET.start || c in pin || c in CERMET.open || c in CERMET.close
      || c in CERMET.end;
  }

  /** A minimal document that fits is a valid document without a marker. */
  lemma MinimalParses(n: nat) returns (d: Managed)
    requires |Minimal(n)| <= MAX_DOCUMENT_BYTES
    ensures d == Managed(Minimal(n), NoAuthority, [], n, |Minimal(n)|) && Parse(CERMET, Minimal(n)) == Ok(d)
  {
    var s := Minimal(n);
    d := Managed(s, NoAuthority, [], n, |s|);
    CermetIsWellFormed();
    MinimalBytes(n);
    BlankEnds(n);
    var at := PlacesOf(CERMET, Blank(n), NoAuthority, []);
    hide CERMET, WellFormed, Validate, LineFits, LineAt, Block;
    forall p: nat, v: string {:trigger LineAt(s, p, v)} | LineAt(s, p, v) ensures LineFits(CERMET, at, p, v) {
      MinimalFits(n, p, v);
    }
    assert SoleBlock(CERMET, s, at);
    assert s[..n] == Blank(n) && s[|s|..] == [];
    assert s == Blank(n) + Block(CERMET, NoAuthority, []) + [];
    ParseIs(CERMET, s, d);
  }

  /** For every size in the last 67 bytes below the limit there is a valid document of that size, without a
      marker and with a canonical body, that no digest can be given to. */
  lemma UnpinnableDocument(canon: Canon, m: Marker, size: nat) returns (d: Managed)
    requires canon([]) == Ok([]) && m.Digest? && IsMarker(m)
    requires MAX_DOCUMENT_BYTES - 67 < size <= MAX_DOCUMENT_BYTES
    ensures Parse(CERMET, d.source) == Ok(d) && d.marker == NoAuthority && |d.source| == size
    ensures d.start <= d.end <= |d.source| && Rewritten(CERMET, canon, d, m, d.body) == Err(TooLarge)
  {
    var n := size - |Block(CERMET, NoAuthority, [])|;
    BlockIsShort();
    BlankEnds(n);
    d := MinimalParses(n);
    CermetPinsExactly(canon, d, m);
    MarkerSizes(m);
  }

  lemma MarkerSizes(m: Marker)
    requires m.Digest? && IsMarker(m)
    ensures |MarkerText(m)| == |MarkerText(NoAuthority)| + 67
  {
  }

  lemma BlockIsShort()
    ensures |Block(CERMET, NoAuthority, [])| < 1000
  {
    LinesDiffer();
    PrefixChars(0);
    BlockLength(CERMET, NoAuthority, []);
  }
}
