/** The printed diff: its text, a reader for that text, and `unified_rule_diff` itself. */
module DiffText {
  import opened Basics
  import opened Subsequence
  import opened RuleDiff
  import opened Hunks
  import opened Patch

  // ---- text and lines --------------------------------------------------------------------------

  const NL := '\n'

  /** Lines of a text, each ended by a newline; a final line may lack its newline, and a carriage
      return directly before a newline belongs to the line ending. */
  function TextLines(text: string): seq<string> {
    if text == [] then []
    else
      var n := LineLength(text);
      if n == |text| then [text]
      else [StripReturn(text[..n])] + TextLines(text[n + 1..])
  }

  function LineLength(text: string): (n: nat)
    ensures n <= |text| && NL !in text[..n] && (n < |text| ==> text[n] == NL)
  {
    if text == [] || text[0] == NL then 0 else 1 + LineLength(text[1..])
  }

  function StripReturn(line: string): string {
    if line != [] && line[|line| - 1] == '\r' then line[..|line| - 1] else line
  }

  /** The lines, each followed by what ended it. */
  function Woven(lines: seq<string>, ends: seq<string>): string
    requires |lines| == |ends|
  {
    if lines == [] then [] else lines[0] + ends[0] + Woven(lines[1..], ends[1..])
  }

  /** A line holds no newline and is ended by one, with the carriage return in front of it if there is
      one; the last may have no ending, unless it is empty. */
  ghost predicate Ending(line: string, end: string, last: bool) {
    && NL !in line
    && (|| end == "\r\n"
        || (end == "\n" && (line == "" || line[|line| - 1] != '\r'))
        || (end == "" && last && line != ""))
  }

  ghost predicate Ended(lines: seq<string>, ends: seq<string>) {
    |lines| == |ends| && forall k :: 0 <= k < |lines| ==> Ending(lines[k], ends[k], k == |lines| - 1)
  }

  lemma EndedTail(lines: seq<string>, ends: seq<string>)
    requires lines != [] && Ended(lines, ends)
    ensures Ending(lines[0], ends[0], |lines| == 1) && Ended(lines[1..], ends[1..])
  {
    hide Ending;
    forall k | 0 <= k < |lines| - 1 ensures Ending(lines[1..][k], ends[1..][k], k == |lines| - 2) {
      assert Ending(lines[k + 1], ends[k + 1], k + 1 == |lines| - 1);
    }
  }

  lemma EndedCons(line: string, end: string, lines: seq<string>, ends: seq<string>)
    requires Ended(lines, ends) && Ending(line, end, false)
    ensures Ended([line] + lines, [end] + ends)
    ensures Woven([line] + lines, [end] + ends) == line + end + Woven(lines, ends)
  {
    assert ([line] + lines)[1..] == lines && ([end] + ends)[1..] == ends;
    assert Ending(line, end, true) by {
    }
    hide Ending, Woven;
    forall k | 0 < k <= |lines| ensures Ending(([line] + lines)[k], ([end] + ends)[k], k == |lines|) {
      assert Ending(lines[k - 1], ends[k - 1], k - 1 == |lines| - 1);
    }
  }

  /** A text is its lines with their endings, and no other lines and endings make it up. */
  lemma TextLinesExactly(text: string, lines: seq<string>)
    ensures lines == TextLines(text) <==> exists ends :: Ended(lines, ends) && Woven(lines, ends) == text
  {
    var own := TextLinesWeave(text);
    if ends :| Ended(lines, ends) && Woven(lines, ends) == text {
      WovenLines(lines, ends);
    }
  }

  lemma {:induction false} TextLinesWeave(text: string) returns (ends: seq<string>)
    ensures Ended(TextLines(text), ends) && Woven(TextLines(text), ends) == text
  {
    ends := [];
    if text != [] {
      var n := LineLength(text);
      if n == |text| {
        assert text == text[..n];
        ends := [""];
        assert Woven([text], ends) == text + "" + Woven([text][1..], ends[1..]);
      } else {
        var rest := TextLinesWeave(text[n + 1..]);
        var line := StripReturn(text[..n]);
        var end := text[|line|..n + 1];
        assert text[..n + 1] == line + end && (end == "\n" || end == "\r\n");
        EndedCons(line, end, TextLines(text[n + 1..]), rest);
        ends := [end] + rest;
        hide Ended, Ending, Woven;
        assert text == text[..n + 1] + text[n + 1..];
      }
    }
  }

  lemma LineFirst(line: string, end: string, rest: string)
    requires Ending(line, end, false)
    ensures TextLines(line + end + rest) == [line] + TextLines(rest)
  {
    var front := if end == "\r\n" then line + "\r" else line;
    var text := line + end + rest;
    assert text == front + [NL] + rest;
    LineLengthOf(front, rest);
    assert text[..|front|] == front && text[|front| + 1..] == rest;
    assert StripReturn(front) == line;
  }

  lemma {:induction false} WovenLines(lines: seq<string>, ends: seq<string>)
    requires Ended(lines, ends)
    ensures TextLines(Woven(lines, ends)) == lines
  {
    if lines != [] {
      EndedTail(lines, ends);
      WovenLines(lines[1..], ends[1..]);
      hide Ended, TextLines;
      if Ending(lines[0], ends[0], false) {
        LineFirst(lines[0], ends[0], Woven(lines[1..], ends[1..]));
        assert [lines[0]] + lines[1..] == lines;
      } else {
        LastLine(lines[0]);
        assert lines == [lines[0]] && ends[0] == "";
        assert Woven(lines, ends) == lines[0] + "" + Woven(lines[1..], ends[1..]) == lines[0];
      }
    }
  }

  lemma LastLine(line: string)
    requires NL !in line && line != ""
    ensures TextLines(line) == [line]
  {
  }

  lemma {:induction false} TextLinesAreLines(text: string)
    ensures forall l :: l in TextLines(text) ==> NL !in l
  {
    if text != [] {
      var n := LineLength(text);
      if n < |text| {
        TextLinesAreLines(text[n + 1..]);
      } else {
        assert text == text[..n];
      }
    }
  }

  /** Each line followed by a newline. */
  function Unlines(lines: seq<string>): string {
    if lines == [] then [] else lines[0] + [NL] + Unlines(lines[1..])
  }

  function SplitLines(text: string): Option<seq<string>> {
    if text == [] then Some([])
    else
      var n := LineLength(text);
      if n == |text| then None
      else match SplitLines(text[n + 1..])
        case Some(rest) => Some([text[..n]] + rest)
        case None => None
  }

  lemma {:induction false} UnlinesConcat(a: seq<string>, b: seq<string>)
    ensures Unlines(a + b) == Unlines(a) + Unlines(b)
  {
    if a == [] {
      assert a + b == b;
    } else {
      assert (a + b)[1..] == a[1..] + b;
      UnlinesConcat(a[1..], b);
    }
  }

  lemma {:induction false} LineLengthOf(line: string, rest: string)
    requires NL !in line
    ensures LineLength(line + [NL] + rest) == |line|
  {
    var t := line + [NL] + rest;
    if line != [] {
      assert t[1..] == line[1..] + [NL] + rest;
      LineLengthOf(line[1..], rest);
    }
  }

  lemma {:induction false} SplitUnlines(lines: seq<string>)
    requires forall l :: l in lines ==> NL !in l
    ensures SplitLines(Unlines(lines)) == Some(lines)
  {
    if lines != [] {
      var rest := Unlines(lines[1..]);
      var text := lines[0] + [NL] + rest;
      LineLengthOf(lines[0], rest);
      assert text[..|lines[0]|] == lines[0] && text[|lines[0]| + 1..] == rest;
      SplitUnlines(lines[1..]);
      assert [lines[0]] + lines[1..] == lines;
    }
  }

  // ---- numbers ---------------------------------------------------------------------------------

  predicate IsDigit(c: char) { '0' <= c <= '9' }

  function Decimal(n: nat): (s: string)
    ensures s != [] && forall c :: c in s ==> IsDigit(c)
  {
    if n < 10 then [('0' as int + n) as char] else Decimal(n / 10) + Decimal(n % 10)
  }

  function Value(digits: string): nat
    requires forall c :: c in digits ==> IsDigit(c)
  {
    if digits == [] then 0
    else
      var last := digits[|digits| - 1];
      assert IsDigit(last);
      Value(digits[..|digits| - 1]) * 10 + (last as int - '0' as int)
  }

  lemma {:induction false} ValueOfDecimal(n: nat)
    ensures Value(Decimal(n)) == n
  {
    if n >= 10 {
      ValueOfDecimal(n / 10);
      assert Decimal(n)[..|Decimal(n)| - 1] == Decimal(n / 10);
    } else {
      assert Decimal(n)[..0] == [];
    }
  }

  function DigitRun(s: string): (k: nat)
    ensures k <= |s| && forall c :: c in s[..k] ==> IsDigit(c)
  {
    if s == [] || !IsDigit(s[0]) then 0
    else
      var k := 1 + DigitRun(s[1..]);
      assert s[..k] == [s[0]] + s[1..][..k - 1];
      k
  }

  lemma {:induction false} DigitRunOf(digits: string, rest: string)
    requires forall c :: c in digits ==> IsDigit(c)
    requires rest == [] || !IsDigit(rest[0])
    ensures DigitRun(digits + rest) == |digits|
  {
    if digits == [] {
      assert digits + rest == rest;
    } else {
      assert (digits + rest)[1..] == digits[1..] + rest;
      DigitRunOf(digits[1..], rest);
    }
  }

  function ReadNat(s: string): Option<(nat, string)> {
    var k := DigitRun(s);
    if k == 0 then None else Some((Value(s[..k]), s[k..]))
  }

  function Expect(prefix: string, s: string): Option<string> {
    if prefix <= s then Some(s[|prefix|..]) else None
  }

  lemma ReadNatOf(n: nat, rest: string)
    requires rest == [] || !IsDigit(rest[0])
    ensures ReadNat(Decimal(n) + rest) == Some((n, rest))
  {
    DigitRunOf(Decimal(n), rest);
    ValueOfDecimal(n);
    assert (Decimal(n) + rest)[..|Decimal(n)|] == Decimal(n);
    assert (Decimal(n) + rest)[|Decimal(n)|..] == rest;
  }

  // ---- printing --------------------------------------------------------------------------------

  function Sign(op: Op): char {
    match op
    case Context => ' '
    case Del => '-'
    case Ins => '+'
  }

  function PrintEdit(e: Edit): string { [Sign(e.op)] + e.text }

  function PrintEdits(es: seq<Edit>): seq<string> {
    if es == [] then [] else [PrintEdit(es[0])] + PrintEdits(es[1..])
  }

  /** `start,count`: the count is always printed. */
  function PrintRange(start: nat, count: nat): string { Decimal(start) + "," + Decimal(count) }

  function PrintHeader(h: Hunk): string {
    "@@ -" + (PrintRange(h.oldStart, h.oldCount) + (" +" + (PrintRange(h.newStart, h.newCount) + " @@")))
  }

  function PrintHunk(h: Hunk): seq<string> { [PrintHeader(h)] + PrintEdits(h.body) }

  function PrintHunks(hs: seq<Hunk>): seq<string> {
    if hs == [] then [] else PrintHunk(hs[0]) + PrintHunks(hs[1..])
  }

  const TITLE := ["--- live", "+++ document"]

  /** Every line of the diff, before its end is trimmed. */
  function DiffLines(hs: seq<Hunk>): seq<string> { TITLE + PrintHunks(hs) }

  // ---- reading ---------------------------------------------------------------------------------

  function ReadEdit(line: string): Option<Edit> {
    if line == [] then None
    else if line[0] == ' ' then Some(Edit(Context, line[1..]))
    else if line[0] == '-' then Some(Edit(Del, line[1..]))
    else if line[0] == '+' then Some(Edit(Ins, line[1..]))
    else None
  }

  function ReadRange(s: string): Option<(nat, nat, string)> {
    match ReadNat(s)
    case None => None
    case Some((start, s1)) =>
      match Expect(",", s1)
      case None => None
      case Some(s2) =>
        match ReadNat(s2)
        case None => None
        case Some((count, s3)) => Some((start, count, s3))
  }

  function ReadHeader(line: string): Option<Hunk> {
    match Expect("@@ -", line)
    case None => None
    case Some(s1) =>
      match ReadRange(s1)
      case None => None
      case Some((a, b, s2)) =>
        match Expect(" +", s2)
        case None => None
        case Some(s3) =>
          match ReadRange(s3)
          case None => None
          case Some((c, d, s4)) => if s4 == " @@" then Some(Hunk(a, b, c, d, [])) else None
  }

  /** The body of a hunk ends when both header counts are used up. */
  function ReadBody(lines: seq<string>, oldLeft: nat, newLeft: nat): Option<(seq<Edit>, seq<string>)>
    decreases |lines|
  {
    if oldLeft == 0 && newLeft == 0 then Some(([], lines))
    else if lines == [] then None
    else match ReadEdit(lines[0])
      case None => None
      case Some(e) =>
        var o, n := (if e.op in OLD then 1 else 0), (if e.op in NEW then 1 else 0);
        if o > oldLeft || n > newLeft then None
        else match ReadBody(lines[1..], oldLeft - o, newLeft - n)
          case None => None
          case Some((es, rest)) => Some(([e] + es, rest))
  }

  lemma {:induction false} ReadBodyShrinks(lines: seq<string>, o: nat, n: nat)
    ensures ReadBody(lines, o, n).Some? ==> |ReadBody(lines, o, n).value.1| <= |lines|
    decreases |lines|
  {
    if !(o == 0 && n == 0) && lines != [] && ReadEdit(lines[0]).Some? {
      var e := ReadEdit(lines[0]).value;
      var a, b := (if e.op in OLD then 1 else 0), (if e.op in NEW then 1 else 0);
      if a <= o && b <= n {
        ReadBodyShrinks(lines[1..], o - a, n - b);
      }
    }
  }

  function ReadHunks(lines: seq<string>): Option<seq<Hunk>>
    decreases |lines|
  {
    if lines == [] then Some([])
    else match ReadHeader(lines[0])
      case None => None
      case Some(h) =>
        ReadBodyShrinks(lines[1..], h.oldCount, h.newCount);
        match ReadBody(lines[1..], h.oldCount, h.newCount)
        case None => None
        case Some((body, rest)) =>
          match ReadHunks(rest)
          case None => None
          case Some(hs) => Some([h.(body := body)] + hs)
  }

  /** Read a printed diff back. Only a text that the hunks print to, letter for letter, is accepted. */
  function ReadDiff(text: string): Option<seq<Hunk>> {
    match SplitLines(text)
    case None => None
    case Some(lines) =>
      if !(TITLE <= lines) then None
      else match ReadHunks(lines[|TITLE|..])
        case None => None
        case Some(hs) => if Unlines(DiffLines(hs)) == text then Some(hs) else None
  }

  lemma ReadRangeOf(start: nat, count: nat, rest: string)
    requires rest != [] && !IsDigit(rest[0])
    ensures ReadRange(PrintRange(start, count) + rest) == Some((start, count, rest))
  {
    var tail := "," + (Decimal(count) + rest);
    assert PrintRange(start, count) + rest == Decimal(start) + tail;
    ReadNatOf(start, tail);
    assert Expect(",", tail) == Some(Decimal(count) + rest);
    ReadNatOf(count, rest);
  }

  lemma ReadHeaderOf(h: Hunk)
    ensures ReadHeader(PrintHeader(h)) == Some(h.(body := []))
  {
    var s3 := PrintRange(h.newStart, h.newCount) + " @@";
    var s2 := " +" + s3;
    var s1 := PrintRange(h.oldStart, h.oldCount) + s2;
    assert PrintHeader(h) == "@@ -" + s1;
    assert Expect("@@ -", PrintHeader(h)) == Some(s1);
    ReadRangeOf(h.oldStart, h.oldCount, s2);
    assert Expect(" +", s2) == Some(s3);
    ReadRangeOf(h.newStart, h.newCount, " @@");
  }

  lemma {:induction false} ReadBodyOf(body: seq<Edit>, rest: seq<string>)
    ensures ReadBody(PrintEdits(body) + rest, |Side(body, OLD)|, |Side(body, NEW)|) == Some((body, rest))
  {
    if body == [] {
      assert PrintEdits(body) + rest == rest;
    } else {
      var e := body[0];
      assert PrintEdit(e)[1..] == e.text;
      assert ReadEdit(PrintEdit(e)) == Some(e);
      assert e.op in OLD || e.op in NEW;
      assert |Side(body, OLD)| == (if e.op in OLD then 1 else 0) + |Side(body[1..], OLD)|;
      assert |Side(body, NEW)| == (if e.op in NEW then 1 else 0) + |Side(body[1..], NEW)|;
      assert (PrintEdits(body) + rest)[1..] == PrintEdits(body[1..]) + rest;
      assert (PrintEdits(body) + rest)[0] == PrintEdit(e);
      ReadBodyOf(body[1..], rest);
      assert [e] + body[1..] == body;
    }
  }

  /** The header counts of a hunk are the numbers of lines below it. */
  ghost predicate Counted(h: Hunk) {
    h.oldCount == |Side(h.body, OLD)| && h.newCount == |Side(h.body, NEW)|
  }

  lemma ReadHunksStep(h: Hunk, rest: seq<string>)
    requires Counted(h)
    ensures ReadHunks(PrintHunk(h) + rest) ==
            match ReadHunks(rest) { case None => None case Some(hs) => Some([h] + hs) }
  {
    var lines := PrintHunk(h) + rest;
    assert lines[1..] == PrintEdits(h.body) + rest;
    ReadHeaderOf(h);
    ReadBodyOf(h.body, rest);
    ReadBodyShrinks(lines[1..], h.oldCount, h.newCount);
    assert h.(body := []).(body := h.body) == h;
  }

  lemma {:induction false} ReadHunksOf(hs: seq<Hunk>)
    requires forall h :: h in hs ==> Counted(h)
    ensures ReadHunks(PrintHunks(hs)) == Some(hs)
  {
    if hs != [] {
      var h, rest := hs[0], hs[1..];
      assert PrintHunks(hs) == PrintHunk(h) + PrintHunks(rest);
      hide ReadHunks, PrintHunk, PrintHunks, Counted;
      ReadHunksOf(rest);
      ReadHunksStep(h, PrintHunks(rest));
      assert [h] + rest == hs;
    }
  }

  /** A hunk none of whose lines contains a newline. */
  ghost predicate OneLiners(h: Hunk) {
    forall e :: e in h.body ==> NL !in e.text
  }

  lemma {:induction false} PrintedAreLines(es: seq<Edit>)
    requires forall e :: e in es ==> NL !in e.text
    ensures forall l :: l in PrintEdits(es) ==> NL !in l
  {
    if es != [] {
      PrintedAreLines(es[1..]);
    }
  }

  lemma {:induction false} PrintedHunksAreLines(hs: seq<Hunk>)
    requires forall h :: h in hs ==> OneLiners(h)
    ensures forall l :: l in PrintHunks(hs) ==> NL !in l
  {
    if hs != [] {
      assert OneLiners(hs[0]);
      PrintedAreLines(hs[0].body);
      assert NL !in PrintHeader(hs[0]);
      PrintedHunksAreLines(hs[1..]);
    }
  }

  /** Printing loses nothing: the reader recovers exactly the hunks. */
  lemma ReadPrinted(hs: seq<Hunk>)
    requires forall h :: h in hs ==> Counted(h) && OneLiners(h)
    ensures ReadDiff(Unlines(DiffLines(hs))) == Some(hs)
  {
    PrintedHunksAreLines(hs);
    assert forall l :: l in DiffLines(hs) ==> NL !in l;
    SplitUnlines(DiffLines(hs));
    assert DiffLines(hs)[|TITLE|..] == PrintHunks(hs);
    ReadHunksOf(hs);
  }

  // ---- the diff --------------------------------------------------------------------------------

  /** The hunks of a shortest script between the two sides, grouped with their context. */
  ghost predicate DiffOf(hs: seq<Hunk>, live: seq<string>, document: seq<string>) {
    exists script: seq<Entry>, spans: seq<Span> :: HunksFrom(hs, script, spans, live, document)
  }

  ghost predicate HunksFrom(
    hs: seq<Hunk>, script: seq<Entry>, spans: seq<Span>, live: seq<string>, document: seq<string>)
  {
    && Transforms(Edits(script), live, document)
    && Positioned(script) && DeletionsFirst(script)
    && |Side(Edits(script), {Context})| == Lcs(live, document)
    && Groups(script, spans)
    && hs == HunksOf(script, spans)
  }

  predicate IsWhitespace(c: char) {
    var n := c as int;
    9 <= n <= 13 || n == 0x20 || n == 0x85 || n == 0xA0 || n == 0x1680 || 0x2000 <= n <= 0x200A
    || n == 0x2028 || n == 0x2029 || n == 0x202F || n == 0x205F || n == 0x3000
  }

  function TrimEnd(s: string): string {
    if s != [] && IsWhitespace(s[|s| - 1]) then TrimEnd(s[..|s| - 1]) else s
  }

  /** The code points with the property White_Space of the Unicode Standard, version 15. */
  ghost const WHITE_SPACE: set<int> := {
    0x9, 0xA, 0xB, 0xC, 0xD, 0x20, 0x85, 0xA0, 0x1680, 0x2000, 0x2001, 0x2002, 0x2003, 0x2004, 0x2005, 0x2006,
    0x2007, 0x2008, 0x2009, 0x200A, 0x2028, 0x2029, 0x202F, 0x205F, 0x3000
  }

  lemma WhiteSpace(c: char)
    ensures IsWhitespace(c) <==> c as int in WHITE_SPACE
  {
  }

  /** Trimming takes all white space off the end and nothing else. */
  lemma {:induction false} TrimEndExactly(s: string)
    ensures var t := TrimEnd(s);
      && t <= s && (t != [] ==> t[|t| - 1] as int !in WHITE_SPACE)
      && forall k :: |t| <= k < |s| ==> s[k] as int in WHITE_SPACE
  {
    if s != [] {
      WhiteSpace(s[|s| - 1]);
      hide IsWhitespace;
      if IsWhitespace(s[|s| - 1]) {
        TrimEndExactly(s[..|s| - 1]);
      }
    }
  }

  /** `unified_rule_diff`. */
  method UnifiedRuleDiff(document: string, live: string) returns (out: string, ghost hs: seq<Hunk>)
    ensures document == live ==> out == "rules: unchanged"
    ensures document != live ==> DiffOf(hs, TextLines(live), TextLines(document))
    ensures document != live ==> out == TrimEnd(Unlines(DiffLines(hs)))
  {
    if document == live {
      return "rules: unchanged", [];
    }
    var before, after := TextLines(live), TextLines(document);
    var script := EditScript(before, after);
    var spans := GroupHunks(script);
    hs := HunksOf(script, spans);
    assert HunksFrom(hs, script, spans, before, after);
    var text := PrintDiff(script, spans);
    out := TrimEnd(text);
  }

  method PrintDiff(script: seq<Entry>, spans: seq<Span>) returns (text: string)
    requires forall m :: 0 <= m < |spans| ==> spans[m].start < spans[m].end <= |script|
    ensures text == Unlines(DiffLines(HunksOf(script, spans)))
  {
    hide PrintHunks, PrintHunk, DiffLines, Unlines;
    ghost var hs := HunksOf(script, spans);
    text := "--- live\n+++ document\n";
    PrintTitle();
    assert hs[..0] == [];
    for k := 0 to |spans|
      invariant text == Unlines(DiffLines(hs[..k]))
    {
      var h := HunkAt(script, spans[k]);
      PrintPush(hs[..k], h);
      assert hs[..k + 1] == hs[..k] + [h];
      text := text + Unlines(PrintHunk(h));
    }
    assert hs[..|spans|] == hs;
  }

  lemma PrintTitle()
    ensures Unlines(DiffLines([])) == "--- live\n+++ document\n"
  {
    assert DiffLines([]) == TITLE;
    assert TITLE[1..] == ["+++ document"];
    assert Unlines(TITLE) == "--- live" + [NL] + ("+++ document" + [NL] + []);
  }

  lemma PrintPush(hs: seq<Hunk>, h: Hunk)
    ensures Unlines(DiffLines(hs + [h])) == Unlines(DiffLines(hs)) + Unlines(PrintHunk(h))
  {
    PrintHunksPush(hs, h);
    assert DiffLines(hs + [h]) == DiffLines(hs) + PrintHunk(h);
    UnlinesConcat(DiffLines(hs), PrintHunk(h));
  }

  lemma {:induction false} PrintHunksPush(hs: seq<Hunk>, h: Hunk)
    ensures PrintHunks(hs + [h]) == PrintHunks(hs) + PrintHunk(h)
  {
    if hs == [] {
      assert [h][1..] == [];
      assert hs + [h] == [h];
    } else {
      assert (hs + [h])[1..] == hs[1..] + [h];
      PrintHunksPush(hs[1..], h);
    }
  }

  /** Applying the hunks of a diff to one side gives the other, in both directions. */
  lemma DiffPatches(hs: seq<Hunk>, live: seq<string>, document: seq<string>)
    requires DiffOf(hs, live, document)
    ensures Apply(live, hs) == Some(document)
    ensures Apply(document, ReverseAll(hs)) == Some(live)
  {
    var script: seq<Entry>, spans: seq<Span> :| HunksFrom(hs, script, spans, live, document);
    PatchForward(script, spans, live, document);
    PatchBackward(script, spans, live, document);
  }

  // ---- no shorter patch ------------------------------------------------------------------------

  function PatchChanges(hs: seq<Hunk>): nat {
    if hs == [] then 0 else Changes(hs[0].body) + PatchChanges(hs[1..])
  }

  lemma {:induction false} ChangesConcat(a: seq<Edit>, b: seq<Edit>)
    ensures Changes(a + b) == Changes(a) + Changes(b)
  {
    if a == [] {
      assert a + b == b;
    } else {
      assert (a + b)[1..] == a[1..] + b;
      ChangesConcat(a[1..], b);
    }
  }

  function Keep(lines: seq<string>): (r: seq<Edit>)
    ensures |r| == |lines|
  {
    seq(|lines|, k requires 0 <= k < |lines| => Edit(Context, lines[k]))
  }

  lemma {:induction false} KeepSides(lines: seq<string>)
    ensures Side(Keep(lines), OLD) == lines && Side(Keep(lines), NEW) == lines && Changes(Keep(lines)) == 0
  {
    if lines != [] {
      assert Keep(lines)[1..] == Keep(lines[1..]);
      KeepSides(lines[1..]);
    }
  }

  lemma JoinScripts(gap: seq<string>, body: seq<Edit>, rest: seq<Edit>)
    ensures Side(Keep(gap) + body + rest, OLD) == gap + Side(body, OLD) + Side(rest, OLD)
    ensures Side(Keep(gap) + body + rest, NEW) == gap + Side(body, NEW) + Side(rest, NEW)
    ensures Changes(Keep(gap) + body + rest) == Changes(body) + Changes(rest)
  {
    KeepSides(gap);
    SideConcat(Keep(gap), body, OLD);
    SideConcat(Keep(gap) + body, rest, OLD);
    SideConcat(Keep(gap), body, NEW);
    SideConcat(Keep(gap) + body, rest, NEW);
    ChangesConcat(Keep(gap), body);
    ChangesConcat(Keep(gap) + body, rest);
  }

  /** Whatever hunks the reader accepts spell out a script with the same changes. */
  lemma {:induction false} AcceptedIsScript(
    src: seq<string>, hs: seq<Hunk>, pos: nat, out: seq<string>, dst: seq<string>)
    returns (es: seq<Edit>)
    requires pos <= |src| && ApplyHunks(src, hs, pos, out) == Some(dst)
    ensures out <= dst && Transforms(es, src[pos..], dst[|out|..]) && Changes(es) == PatchChanges(hs)
    decreases |hs|
  {
    if hs == [] {
      es := Keep(src[pos..]);
      KeepSides(src[pos..]);
    } else {
      var h := hs[0];
      var at := Offset(h.oldStart, h.oldCount);
      var gap := src[pos..at];
      var rest := AcceptedIsScript(src, hs[1..], at + h.oldCount, out + gap + Side(h.body, NEW), dst);
      es := SpliceScript(src, h, pos, at, out, dst, rest);
    }
  }

  /** One hunk's step: the lines skipped, the hunk, and a script for what follows. */
  lemma SpliceScript(src: seq<string>, h: Hunk, pos: nat, at: nat, out: seq<string>, dst: seq<string>, rest: seq<Edit>)
    returns (es: seq<Edit>)
    requires pos <= at && at + h.oldCount <= |src| && src[at..at + h.oldCount] == Side(h.body, OLD)
    requires out + src[pos..at] + Side(h.body, NEW) <= dst
    requires Transforms(rest, src[at + h.oldCount..], dst[|out + src[pos..at] + Side(h.body, NEW)|..])
    ensures out <= dst && Transforms(es, src[pos..], dst[|out|..]) && Changes(es) == Changes(h.body) + Changes(rest)
  {
    hide Changes, Side;
    var gap, news := src[pos..at], Side(h.body, NEW);
    es := Keep(gap) + h.body + rest;
    JoinScripts(gap, h.body, rest);
    SliceInThree(src, pos, at, at + h.oldCount);
    assert out + (gap + news) == out + gap + news;
    PrefixTail(out, gap + news, dst);
  }

  lemma PrefixTail(out: seq<string>, add: seq<string>, dst: seq<string>)
    requires out + add <= dst
    ensures out <= dst && dst[|out|..] == add + dst[|out + add|..]
  {
  }

  lemma SliceInThree(s: seq<string>, a: nat, b: nat, c: nat)
    requires a <= b <= c <= |s|
    ensures s[a..] == s[a..b] + s[b..c] + s[c..]
  {
  }

  lemma {:induction false} HunkChanges(es: seq<Entry>, spans: seq<Span>, m: nat)
    requires Groups(es, spans) && m <= |spans| && Resume(spans, m) <= |es|
    ensures PatchChanges(HunksOf(es, spans)[m..]) <= Changes(Edits(es[Resume(spans, m)..]))
    decreases |spans| - m
  {
    var hs := HunksOf(es, spans);
    if m < |spans| {
      var from, s := Resume(spans, m), spans[m];
      assert m > 0 ==> spans[m - 1].end < s.start;
      HunkChanges(es, spans, m + 1);
      assert hs[m..][1..] == hs[m + 1..] && hs[m..][0].body == Edits(es[s.start..s.end]);
      assert Edits(es[from..]) == Edits(es[from..s.start]) + (Edits(es[s.start..s.end]) + Edits(es[s.end..]));
      ChangesConcat(Edits(es[from..s.start]), Edits(es[s.start..s.end]) + Edits(es[s.end..]));
      ChangesConcat(Edits(es[s.start..s.end]), Edits(es[s.end..]));
    }
  }

  /** No patch that carries one side to the other has fewer changed lines than the diff. */
  lemma DiffIsMinimal(hs: seq<Hunk>, other: seq<Hunk>, live: seq<string>, document: seq<string>)
    requires DiffOf(hs, live, document)
    requires Apply(live, other) == Some(document)
    ensures PatchChanges(hs) <= PatchChanges(other)
  {
    var script: seq<Entry>, spans: seq<Span> :| HunksFrom(hs, script, spans, live, document);
    HunkChanges(script, spans, 0);
    assert hs[0..] == hs && script[0..] == script;
    var es := AcceptedIsScript(live, other, 0, [], document);
    ScriptIsMinimal(Edits(script), es, live, document);
  }

  // ---- what trimming the output costs ----------------------------------------------------------

  /** The last printed line ends in something other than white space. */
  predicate EndsVisibly(line: string) {
    line != [] && !IsWhitespace(line[|line| - 1])
  }

  lemma {:induction false} TrimShortens(s: string)
    ensures TrimEnd(s) <= s
  {
    if s != [] && IsWhitespace(s[|s| - 1]) {
      TrimShortens(s[..|s| - 1]);
    }
  }

  lemma TrimNewline(shown: string)
    requires shown != []
    ensures TrimEnd(shown + [NL]) + [NL] == shown + [NL] <==> EndsVisibly(shown)
  {
    assert (shown + [NL])[..|shown|] == shown;
    assert TrimEnd(shown + [NL]) == TrimEnd(shown);
    TrimShortens(shown[..|shown| - 1]);
    assert !EndsVisibly(shown) ==> |TrimEnd(shown)| < |shown|;
  }

  /** Trimming removes the final newline and nothing else exactly when the last line ends visibly. */
  lemma TrimKeepsExactly(lines: seq<string>)
    requires |lines| > 1
    ensures TrimEnd(Unlines(lines)) + [NL] == Unlines(lines) <==> EndsVisibly(lines[|lines| - 1])
  {
    var n := |lines| - 1;
    var last := lines[n];
    UnlinesEnd(lines);
    UnlinesEnd(lines[..n]);
    var head := Unlines(lines[..n]);
    var shown := head + last;
    assert Unlines(lines) == shown + [NL];
    TrimNewline(shown);
    assert last == [] ==> shown == head;
    assert IsWhitespace(NL);
  }

  lemma OneUnlined(line: string)
    ensures Unlines([line]) == line + [NL]
  {
    assert [line][1..] == [];
  }

  lemma UnlinesEnd(lines: seq<string>)
    requires lines != []
    ensures Unlines(lines) == Unlines(lines[..|lines| - 1]) + lines[|lines| - 1] + [NL]
  {
    hide Unlines;
    var n := |lines| - 1;
    var head, last := lines[..n], lines[n];
    assert lines == head + [last];
    UnlinesConcat(head, [last]);
    OneUnlined(last);
    ThreeParts(Unlines(head), last, [NL]);
  }

  lemma ThreeParts(a: string, b: string, c: string)
    ensures a + (b + c) == a + b + c
  {
  }

  lemma {:induction false} EditsAreLines(es: seq<Edit>, e: Edit)
    requires e in es
    ensures e.text in Side(es, OLD) || e.text in Side(es, NEW)
  {
    if e == es[0] {
      assert e.op == Context || e.op == Del || e.op == Ins;
      assert e.op in OLD ==> Side(es, OLD)[0] == e.text;
      assert e.op in NEW ==> Side(es, NEW)[0] == e.text;
    } else {
      EditsAreLines(es[1..], e);
    }
  }

  lemma SpanLines(script: seq<Entry>, s: Span, e: Edit)
    requires s.start <= s.end <= |script| && e in Edits(script[s.start..s.end])
    ensures e.text in Side(Edits(script), OLD) || e.text in Side(Edits(script), NEW)
  {
    var k :| 0 <= k < s.end - s.start && Edits(script[s.start..s.end])[k] == e;
    assert Edits(script)[s.start + k] == e;
    EditsAreLines(Edits(script), e);
  }

  /** Every line of a hunk is a line of one of the two sides, and its header counts are right. */
  lemma HunkLines(hs: seq<Hunk>, h: Hunk, live: seq<string>, document: seq<string>)
    requires DiffOf(hs, live, document) && h in hs
    ensures Counted(h) && h.body != []
    ensures forall e :: e in h.body ==> e.text in live || e.text in document
  {
    var script: seq<Entry>, spans: seq<Span> :| HunksFrom(hs, script, spans, live, document);
    var m :| 0 <= m < |hs| && h == hs[m];
    HeaderIsTrue(script, spans[m]);
    forall e | e in h.body ensures e.text in live || e.text in document {
      SpanLines(script, spans[m], e);
    }
  }

  /** The printed diff can be read back, newline restored, exactly when its last line ends visibly;
      before trimming it can always be read back. */
  lemma PrintedDiffReads(hs: seq<Hunk>, live: string, document: string)
    requires DiffOf(hs, TextLines(live), TextLines(document))
    ensures ReadDiff(Unlines(DiffLines(hs))) == Some(hs)
    ensures ReadDiff(TrimEnd(Unlines(DiffLines(hs))) + [NL]) == Some(hs)
            <==> EndsVisibly(DiffLines(hs)[|DiffLines(hs)| - 1])
  {
    TextLinesAreLines(live);
    TextLinesAreLines(document);
    forall h | h in hs ensures Counted(h) && OneLiners(h) {
      HunkLines(hs, h, TextLines(live), TextLines(document));
    }
    ReadPrinted(hs);
    TrimKeepsExactly(DiffLines(hs));
  }

  lemma {:induction false} LastPrinted(hs: seq<Hunk>)
    requires hs != [] && forall h :: h in hs ==> h.body != []
    ensures PrintHunks(hs) != []
    ensures var b := hs[|hs| - 1].body; PrintHunks(hs)[|PrintHunks(hs)| - 1] == PrintEdit(b[|b| - 1])
  {
    LastEdit(hs[0].body);
    if |hs| > 1 {
      assert hs[1..][|hs| - 2] == hs[|hs| - 1];
      LastPrinted(hs[1..]);
    } else {
      assert hs[1..] == [];
    }
  }

  lemma {:induction false} LastEdit(es: seq<Edit>)
    requires es != []
    ensures |PrintEdits(es)| == |es| && PrintEdits(es)[|es| - 1] == PrintEdit(es[|es| - 1])
  {
    if |es| > 1 {
      LastEdit(es[1..]);
    }
  }

  /** A diff that loses a character: nothing is live, and the document is one line, a blank. Its hunk
      ends in that line, and what is left after trimming is no longer that hunk. */
  lemma BlankLineIsLost() returns (hs: seq<Hunk>)
    ensures DiffOf(hs, TextLines(""), TextLines(" \n"))
    ensures DiffLines(hs) == TITLE + ["@@ -0,0 +1,1 @@", "+ "]
    ensures ReadDiff(TrimEnd(Unlines(DiffLines(hs))) + [NL]) != Some(hs)
  {
    var script, spans := [Entry(Edit(Ins, " "), 1, 1)], [Span(0, 1)];
    hs := [Hunk(0, 0, 1, 1, [Edit(Ins, " ")])];
    BlankScript(script, spans, hs);
    assert DiffOf(hs, [], [" "]);
    BlankText(hs);
    PrintedDiffReads(hs, "", " \n");
    assert IsWhitespace(' ');
    assert "+ "[1] == ' ';
  }

  lemma BlankScript(script: seq<Entry>, spans: seq<Span>, hs: seq<Hunk>)
    requires script == [Entry(Edit(Ins, " "), 1, 1)] && spans == [Span(0, 1)]
    requires hs == [Hunk(0, 0, 1, 1, [Edit(Ins, " ")])]
    ensures HunksFrom(hs, script, spans, [], [" "])
    ensures TextLines("") == [] && TextLines(" \n") == [" "]
  {
    assert Edits(script) == [Edit(Ins, " ")];
    assert Edits(script)[1..] == [];
    assert script[..0] == [] && script[0..1] == script && script[1..] == [];
    assert Changed(script, 0);
    var span := script[0..1];
    assert span == script && span[1..] == [];
    assert span[0].edit.op == Ins && Ins in NEW && Ins !in OLD;
    assert CountSides(span[1..], OLD) == 0 && CountSides(span[1..], NEW) == 0;
    assert CountSides(span, OLD) == 0;
    assert CountSides(span, NEW) == 1;
    assert Find(span, NEW) == Some(script[0]);
    assert HunkAt(script, spans[0]) == hs[0];
    assert HunksOf(script, spans) == hs;
    assert " \n"[1..] == "\n";
    assert LineLength("\n") == 0;
    assert " \n"[..1] == " " && " \n"[2..] == "";
  }

  lemma BlankText(hs: seq<Hunk>)
    requires hs == [Hunk(0, 0, 1, 1, [Edit(Ins, " ")])]
    ensures DiffLines(hs) == TITLE + ["@@ -0,0 +1,1 @@", "+ "]
  {
    assert hs[1..] == [];
    var body := hs[0].body;
    assert body[1..] == [] && body[0] == Edit(Ins, " ");
    assert PrintEdit(body[0]) == "+ ";
    assert PrintEdits([]) == [];
    assert PrintEdits(hs[0].body) == ["+ "];
    assert Decimal(0) == "0" && Decimal(1) == "1";
    assert PrintRange(0, 0) == "0,0" && PrintRange(1, 1) == "1,1";
    assert PrintHeader(hs[0]) == "@@ -0,0 +1,1 @@";
    assert PrintHunks([]) == [];
    assert PrintHunks(hs) == PrintHunk(hs[0]) == ["@@ -0,0 +1,1 @@", "+ "];
  }

  lemma TitleVisible()
    ensures EndsVisibly(TITLE[|TITLE| - 1])
  {
    assert TITLE[1][11] == 't';
  }

  /** Corpora without blank lines or trailing white space print a visible last line. */
  lemma LastLineVisible(hs: seq<Hunk>, live: seq<string>, document: seq<string>)
    requires DiffOf(hs, live, document)
    requires forall l :: l in live || l in document ==> EndsVisibly(l)
    ensures EndsVisibly(DiffLines(hs)[|DiffLines(hs)| - 1])
  {
    hide DiffOf, IsWhitespace, PrintHunks, Counted;
    if hs == [] {
      TitleVisible();
      NothingPrinted();
    } else {
      forall h | h in hs ensures h.body != [] && forall e :: e in h.body ==> e.text in live || e.text in document {
        HunkLines(hs, h, live, document);
      }
      LastPrinted(hs);
      var b := hs[|hs| - 1].body;
      assert b[|b| - 1] in b;
      PrintedVisibly(b[|b| - 1]);
      assert DiffLines(hs)[|DiffLines(hs)| - 1] == PrintHunks(hs)[|PrintHunks(hs)| - 1];
    }
  }

  lemma NothingPrinted()
    ensures DiffLines([]) == TITLE
  {
  }

  lemma PrintedVisibly(e: Edit)
    requires EndsVisibly(e.text)
    ensures EndsVisibly(PrintEdit(e))
  {
    var p := PrintEdit(e);
    assert p[|p| - 1] == e.text[|e.text| - 1];
  }

  /** Corpora without blank lines or trailing white space always print readably. */
  lemma VisibleLinesReadBack(hs: seq<Hunk>, live: string, document: string)
    requires DiffOf(hs, TextLines(live), TextLines(document))
    requires forall l :: l in TextLines(live) || l in TextLines(document) ==> EndsVisibly(l)
    ensures ReadDiff(TrimEnd(Unlines(DiffLines(hs))) + [NL]) == Some(hs)
  {
    hide DiffOf, DiffLines, EndsVisibly, TextLines, ReadDiff, TrimEnd, Unlines;
    LastLineVisible(hs, TextLines(live), TextLines(document));
    PrintedDiffReads(hs, live, document);
  }

  // ---- the review diff of an apply -------------------------------------------------------------

  function AllOf(op: Op, lines: seq<string>): (r: seq<Edit>)
    ensures |r| == |lines|
  {
    seq(|lines|, k requires 0 <= k < |lines| => Edit(op, lines[k]))
  }

  /** `transition_rule_diff` prints one hunk with fixed starts: all deletions, then all insertions. */
  function TransitionHunk(live: seq<string>, candidate: seq<string>): Hunk {
    Hunk(1, |live|, 1, |candidate|, AllOf(Del, live) + AllOf(Ins, candidate))
  }

  lemma {:induction false} AllOfSide(op: Op, lines: seq<string>, ops: set<Op>)
    ensures Side(AllOf(op, lines), ops) == if op in ops then lines else []
  {
    if lines != [] {
      assert AllOf(op, lines)[1..] == AllOf(op, lines[1..]);
      AllOfSide(op, lines[1..], ops);
    }
  }

  lemma TransitionSides(live: seq<string>, candidate: seq<string>)
    ensures var h := TransitionHunk(live, candidate); Side(h.body, OLD) == live && Side(h.body, NEW) == candidate
  {
    hide Side, AllOf;
    AllOfSide(Del, live, OLD);
    AllOfSide(Ins, candidate, OLD);
    AllOfSide(Del, live, NEW);
    AllOfSide(Ins, candidate, NEW);
    SideConcat(AllOf(Del, live), AllOf(Ins, candidate), OLD);
    SideConcat(AllOf(Del, live), AllOf(Ins, candidate), NEW);
    assert live + [] == live && [] + candidate == candidate;
  }

  /** What a patch of one hunk does. */
  lemma ApplyOne(src: seq<string>, h: Hunk)
    ensures var at := Offset(h.oldStart, h.oldCount);
      Apply(src, [h]) ==
        if at < 0 || at + h.oldCount > |src| || src[at..at + h.oldCount] != Side(h.body, OLD)
          || |Side(h.body, NEW)| != h.newCount || at != Offset(h.newStart, h.newCount)
        then None
        else Some(src[..at] + Side(h.body, NEW) + src[at + h.oldCount..])
  {
    hide Side;
    assert [h][1..] == [];
    var at := Offset(h.oldStart, h.oldCount);
    if 0 <= at && at + h.oldCount <= |src| {
      assert [] + src[0..at] == src[..at];
      assert ApplyHunks(src, [], at + h.oldCount, src[..at] + Side(h.body, NEW))
        == Some(src[..at] + Side(h.body, NEW) + src[at + h.oldCount..]);
    }
  }

  /** Its header is a true unified header exactly when neither side is empty: the fixed start 1 is
      not the anchor of a side with no lines. */
  lemma TransitionAppliesExactly(live: seq<string>, candidate: seq<string>)
    ensures Apply(live, [TransitionHunk(live, candidate)]) == Some(candidate) <==> live != [] && candidate != []
  {
    TransitionSides(live, candidate);
    ApplyOne(live, TransitionHunk(live, candidate));
    hide Apply, Side, AllOf;
    assert live[0..|live|] == live && live[..0] + candidate + live[|live|..] == candidate;
  }
}
