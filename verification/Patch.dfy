/** Hunk headers, a strict reader that applies hunks, and the theorem that the printed hunks carry
    one side to the other in both directions. */
module Patch {
  import opened Basics
  import opened RuleDiff
  import opened Hunks

  // ---- headers ---------------------------------------------------------------------------------

  function CountSides(span: seq<Entry>, sides: set<Op>): nat {
    if span == [] then 0
    else (if span[0].edit.op in sides then 1 else 0) + CountSides(span[1..], sides)
  }

  function Find(span: seq<Entry>, sides: set<Op>): Option<Entry> {
    if span == [] then None
    else if span[0].edit.op in sides then Some(span[0])
    else Find(span[1..], sides)
  }

  /** The start a header gives a side: its first line in the hunk, or when it has none there, the line
      just above. */
  function Anchor(span: seq<Entry>, sides: set<Op>, pick: Entry -> nat): nat
    requires span != []
  {
    if CountSides(span, sides) == 0 then SaturatingSub(pick(span[0]), 1)
    else match Find(span, sides)
      case Some(e) => pick(e)
      case None => 0
  }

  function HunkAt(es: seq<Entry>, s: Span): Hunk
    requires s.start < s.end <= |es|
  {
    var span := es[s.start..s.end];
    Hunk(
      Anchor(span, OLD, (e: Entry) => e.oldPos), CountSides(span, OLD),
      Anchor(span, NEW, (e: Entry) => e.newPos), CountSides(span, NEW),
      Edits(span))
  }

  function HunksOf(es: seq<Entry>, spans: seq<Span>): (hs: seq<Hunk>)
    requires forall m :: 0 <= m < |spans| ==> spans[m].start < spans[m].end <= |es|
    ensures |hs| == |spans|
  {
    seq(|spans|, m requires 0 <= m < |spans| => HunkAt(es, spans[m]))
  }

  lemma {:induction false} CountIsSide(span: seq<Entry>, sides: set<Op>)
    ensures CountSides(span, sides) == |Side(Edits(span), sides)|
  {
    if span != [] {
      assert Edits(span)[1..] == Edits(span[1..]);
      CountIsSide(span[1..], sides);
    }
  }

  /** How many lines of a side precede a script position. */
  ghost function Before(es: seq<Entry>, k: nat, sides: set<Op>): nat
    requires k <= |es|
  {
    |Side(Edits(es[..k]), sides)|
  }

  lemma BeforeNext(es: seq<Entry>, k: nat, sides: set<Op>)
    requires k < |es|
    ensures Before(es, k + 1, sides) == Before(es, k, sides) + if es[k].edit.op in sides then 1 else 0
  {
    assert Edits(es[..k + 1]) == Edits(es[..k]) + [es[k].edit];
    SidePush(Edits(es[..k]), es[k].edit, sides);
  }

  lemma {:induction false} FindBefore(es: seq<Entry>, a: nat, b: nat, sides: set<Op>)
    requires a <= b <= |es|
    requires CountSides(es[a..b], sides) > 0
    ensures exists f ::
      a <= f < b && Find(es[a..b], sides) == Some(es[f]) && Before(es, f, sides) == Before(es, a, sides)
    decreases b - a
  {
    if es[a].edit.op in sides {
      assert Find(es[a..b], sides) == Some(es[a]);
    } else {
      assert es[a..b][1..] == es[a + 1..b];
      BeforeNext(es, a, sides);
      FindBefore(es, a + 1, b, sides);
    }
  }

  /** The number a header prints for a side that has `before` lines above the hunk. */
  function HeaderStart(before: nat, count: nat): nat {
    if count == 0 then before else before + 1
  }

  /** The header read off the entries names the true position and extent on both sides. */
  lemma HeaderIsTrue(es: seq<Entry>, s: Span)
    requires Positioned(es) && s.start < s.end <= |es|
    ensures var h := HunkAt(es, s);
      && h.oldCount == |Side(h.body, OLD)| && h.newCount == |Side(h.body, NEW)|
      && h.oldStart == HeaderStart(Before(es, s.start, OLD), h.oldCount)
      && h.newStart == HeaderStart(Before(es, s.start, NEW), h.newCount)
  {
    hide Side;
    var span := es[s.start..s.end];
    CountIsSide(span, OLD);
    CountIsSide(span, NEW);
    assert span[0] == es[s.start];
    if CountSides(span, OLD) > 0 {
      FindBefore(es, s.start, s.end, OLD);
      var f :| s.start <= f < s.end && Find(span, OLD) == Some(es[f]) && Before(es, f, OLD) == Before(es, s.start, OLD);
      assert es[f].oldPos == Before(es, f, OLD) + 1;
    }
    if CountSides(span, NEW) > 0 {
      FindBefore(es, s.start, s.end, NEW);
      var f :| s.start <= f < s.end && Find(span, NEW) == Some(es[f]) && Before(es, f, NEW) == Before(es, s.start, NEW);
      assert es[f].newPos == Before(es, f, NEW) + 1;
    }
  }

  // ---- applying hunks --------------------------------------------------------------------------

  /** The zero-based index a header's start names: a side with no lines is named by the line above. */
  function Offset(start: nat, count: nat): int {
    if count == 0 then start else start - 1
  }

  /** A strict reader: every hunk must lie where its header says on both sides and match in full. */
  function ApplyHunks(src: seq<string>, hunks: seq<Hunk>, pos: nat, out: seq<string>): Option<seq<string>>
    requires pos <= |src|
    decreases |hunks|
  {
    if hunks == [] then Some(out + src[pos..])
    else
      var h := hunks[0];
      var at := Offset(h.oldStart, h.oldCount);
      if at < pos || at + h.oldCount > |src| || src[at..at + h.oldCount] != Side(h.body, OLD)
        || |Side(h.body, NEW)| != h.newCount || |out| + (at - pos) != Offset(h.newStart, h.newCount)
      then None
      else ApplyHunks(src, hunks[1..], at + h.oldCount, out + src[pos..at] + Side(h.body, NEW))
  }

  function Apply(src: seq<string>, hunks: seq<Hunk>): Option<seq<string>> {
    ApplyHunks(src, hunks, 0, [])
  }

  /** A side of a slice of the script is the matching slice of that side. */
  lemma SideOfSlice(es: seq<Entry>, a: nat, b: nat, sides: set<Op>)
    requires a <= b <= |es|
    ensures Before(es, a, sides) <= Before(es, b, sides) <= |Side(Edits(es), sides)|
    ensures Side(Edits(es[a..b]), sides) == Side(Edits(es), sides)[Before(es, a, sides)..Before(es, b, sides)]
  {
    assert Edits(es) == Edits(es[..a]) + Edits(es[a..b]) + Edits(es[b..]);
    assert Edits(es[..b]) == Edits(es[..a]) + Edits(es[a..b]);
    SideConcat(Edits(es[..a]), Edits(es[a..b]), sides);
    SideConcat(Edits(es[..b]), Edits(es[b..]), sides);
  }

  lemma {:induction false} ContextSides(es: seq<Edit>)
    requires forall k :: 0 <= k < |es| ==> es[k].op == Context
    ensures Side(es, OLD) == Side(es, NEW)
  {
    if es != [] {
      ContextSides(es[1..]);
    }
  }

  /** Where hunk `m` may start looking: the end of the hunk before it. */
  function Resume(spans: seq<Span>, m: nat): nat
    requires m <= |spans|
  {
    if m == 0 then 0 else spans[m - 1].end
  }

  /** Between two hunks both sides have the same lines. */
  lemma GapIsShared(es: seq<Entry>, spans: seq<Span>, m: nat, upto: nat)
    requires Groups(es, spans) && m <= |spans|
    requires upto == if m < |spans| then spans[m].start else |es|
    ensures Resume(spans, m) <= upto <= |es|
    ensures Side(Edits(es[Resume(spans, m)..upto]), OLD) == Side(Edits(es[Resume(spans, m)..upto]), NEW)
  {
    var from := Resume(spans, m);
    if 0 < m < |spans| {
      assert spans[m - 1].end < spans[m].start;
    }
    forall k | from <= k < upto ensures es[k].edit.op == Context {
      assert forall n :: 0 <= n < m ==> spans[n].end <= from;
      assert forall n :: m <= n < |spans| ==> upto <= spans[n].start;
      assert !Covered(spans, k);
      OutsideIsContext(es, spans, k);
    }
    ContextSides(Edits(es[from..upto]));
  }

  /** What precedes a hunk is copied: the two sides advance together up to its start. */
  lemma GapAdvances(es: seq<Entry>, spans: seq<Span>, m: nat, upto: nat)
    requires Groups(es, spans) && m <= |spans|
    requires upto == if m < |spans| then spans[m].start else |es|
    ensures Resume(spans, m) <= upto <= |es|
    ensures var p, q := Before(es, Resume(spans, m), OLD), Before(es, Resume(spans, m), NEW);
      var at, into := Before(es, upto, OLD), Before(es, upto, NEW);
      var src, dst := Side(Edits(es), OLD), Side(Edits(es), NEW);
      && p <= at <= |src| && q <= into <= |dst|
      && at - p == into - q && dst[..q] + src[p..at] == dst[..into]
  {
    var from := Resume(spans, m);
    GapIsShared(es, spans, m, upto);
    SideOfSlice(es, from, upto, OLD);
    SideOfSlice(es, from, upto, NEW);
  }

  /** The state of the reader after the hunks before position `k` of the script. */
  ghost function Reading(es: seq<Entry>, hunks: seq<Hunk>, k: nat): Option<seq<string>>
    requires k <= |es|
  {
    SideOfSlice(es, 0, k, OLD);
    SideOfSlice(es, 0, k, NEW);
    ApplyHunks(Side(Edits(es), OLD), hunks, Before(es, k, OLD), Side(Edits(es), NEW)[..Before(es, k, NEW)])
  }

  lemma HunkStep(es: seq<Entry>, spans: seq<Span>, m: nat)
    requires Positioned(es) && Groups(es, spans) && m < |spans| && Resume(spans, m) <= |es|
    ensures Reading(es, HunksOf(es, spans)[m..], Resume(spans, m))
         == Reading(es, HunksOf(es, spans)[m + 1..], spans[m].end)
  {
    var s := spans[m];
    GapAdvances(es, spans, m, s.start);
    HeaderIsTrue(es, s);
    SideOfSlice(es, s.start, s.end, OLD);
    SideOfSlice(es, s.start, s.end, NEW);
    var dst := Side(Edits(es), NEW);
    var into, q' := Before(es, s.start, NEW), Before(es, s.end, NEW);
    assert dst[..into] + dst[into..q'] == dst[..q'];
    assert HunksOf(es, spans)[m..][1..] == HunksOf(es, spans)[m + 1..];
    assert HunksOf(es, spans)[m..][0] == HunkAt(es, s);
  }

  lemma TailStep(es: seq<Entry>, spans: seq<Span>)
    requires Groups(es, spans) && Resume(spans, |spans|) <= |es|
    ensures Reading(es, [], Resume(spans, |spans|)) == Some(Side(Edits(es), NEW))
  {
    GapAdvances(es, spans, |spans|, |es|);
    assert es[..|es|] == es;
    var src, dst := Side(Edits(es), OLD), Side(Edits(es), NEW);
    var p := Before(es, Resume(spans, |spans|), OLD);
    assert dst[..|dst|] == dst && src[p..] == src[p..|src|];
  }

  lemma {:induction false} PatchFrom(es: seq<Entry>, spans: seq<Span>, m: nat)
    requires Positioned(es) && Groups(es, spans) && m <= |spans|
    ensures Resume(spans, m) <= |es|
    ensures Reading(es, HunksOf(es, spans)[m..], Resume(spans, m)) == Some(Side(Edits(es), NEW))
    decreases |spans| - m
  {
    if m == |spans| {
      assert HunksOf(es, spans)[m..] == [];
      TailStep(es, spans);
    } else {
      HunkStep(es, spans, m);
      PatchFrom(es, spans, m + 1);
    }
  }

  /** Applying the hunks to one side gives the other. */
  lemma PatchForward(es: seq<Entry>, spans: seq<Span>, live: seq<string>, document: seq<string>)
    requires Transforms(Edits(es), live, document) && Positioned(es) && Groups(es, spans)
    ensures Apply(live, HunksOf(es, spans)) == Some(document)
  {
    PatchFrom(es, spans, 0);
    assert Edits(es[..0]) == [];
    assert HunksOf(es, spans)[0..] == HunksOf(es, spans);
    assert document[..0] == [];
  }

  // ---- the reverse direction -------------------------------------------------------------------

  function FlipOp(op: Op): Op {
    match op
    case Context => Context
    case Del => Ins
    case Ins => Del
  }

  function Flip(es: seq<Edit>): (r: seq<Edit>)
    ensures |r| == |es|
  {
    seq(|es|, k requires 0 <= k < |es| => Edit(FlipOp(es[k].op), es[k].text))
  }

  /** The same hunk read the other way: sides and signs exchanged. */
  function Reverse(h: Hunk): Hunk {
    Hunk(h.newStart, h.newCount, h.oldStart, h.oldCount, Flip(h.body))
  }

  function ReverseAll(hs: seq<Hunk>): (r: seq<Hunk>)
    ensures |r| == |hs|
  {
    seq(|hs|, k requires 0 <= k < |hs| => Reverse(hs[k]))
  }

  ghost function FlipScript(es: seq<Entry>): (r: seq<Entry>)
    ensures |r| == |es|
  {
    seq(|es|, k requires 0 <= k < |es| =>
      Entry(Edit(FlipOp(es[k].edit.op), es[k].edit.text), es[k].newPos, es[k].oldPos))
  }

  lemma {:induction false} FlipSides(es: seq<Edit>)
    ensures Side(Flip(es), OLD) == Side(es, NEW) && Side(Flip(es), NEW) == Side(es, OLD)
  {
    if es != [] {
      assert Flip(es)[1..] == Flip(es[1..]);
      FlipSides(es[1..]);
    }
  }

  lemma FlipSlice(es: seq<Entry>, a: nat, b: nat)
    requires a <= b <= |es|
    ensures Edits(FlipScript(es)[a..b]) == Flip(Edits(es[a..b]))
  {
    var x, y := Edits(FlipScript(es)[a..b]), Flip(Edits(es[a..b]));
    assert |x| == |y|;
    forall k | 0 <= k < b - a ensures x[k] == y[k] {
    }
  }

  lemma FlipPositioned(es: seq<Entry>)
    requires Positioned(es)
    ensures Positioned(FlipScript(es))
  {
    var r := FlipScript(es);
    forall k {:trigger r[k]} | 0 <= k < |r|
      ensures r[k].oldPos == |Side(Edits(r[..k]), OLD)| + 1 && r[k].newPos == |Side(Edits(r[..k]), NEW)| + 1
    {
      FlipSlice(es, 0, k);
      assert es[..k] == es[0..k] && r[..k] == r[0..k];
      FlipSides(Edits(es[..k]));
      assert es[k].oldPos == |Side(Edits(es[..k]), OLD)| + 1;
    }
  }

  lemma FlipGroups(es: seq<Entry>, spans: seq<Span>)
    requires Groups(es, spans)
    ensures Groups(FlipScript(es), spans)
  {
    var r := FlipScript(es);
    assert forall c :: Changed(es, c) <==> Changed(r, c);
    forall k | 0 <= k < |es| ensures Near(r, |r|, k) <==> Near(es, |es|, k) {
      if Near(es, |es|, k) {
        var c :| c < |es| && Changed(es, c) && c - CONTEXT <= k <= c + CONTEXT;
        assert Changed(r, c);
      }
      if Near(r, |r|, k) {
        var c :| c < |r| && Changed(r, c) && c - CONTEXT <= k <= c + CONTEXT;
        assert Changed(es, c);
      }
    }
  }

  lemma FlipHunk(es: seq<Entry>, s: Span)
    requires Positioned(es) && s.start < s.end <= |es|
    ensures HunkAt(FlipScript(es), s) == Reverse(HunkAt(es, s))
  {
    var r := FlipScript(es);
    FlipPositioned(es);
    HeaderIsTrue(es, s);
    HeaderIsTrue(r, s);
    FlipSlice(es, s.start, s.end);
    FlipSides(Edits(es[s.start..s.end]));
    FlipSlice(es, 0, s.start);
    assert es[..s.start] == es[0..s.start] && r[..s.start] == r[0..s.start];
    FlipSides(Edits(es[..s.start]));
  }

  /** Applying the hunks in reverse gives the first side back. */
  lemma PatchBackward(es: seq<Entry>, spans: seq<Span>, live: seq<string>, document: seq<string>)
    requires Transforms(Edits(es), live, document) && Positioned(es) && Groups(es, spans)
    ensures Apply(document, ReverseAll(HunksOf(es, spans))) == Some(live)
  {
    var r := FlipScript(es);
    FlipPositioned(es);
    FlipGroups(es, spans);
    assert Edits(r) == Flip(Edits(es));
    FlipSides(Edits(es));
    PatchForward(r, spans, document, live);
    forall m | 0 <= m < |spans| ensures HunksOf(r, spans)[m] == Reverse(HunksOf(es, spans)[m]) {
      FlipHunk(es, spans[m]);
    }
    assert HunksOf(r, spans) == ReverseAll(HunksOf(es, spans));
  }
}
