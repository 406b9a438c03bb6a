/** Grouping a script into hunks, reading the headers off it, and applying the printed hunks. */
module Hunks {
  import opened Basics
  import opened RuleDiff

  /** Lines of surrounding context. */
  const CONTEXT: nat := 1

  /** A half-open range of script positions. */
  datatype Span = Span(start: nat, end: nat)

  /** A printed hunk: the four header numbers and the lines below them. */
  datatype Hunk = Hunk(oldStart: nat, oldCount: nat, newStart: nat, newCount: nat, body: seq<Edit>)

  // ---- the partition ---------------------------------------------------------------------------

  predicate Changed(es: seq<Entry>, k: int) {
    0 <= k < |es| && es[k].edit.op != Context
  }

  /** Position `k` is within CONTEXT of a change at one of the first `upto` positions. */
  ghost predicate Near(es: seq<Entry>, upto: int, k: int) {
    exists c {:trigger Changed(es, c)} :: c < upto && Changed(es, c) && c - CONTEXT <= k <= c + CONTEXT
  }

  ghost predicate Covered(spans: seq<Span>, k: int) {
    exists m :: 0 <= m < |spans| && spans[m].start <= k < spans[m].end
  }

  /** Nonempty, in bounds, in order, and separated by at least one position. */
  ghost predicate Separated(spans: seq<Span>, bound: nat) {
    && (forall m :: 0 <= m < |spans| ==> spans[m].start < spans[m].end <= bound)
    && (forall a, b :: 0 <= a < b < |spans| ==> spans[a].end < spans[b].start)
  }

  /** The spans are exactly the maximal runs of positions within CONTEXT of a change. */
  ghost predicate Groups(es: seq<Entry>, spans: seq<Span>) {
    && Separated(spans, |es|)
    && (forall k :: 0 <= k < |es| ==> (Covered(spans, k) <==> Near(es, |es|, k)))
  }

  /** Widening every changed position by CONTEXT and merging overlaps. */
  method GroupHunks(es: seq<Entry>) returns (spans: seq<Span>)
    ensures Groups(es, spans)
  {
    hide Separated, Covered, Near;
    spans := [];
    NothingNear(es);
    for idx := 0 to |es|
      invariant Separated(spans, |es|)
      invariant forall k :: 0 <= k < |es| ==> (Covered(spans, k) <==> Near(es, idx, k))
      invariant spans != [] ==>
        spans[|spans| - 1].end <= idx + CONTEXT && spans[|spans| - 1].start <= SaturatingSub(idx, CONTEXT)
    {
      if es[idx].edit.op == Context {
        NearUnchanged(es, idx);
        continue;
      }
      var start := SaturatingSub(idx, CONTEXT);
      var end := Min(idx + CONTEXT + 1, |es|);
      ghost var before := spans;
      if spans != [] && spans[|spans| - 1].end >= start {
        var last := spans[|spans| - 1];
        spans := spans[|spans| - 1 := Span(last.start, if end >= last.end then end else last.end)];
        MergedCover(before, spans, start, end);
        MergedSeparated(before, spans, end, |es|);
      } else {
        spans := spans + [Span(start, end)];
        PushedCover(before, spans, start, end);
        PushedSeparated(before, spans, start, end, |es|);
      }
      CoverStep(es, before, spans, idx);
    }
  }

  lemma NearUnchanged(es: seq<Entry>, idx: nat)
    requires idx < |es| && es[idx].edit.op == Context
    ensures forall k :: Near(es, idx + 1, k) <==> Near(es, idx, k)
  {
    forall k ensures Near(es, idx + 1, k) <==> Near(es, idx, k) {
      if Near(es, idx + 1, k) {
        var c :| c < idx + 1 && Changed(es, c) && c - CONTEXT <= k <= c + CONTEXT;
        assert c != idx;
      }
    }
  }

  lemma NearChanged(es: seq<Entry>, idx: nat)
    requires idx < |es| && es[idx].edit.op != Context
    ensures forall k :: Near(es, idx + 1, k) <==> Near(es, idx, k) || idx - CONTEXT <= k <= idx + CONTEXT
  {
    assert Changed(es, idx);
    forall k ensures Near(es, idx + 1, k) <==> Near(es, idx, k) || idx - CONTEXT <= k <= idx + CONTEXT {
      if Near(es, idx + 1, k) {
        var c :| c < idx + 1 && Changed(es, c) && c - CONTEXT <= k <= c + CONTEXT;
        assert c < idx || c == idx;
      }
    }
  }

  lemma NothingNear(es: seq<Entry>)
    ensures Separated([], |es|) && forall k :: !Covered([], k) && !Near(es, 0, k)
  {
  }

  lemma PushedSeparated(before: seq<Span>, after: seq<Span>, start: nat, end: nat, bound: nat)
    requires Separated(before, bound) && after == before + [Span(start, end)] && start < end <= bound
    requires before != [] ==> before[|before| - 1].end < start
    ensures Separated(after, bound)
  {
  }

  lemma MergedSeparated(before: seq<Span>, after: seq<Span>, end: nat, bound: nat)
    requires Separated(before, bound) && before != [] && end <= bound
    requires after == before[|before| - 1 := Span(before[|before| - 1].start,
      if end >= before[|before| - 1].end then end else before[|before| - 1].end)]
    ensures Separated(after, bound)
  {
  }

  lemma CoverStep(es: seq<Entry>, before: seq<Span>, after: seq<Span>, idx: nat)
    requires idx < |es| && es[idx].edit.op != Context
    requires forall k :: 0 <= k < |es| ==> (Covered(before, k) <==> Near(es, idx, k))
    requires forall k :: Covered(after, k) <==>
      Covered(before, k) || SaturatingSub(idx, CONTEXT) <= k < Min(idx + CONTEXT + 1, |es|)
    ensures forall k :: 0 <= k < |es| ==> (Covered(after, k) <==> Near(es, idx + 1, k))
  {
    NearChanged(es, idx);
    forall k | 0 <= k < |es| ensures Covered(after, k) <==> Near(es, idx + 1, k) {
      assert Covered(after, k) <==>
        Covered(before, k) || SaturatingSub(idx, CONTEXT) <= k < Min(idx + CONTEXT + 1, |es|);
      assert Covered(before, k) <==> Near(es, idx, k);
    }
  }

  lemma PushedCover(before: seq<Span>, after: seq<Span>, start: nat, end: nat)
    requires after == before + [Span(start, end)]
    ensures forall k :: Covered(after, k) <==> Covered(before, k) || start <= k < end
  {
    assert after[|before|] == Span(start, end);
    forall k ensures Covered(after, k) <==> Covered(before, k) || start <= k < end {
      if Covered(before, k) {
        var m :| 0 <= m < |before| && before[m].start <= k < before[m].end;
        assert after[m] == before[m];
      }
    }
  }

  lemma MergedCover(before: seq<Span>, after: seq<Span>, start: nat, end: nat)
    requires before != []
    requires before[|before| - 1].start <= start <= before[|before| - 1].end
    requires after == before[|before| - 1 := Span(before[|before| - 1].start,
      if end >= before[|before| - 1].end then end else before[|before| - 1].end)]
    ensures forall k :: Covered(after, k) <==> Covered(before, k) || start <= k < end
  {
    var n := |before| - 1;
    forall k ensures Covered(after, k) <==> Covered(before, k) || start <= k < end {
      if Covered(before, k) {
        var m :| 0 <= m < |before| && before[m].start <= k < before[m].end;
        assert after[m].start <= k < after[m].end;
      }
      if start <= k < end {
        assert after[n].start <= k < after[n].end;
      }
      if Covered(after, k) {
        var m :| 0 <= m < |after| && after[m].start <= k < after[m].end;
        assert m < n ==> before[m].start <= k < before[m].end;
        assert m == n ==> before[n].start <= k < before[n].end || start <= k < end;
      }
    }
  }

  /** Every position outside all hunks is context. */
  lemma OutsideIsContext(es: seq<Entry>, spans: seq<Span>, k: int)
    requires Groups(es, spans) && 0 <= k < |es| && !Covered(spans, k)
    ensures es[k].edit.op == Context
  {
    assert Changed(es, k) ==> Near(es, |es|, k);
  }

  /** A hunk holds a change within CONTEXT of its first line and one within CONTEXT of its last. */
  lemma HunkEdges(es: seq<Entry>, spans: seq<Span>, m: nat)
    requires Groups(es, spans) && m < |spans|
    ensures exists c :: spans[m].start <= c <= spans[m].start + CONTEXT && c < spans[m].end && Changed(es, c)
    ensures exists c :: spans[m].end - 1 - CONTEXT <= c < spans[m].end && spans[m].start <= c && Changed(es, c)
  {
    var s := spans[m];
    EdgeChange(es, spans, m, s.start);
    EdgeChange(es, spans, m, s.end - 1);
  }

  lemma EdgeChange(es: seq<Entry>, spans: seq<Span>, m: nat, k: nat)
    requires Groups(es, spans) && m < |spans| && spans[m].start <= k < spans[m].end
    ensures exists c :: k - CONTEXT <= c <= k + CONTEXT && spans[m].start <= c < spans[m].end && Changed(es, c)
  {
    assert Covered(spans, k);
    var c :| c < |es| && Changed(es, c) && c - CONTEXT <= k <= c + CONTEXT;
    assert Near(es, |es|, c);
    // A neighbouring position in another hunk would leave no gap between the two.
    var n :| 0 <= n < |spans| && spans[n].start <= c < spans[n].end;
  }

  /** Hunks are maximal: the positions just before and just after one belong to none. */
  lemma Maximal(spans: seq<Span>, bound: nat, m: nat)
    requires Separated(spans, bound) && m < |spans|
    ensures !Covered(spans, spans[m].start - 1) && !Covered(spans, spans[m].end)
  {
    assert forall n :: 0 <= n < m ==> spans[n].end < spans[m].start;
    assert forall n :: m < n < |spans| ==> spans[m].end < spans[n].start;
  }

  lemma GroupsShare(es: seq<Entry>, a: seq<Span>, b: seq<Span>, m: nat)
    requires Groups(es, a) && Groups(es, b) && m < |a|
    ensures a[m] in b
  {
    var s := a[m];
    Maximal(a, |es|, m);
    assert Covered(a, s.start);
    assert Covered(b, s.start) by { assert Near(es, |es|, s.start); }
    var n :| 0 <= n < |b| && b[n].start <= s.start < b[n].end;
    Maximal(b, |es|, n);
    assert s.start > 0 ==> !Covered(b, s.start - 1) by {
      assert s.start > 0 ==> !Near(es, |es|, s.start - 1);
    }
    assert s.end < |es| ==> !Covered(b, s.end) by {
      assert s.end < |es| ==> !Near(es, |es|, s.end);
    }
    assert b[n].end < |es| ==> !Covered(a, b[n].end) by {
      assert b[n].end < |es| ==> !Near(es, |es|, b[n].end);
    }
    assert b[n].start == s.start;
    assert b[n].end == s.end;
  }

  /** A span shared by two partitions that agree so far comes no earlier in the other. */
  lemma SharedLater(a: seq<Span>, b: seq<Span>, bound: nat, m: nat) returns (n: nat)
    requires Separated(a, bound) && Separated(b, bound) && m < |a| && m <= |b| && a[..m] == b[..m] && a[m] in b
    ensures m <= n < |b| && b[n] == a[m]
  {
    n :| 0 <= n < |b| && b[n] == a[m];
    assert forall i {:trigger b[i]} :: 0 <= i < m ==> b[i] == b[..m][i] == a[..m][i] && b[i].end < a[m].start;
  }

  /** Two groupings agree hunk by hunk. */
  lemma {:induction false} GroupsAgree(es: seq<Entry>, a: seq<Span>, b: seq<Span>, m: nat)
    requires Groups(es, a) && Groups(es, b) && m < |a|
    ensures m < |b| && a[..m + 1] == b[..m + 1]
  {
    hide Covered, Near;
    if m > 0 {
      GroupsAgree(es, a, b, m - 1);
    }
    GroupsShare(es, a, b, m);
    var n := SharedLater(a, b, |es|, m);
    GroupsShare(es, b, a, m);
    var j := SharedLater(b, a, |es|, m);
    assert a[m] == b[m];
    assert a[..m + 1] == a[..m] + [a[m]] && b[..m + 1] == b[..m] + [b[m]];
  }

  /** The grouping is determined by the script. */
  lemma GroupsUnique(es: seq<Entry>, a: seq<Span>, b: seq<Span>)
    requires Groups(es, a) && Groups(es, b)
    ensures a == b
  {
    hide Covered, Near;
    if a != [] {
      GroupsAgree(es, a, b, |a| - 1);
    }
    if b != [] {
      GroupsAgree(es, b, a, |b| - 1);
    }
    assert a == a[..|a|] && b == b[..|b|];
  }
}
