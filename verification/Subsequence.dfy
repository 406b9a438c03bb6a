/** Common subsequences: the reference notion the rule diff is measured against.

    A subsequence is given by an increasing list of positions; `Lcs` is the recurrence the diff's
    table tabulates. The two are connected by `LcsIsAttained` and `LcsIsGreatest`. */
module Subsequence {
  import opened Basics

  /** `c` is read off `s` at the strictly increasing positions `at`. */
  ghost predicate Embeds<T>(at: seq<nat>, c: seq<T>, s: seq<T>) {
    && |at| == |c|
    && (forall k :: 0 <= k < |at| ==> at[k] < |s| && s[at[k]] == c[k])
    && (forall a, b :: 0 <= a < b < |at| ==> at[a] < at[b])
  }

  ghost predicate IsSubsequence<T>(c: seq<T>, s: seq<T>) {
    exists at: seq<nat> :: Embeds(at, c, s)
  }

  /** The recurrence of the dynamic program, read on suffixes. */
  function Lcs<T(==)>(s: seq<T>, t: seq<T>): nat {
    if s == [] || t == [] then 0
    else if s[0] == t[0] then Lcs(s[1..], t[1..]) + 1
    else Max(Lcs(s[1..], t), Lcs(s, t[1..]))
  }

  /** Greedy matching decides the same relation as the position list. */
  predicate Matches<T(==)>(c: seq<T>, s: seq<T>) {
    c == [] || (s != [] && if c[0] == s[0] then Matches(c[1..], s[1..]) else Matches(c, s[1..]))
  }

  lemma {:induction false} MatchesEmbeds<T>(c: seq<T>, s: seq<T>) returns (at: seq<nat>)
    requires Matches(c, s)
    ensures Embeds(at, c, s)
  {
    if c == [] {
      at := [];
    } else if c[0] == s[0] {
      var rest := MatchesEmbeds(c[1..], s[1..]);
      at := [0] + seq(|rest|, k requires 0 <= k < |rest| => rest[k] + 1);
    } else {
      var rest := MatchesEmbeds(c, s[1..]);
      at := seq(|rest|, k requires 0 <= k < |rest| => rest[k] + 1);
    }
  }

  lemma {:induction false} EmbedsMatches<T>(at: seq<nat>, c: seq<T>, s: seq<T>)
    requires Embeds(at, c, s)
    ensures Matches(c, s)
    decreases |s|
  {
    if c != [] {
      assert at[0] < |s|;
      assert forall k :: 0 < k < |at| ==> at[0] < at[k];
      if c[0] == s[0] {
        // The first element may be matched at the head; the rest stays where it was.
        var rest := seq(|at| - 1, k requires 0 <= k < |at| - 1 => at[k + 1] - 1);
        assert Embeds(rest, c[1..], s[1..]);
        EmbedsMatches(rest, c[1..], s[1..]);
      } else {
        assert at[0] > 0;
        var rest := seq(|at|, k requires 0 <= k < |at| => if k == 0 then at[0] - 1 else at[k] - 1);
        assert Embeds(rest, c, s[1..]);
        EmbedsMatches(rest, c, s[1..]);
      }
    }
  }

  lemma {:induction false} MatchesDrop<T>(c: seq<T>, s: seq<T>)
    requires c != [] && Matches(c, s)
    ensures Matches(c[1..], s)
    decreases |s|
  {
    if c[0] == s[0] {
      if |c| > 1 {
        if c[1] == s[0] {
          MatchesDrop(c[1..], s[1..]);
        }
      }
    } else {
      MatchesDrop(c, s[1..]);
      if |c| > 1 && c[1] == s[0] {
        MatchesDrop(c[1..], s[1..]);
      }
    }
  }

  lemma {:induction false} LcsBound<T>(c: seq<T>, s: seq<T>, t: seq<T>)
    requires Matches(c, s) && Matches(c, t)
    ensures |c| <= Lcs(s, t)
    decreases |s| + |t|
  {
    if c != [] {
      if s[0] == t[0] {
        if c[0] == s[0] {
          LcsBound(c[1..], s[1..], t[1..]);
        } else {
          LcsBound(c, s[1..], t[1..]);
        }
      } else if c[0] == s[0] {
        LcsBound(c, s, t[1..]);
      } else {
        LcsBound(c, s[1..], t);
      }
    }
  }

  /** No common subsequence is longer than the recurrence says. */
  lemma LcsIsGreatest<T>(c: seq<T>, s: seq<T>, t: seq<T>)
    requires IsSubsequence(c, s) && IsSubsequence(c, t)
    ensures |c| <= Lcs(s, t)
  {
    var a :| Embeds(a, c, s);
    var b :| Embeds(b, c, t);
    EmbedsMatches(a, c, s);
    EmbedsMatches(b, c, t);
    LcsBound(c, s, t);
  }

  lemma {:induction false} LcsWitness<T>(s: seq<T>, t: seq<T>) returns (c: seq<T>)
    ensures |c| == Lcs(s, t) && Matches(c, s) && Matches(c, t)
    decreases |s| + |t|
  {
    if s == [] || t == [] {
      c := [];
    } else if s[0] == t[0] {
      c := LcsWitness(s[1..], t[1..]);
      c := [s[0]] + c;
    } else if Lcs(s[1..], t) >= Lcs(s, t[1..]) {
      c := LcsWitness(s[1..], t);
      MatchesCons(c, s);
    } else {
      c := LcsWitness(s, t[1..]);
      MatchesCons(c, t);
    }
  }

  lemma MatchesCons<T>(c: seq<T>, s: seq<T>)
    requires s != [] && Matches(c, s[1..])
    ensures Matches(c, s)
  {
    if c != [] {
      MatchesDrop(c, s[1..]);
    }
  }

  /** Some common subsequence is exactly as long as the recurrence says. */
  lemma LcsIsAttained<T>(s: seq<T>, t: seq<T>)
    ensures exists c: seq<T> :: |c| == Lcs(s, t) && IsSubsequence(c, s) && IsSubsequence(c, t)
  {
    var c := LcsWitness(s, t);
    var a := MatchesEmbeds(c, s);
    var b := MatchesEmbeds(c, t);
    assert IsSubsequence(c, s) && IsSubsequence(c, t);
  }

  lemma LcsMonotone<T>(s: seq<T>, t: seq<T>)
    requires t != []
    ensures Lcs(s, t[1..]) <= Lcs(s, t)
  {
    var c := LcsWitness(s, t[1..]);
    MatchesCons(c, t);
    LcsBound(c, s, t);
  }
}
