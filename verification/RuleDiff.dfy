/** The edit script of `unified_rule_diff`: the bottom-up table and the two-index walk over it. */
module RuleDiff {
  import opened Basics
  import opened Subsequence

  datatype Op = Context | Del | Ins

  /** One printed line: its sign and its text. */
  datatype Edit = Edit(op: Op, text: string)

  /** A script entry and the line numbers reached on either side when it was emitted. */
  datatype Entry = Entry(edit: Edit, oldPos: nat, newPos: nat)

  function Edits(es: seq<Entry>): (r: seq<Edit>)
    ensures |r| == |es|
  {
    seq(|es|, k requires 0 <= k < |es| => es[k].edit)
  }

  /** The lines of the sides on which `ops` put a line, in order. */
  function Side(es: seq<Edit>, ops: set<Op>): seq<string> {
    if es == [] then []
    else (if es[0].op in ops then [es[0].text] else []) + Side(es[1..], ops)
  }

  const OLD: set<Op> := {Context, Del}
  const NEW: set<Op> := {Context, Ins}

  function Changes(es: seq<Edit>): nat {
    if es == [] then 0
    else (if es[0].op == Context then 0 else 1) + Changes(es[1..])
  }

  lemma {:induction false} SideConcat(a: seq<Edit>, b: seq<Edit>, ops: set<Op>)
    ensures Side(a + b, ops) == Side(a, ops) + Side(b, ops)
  {
    if a == [] {
      assert a + b == b;
    } else {
      assert (a + b)[1..] == a[1..] + b;
      SideConcat(a[1..], b, ops);
    }
  }

  lemma SidePush(a: seq<Edit>, e: Edit, ops: set<Op>)
    ensures Side(a + [e], ops) == if e.op in ops then Side(a, ops) + [e.text] else Side(a, ops)
  {
    SideConcat(a, [e], ops);
  }

  /** A script turns `live` into `new` when it lists each side exactly once and in order. */
  ghost predicate Transforms(es: seq<Edit>, live: seq<string>, document: seq<string>) {
    Side(es, OLD) == live && Side(es, NEW) == document
  }

  /** Every entry sits directly after the lines the earlier entries used on each side. */
  ghost predicate Positioned(es: seq<Entry>) {
    forall k {:trigger es[k]} :: 0 <= k < |es| ==>
      && es[k].oldPos == |Side(Edits(es[..k]), OLD)| + 1
      && es[k].newPos == |Side(Edits(es[..k]), NEW)| + 1
  }

  /** A replaced line reads as its deletion and then its insertion, never the other way round. */
  ghost predicate DeletionsFirst(es: seq<Entry>) {
    forall k {:trigger es[k]} :: 0 <= k < |es| - 1 && es[k].edit.op == Ins ==> es[k + 1].edit.op != Del
  }

  // ---- minimality ------------------------------------------------------------------------------

  lemma {:induction false} ContextIsCommon(es: seq<Edit>, ops: set<Op>)
    requires Context in ops
    ensures Matches(Side(es, {Context}), Side(es, ops))
  {
    if es != [] {
      ContextIsCommon(es[1..], ops);
      var c, s := Side(es[1..], {Context}), Side(es[1..], ops);
      if es[0].op == Context {
        assert Side(es, {Context})[1..] == c && Side(es, ops)[1..] == s;
      } else if es[0].op in ops {
        assert Side(es, {Context}) == c && Side(es, ops)[1..] == s;
        MatchesCons(c, Side(es, ops));
      } else {
        assert Side(es, {Context}) == c && Side(es, ops) == s;
      }
    }
  }

  lemma {:induction false} ChangesCount(es: seq<Edit>)
    ensures Changes(es) + 2 * |Side(es, {Context})| == |Side(es, OLD)| + |Side(es, NEW)|
  {
    if es != [] {
      ChangesCount(es[1..]);
    }
  }

  /** The fewest insertions plus deletions any script needs. */
  lemma ScriptLowerBound(es: seq<Edit>, live: seq<string>, document: seq<string>)
    requires Transforms(es, live, document)
    ensures Changes(es) >= |live| + |document| - 2 * Lcs(live, document)
  {
    ContextIsCommon(es, OLD);
    ContextIsCommon(es, NEW);
    LcsBound(Side(es, {Context}), live, document);
    ChangesCount(es);
  }

  // ---- the table -------------------------------------------------------------------------------

  /** Each cell is the answer for the two suffixes that start at its indexes. */
  ghost predicate Tabulates(table: array2<nat>, live: seq<string>, document: seq<string>)
    reads table
  {
    && table.Length0 == |live| + 1 && table.Length1 == |document| + 1
    && forall i, j {:trigger table[i, j]} :: 0 <= i <= |live| && 0 <= j <= |document| ==>
      table[i, j] == Lcs(live[i..], document[j..])
  }

  method FillTable(live: seq<string>, document: seq<string>) returns (table: array2<nat>)
    ensures fresh(table) && Tabulates(table, live, document)
  {
    hide Lcs;
    table := new nat[|live| + 1, |document| + 1]((i, j) => 0);
    EmptySuffixes(live, document);
    var i := |live|;
    while i > 0
      invariant 0 <= i <= |live|
      invariant forall a, b :: i <= a <= |live| && 0 <= b <= |document| ==> table[a, b] == Lcs(live[a..], document[b..])
      invariant forall a :: 0 <= a < i ==> table[a, |document|] == 0
    {
      i := i - 1;
      var j := |document|;
      while j > 0
        invariant 0 <= j <= |document|
        invariant forall a, b :: i < a <= |live| && 0 <= b <= |document| ==>
          table[a, b] == Lcs(live[a..], document[b..])
        invariant forall b :: j <= b <= |document| ==> table[i, b] == Lcs(live[i..], document[b..])
        invariant forall a :: 0 <= a < i ==> table[a, |document|] == 0
      {
        j := j - 1;
        CellRecurrence(live, document, i, j);
        table[i, j] :=
          if live[i] == document[j] then table[i + 1, j + 1] + 1
          else Max(table[i + 1, j], table[i, j + 1]);
      }
    }
  }

  /** Past the end of either side there is nothing in common. */
  lemma EmptySuffixes(live: seq<string>, document: seq<string>)
    ensures forall j :: 0 <= j <= |document| ==> Lcs(live[|live|..], document[j..]) == 0
    ensures forall i :: 0 <= i <= |live| ==> Lcs(live[i..], document[|document|..]) == 0
  {
  }

  lemma CellRecurrence(live: seq<string>, document: seq<string>, i: nat, j: nat)
    requires i < |live| && j < |document|
    ensures Lcs(live[i..], document[j..]) ==
            if live[i] == document[j] then Lcs(live[i + 1..], document[j + 1..]) + 1
            else Max(Lcs(live[i + 1..], document[j..]), Lcs(live[i..], document[j + 1..]))
  {
    assert live[i..][1..] == live[i + 1..];
    assert document[j..][1..] == document[j + 1..];
  }

  // ---- the walk --------------------------------------------------------------------------------

  /** What the walk has done after consuming `live[..i]` and `new[..j]`. */
  ghost predicate Walked(script: seq<Entry>, live: seq<string>, document: seq<string>, i: nat, j: nat) {
    && i <= |live| && j <= |document|
    && Transforms(Edits(script), live[..i], document[..j])
    && Positioned(script)
    && DeletionsFirst(script)
    && |Side(Edits(script), {Context})| + Lcs(live[i..], document[j..]) == Lcs(live, document)
    && (script != [] && script[|script| - 1].edit.op == Ins ==> InsertionLeads(live, document, i, j))
  }

  /** After an insertion the walk does not take a deletion next. */
  ghost predicate InsertionLeads(live: seq<string>, document: seq<string>, i: nat, j: nat)
    requires i <= |live| && j <= |document|
  {
    i < |live| ==>
      && j < |document|
      && (live[i] == document[j] || Lcs(live[i + 1..], document[j..]) < Lcs(live[i..], document[j + 1..]))
  }

  lemma PositionedPush(script: seq<Entry>, e: Entry)
    requires Positioned(script)
    requires e.oldPos == |Side(Edits(script), OLD)| + 1 && e.newPos == |Side(Edits(script), NEW)| + 1
    ensures Positioned(script + [e])
  {
    var s' := script + [e];
    forall k {:trigger s'[k]} | 0 <= k < |s'|
      ensures s'[k].oldPos == |Side(Edits(s'[..k]), OLD)| + 1
      ensures s'[k].newPos == |Side(Edits(s'[..k]), NEW)| + 1
    {
      if k < |script| {
        assert s'[..k] == script[..k] && s'[k] == script[k];
      } else {
        assert s'[..k] == script;
      }
    }
  }

  lemma DeletionsFirstPush(script: seq<Entry>, e: Entry)
    requires DeletionsFirst(script)
    requires script != [] && script[|script| - 1].edit.op == Ins ==> e.edit.op != Del
    ensures DeletionsFirst(script + [e])
  {
  }

  lemma TransformsPush(es: seq<Edit>, e: Edit, live: seq<string>, document: seq<string>, i: nat, j: nat)
    requires i <= |live| && j <= |document| && Transforms(es, live[..i], document[..j])
    requires e.op in OLD ==> i < |live| && e.text == live[i]
    requires e.op in NEW ==> j < |document| && e.text == document[j]
    ensures Transforms(es + [e], live[..if e.op in OLD then i + 1 else i], document[..if e.op in NEW then j + 1 else j])
  {
    SidePush(es, e, OLD);
    SidePush(es, e, NEW);
    if e.op in OLD {
      assert live[..i + 1] == live[..i] + [live[i]];
    }
    if e.op in NEW {
      assert document[..j + 1] == document[..j] + [document[j]];
    }
  }

  lemma WalkPush(
    script: seq<Entry>, e: Entry, live: seq<string>, document: seq<string>, i: nat, j: nat, i': nat, j': nat)
    requires Walked(script, live, document, i, j)
    requires i' == (if e.edit.op in OLD then i + 1 else i) <= |live|
    requires j' == (if e.edit.op in NEW then j + 1 else j) <= |document|
    requires e.oldPos == i + 1 && e.newPos == j + 1
    requires e.edit.op in OLD ==> e.edit.text == live[i]
    requires e.edit.op in NEW ==> e.edit.text == document[j]
    requires Lcs(live[i..], document[j..]) == Lcs(live[i'..], document[j'..]) + if e.edit.op == Context then 1 else 0
    requires script != [] && script[|script| - 1].edit.op == Ins ==> e.edit.op != Del
    requires e.edit.op == Ins ==> InsertionLeads(live, document, i', j')
    ensures Walked(script + [e], live, document, i', j')
  {
    assert Edits(script + [e]) == Edits(script) + [e.edit];
    TransformsPush(Edits(script), e.edit, live, document, i, j);
    SidePush(Edits(script), e.edit, {Context});
    PositionedPush(script, e);
    DeletionsFirstPush(script, e);
  }

  lemma InsertionStep(live: seq<string>, document: seq<string>, i: nat, j: nat)
    requires i < |live| && j < |document| && live[i] != document[j]
    requires Lcs(live[i + 1..], document[j..]) < Lcs(live[i..], document[j + 1..])
    ensures InsertionLeads(live, document, i, j + 1)
  {
    if j + 1 < |document| {
      assert document[j..][1..] == document[j + 1..];
      LcsMonotone(live[i + 1..], document[j..]);
      CellRecurrence(live, document, i, j + 1);
    }
  }

  lemma StepContext(script: seq<Entry>, live: seq<string>, document: seq<string>, i: nat, j: nat)
    requires Walked(script, live, document, i, j) && i < |live| && j < |document|
    requires live[i] == document[j]
    ensures Walked(script + [Entry(Edit(Context, live[i]), i + 1, j + 1)], live, document, i + 1, j + 1)
  {
    CellRecurrence(live, document, i, j);
    WalkPush(script, Entry(Edit(Context, live[i]), i + 1, j + 1), live, document, i, j, i + 1, j + 1);
  }

  lemma StepDel(script: seq<Entry>, live: seq<string>, document: seq<string>, i: nat, j: nat)
    requires Walked(script, live, document, i, j) && i < |live|
    requires j < |document| ==> live[i] != document[j]
    requires Lcs(live[i + 1..], document[j..]) >= if j < |document| then Lcs(live[i..], document[j + 1..]) else 0
    ensures Walked(script + [Entry(Edit(Del, live[i]), i + 1, j + 1)], live, document, i + 1, j)
  {
    if j < |document| {
      CellRecurrence(live, document, i, j);
    }
    WalkPush(script, Entry(Edit(Del, live[i]), i + 1, j + 1), live, document, i, j, i + 1, j);
  }

  lemma StepIns(script: seq<Entry>, live: seq<string>, document: seq<string>, i: nat, j: nat)
    requires Walked(script, live, document, i, j) && j < |document|
    requires i < |live| ==>
      live[i] != document[j] && Lcs(live[i + 1..], document[j..]) < Lcs(live[i..], document[j + 1..])
    ensures Walked(script + [Entry(Edit(Ins, document[j]), i + 1, j + 1)], live, document, i, j + 1)
  {
    if i < |live| {
      CellRecurrence(live, document, i, j);
      InsertionStep(live, document, i, j);
    }
    WalkPush(script, Entry(Edit(Ins, document[j]), i + 1, j + 1), live, document, i, j, i, j + 1);
  }

  /** The walk while both sides have lines left, steered by the table. */
  method WalkTable(lcs: array2<nat>, live: seq<string>, document: seq<string>)
    returns (script: seq<Entry>, i: nat, j: nat)
    requires Tabulates(lcs, live, document)
    ensures Walked(script, live, document, i, j)
    ensures i == |live| || j == |document|
  {
    script := [];
    i, j := 0, 0;
    while i < |live| && j < |document|
      invariant Walked(script, live, document, i, j)
      decreases |live| - i + |document| - j
    {
      if live[i] == document[j] {
        StepContext(script, live, document, i, j);
        script := script + [Entry(Edit(Context, live[i]), i + 1, j + 1)];
        i, j := i + 1, j + 1;
      } else if lcs[i + 1, j] >= lcs[i, j + 1] {
        StepDel(script, live, document, i, j);
        script := script + [Entry(Edit(Del, live[i]), i + 1, j + 1)];
        i := i + 1;
      } else {
        StepIns(script, live, document, i, j);
        script := script + [Entry(Edit(Ins, document[j]), i + 1, j + 1)];
        j := j + 1;
      }
    }
  }

  /** The script of the walk: it transforms one side into the other, keeps a longest common
      subsequence as context, and reads deletions before insertions. */
  method EditScript(live: seq<string>, document: seq<string>) returns (script: seq<Entry>)
    ensures Transforms(Edits(script), live, document)
    ensures Positioned(script)
    ensures DeletionsFirst(script)
    ensures |Side(Edits(script), {Context})| == Lcs(live, document)
  {
    hide Transforms, Positioned, DeletionsFirst, Side, Edits, Lcs;
    var lcs := FillTable(live, document);
    var i, j;
    script, i, j := WalkTable(lcs, live, document);
    while i < |live|
      invariant Walked(script, live, document, i, j)
      invariant i < |live| ==> j == |document|
    {
      StepDel(script, live, document, i, j);
      script := script + [Entry(Edit(Del, live[i]), i + 1, j + 1)];
      i := i + 1;
    }
    while j < |document|
      invariant Walked(script, live, document, i, j)
      invariant i == |live|
    {
      StepIns(script, live, document, i, j);
      script := script + [Entry(Edit(Ins, document[j]), i + 1, j + 1)];
      j := j + 1;
    }
    WalkDone(script, live, document);
  }

  lemma WalkDone(script: seq<Entry>, live: seq<string>, document: seq<string>)
    requires Walked(script, live, document, |live|, |document|)
    ensures Transforms(Edits(script), live, document) && Positioned(script) && DeletionsFirst(script)
    ensures |Side(Edits(script), {Context})| == Lcs(live, document)
  {
    assert live[..|live|] == live && document[..|document|] == document;
  }

  /** A script that keeps as many lines as the walk does is at least as short as any other. */
  lemma ScriptIsMinimal(es: seq<Edit>, other: seq<Edit>, live: seq<string>, document: seq<string>)
    requires Transforms(es, live, document) && |Side(es, {Context})| == Lcs(live, document)
    requires Transforms(other, live, document)
    ensures Changes(es) <= Changes(other)
  {
    ChangesCount(es);
    ScriptLowerBound(other, live, document);
  }
}
