/** `prepared_view_is_valid`: equal counts and distinct indexes are enough for a bijection. Parsing a
    corpus and rebuilding a set's snapshot are parameters. */
module PreparedView {
  import opened Basics

  datatype Selector =
    | SetMember(provider: string, name: string, digest: Option<string>)
    | OtherSelector

  datatype Snapshot = Snapshot(ruleIndex: nat, provider: string, name: string, digest: string, members: seq<string>)

  /** What the daemon answers to a request to prepare a text. */
  datatype Prepared = Prepared(text: string, digest: string, ruleCount: nat, snapshots: seq<Snapshot>)

  /** What `analyze_body` finds in a text: its selectors, its digest, and whether it is canonical. */
  datatype Analysis = Analysis(rules: seq<Selector>, digest: string, canonical: bool)

  /** The digest and the members of a set's canonical expansion, if its names are well-formed. */
  type Rebuild = (string, string, seq<string>) -> Option<(string, seq<string>)>

  function SetCount(rules: seq<Selector>): nat {
    if rules == [] then 0
    else SetCount(rules[..|rules| - 1]) + if rules[|rules| - 1].SetMember? then 1 else 0
  }

  /** A snapshot is the pinned expansion of this rule. */
  predicate Pins(s: Snapshot, rule: Selector, rebuild: Rebuild) {
    && rule == SetMember(s.provider, s.name, Some(s.digest))
    && rebuild(s.provider, s.name, s.members) == Some((s.digest, s.members))
  }

  predicate PinsItsRule(s: Snapshot, rules: seq<Selector>, rebuild: Rebuild) {
    s.ruleIndex < |rules| && Pins(s, rules[s.ruleIndex], rebuild)
  }

  ghost predicate Distinct(snapshots: seq<Snapshot>) {
    forall i, j :: 0 <= i < j < |snapshots| ==> snapshots[i].ruleIndex != snapshots[j].ruleIndex
  }

  ghost predicate Covers(snapshots: seq<Snapshot>, i: nat) {
    exists k :: 0 <= k < |snapshots| && snapshots[k].ruleIndex == i
  }

  /** Every snapshot pins its rule, no rule has two, and every set rule has one. */
  ghost predicate OneToOne(snapshots: seq<Snapshot>, rules: seq<Selector>, rebuild: Rebuild) {
    && (forall s :: s in snapshots ==> PinsItsRule(s, rules, rebuild))
    && Distinct(snapshots)
    && (forall i: nat :: i < |rules| && rules[i].SetMember? ==> Covers(snapshots, i))
  }

  function SetIndexes(rules: seq<Selector>): (r: set<nat>)
  {
    set i: nat | i < |rules| && rules[i].SetMember?
  }

  function Indexes(snapshots: seq<Snapshot>): set<nat> {
    set s | s in snapshots :: s.ruleIndex
  }

  lemma {:induction false} CountIsCardinality(rules: seq<Selector>)
    ensures |SetIndexes(rules)| == SetCount(rules)
  {
    if rules != [] {
      var n := |rules| - 1;
      CountIsCardinality(rules[..n]);
      if rules[n].SetMember? {
        assert SetIndexes(rules) == SetIndexes(rules[..n]) + {n};
      } else {
        assert SetIndexes(rules) == SetIndexes(rules[..n]);
      }
    }
  }

  lemma {:induction false} DistinctCardinality(snapshots: seq<Snapshot>)
    requires Distinct(snapshots)
    ensures |Indexes(snapshots)| == |snapshots|
  {
    if snapshots != [] {
      var n := |snapshots| - 1;
      DistinctCardinality(snapshots[..n]);
      assert snapshots == snapshots[..n] + [snapshots[n]];
      assert Indexes(snapshots) == Indexes(snapshots[..n]) + {snapshots[n].ruleIndex};
    }
  }

  lemma SameSizeSubset(a: set<nat>, b: set<nat>)
    requires a <= b && |a| == |b|
    ensures a == b
  {
    assert b == a + (b - a);
  }

  /** The pigeonhole step, both ways: among distinct snapshots that pin their rules, there are as many
      as set rules exactly when every set rule has one. */
  lemma CountsMeanCovered(snapshots: seq<Snapshot>, rules: seq<Selector>, rebuild: Rebuild)
    requires Distinct(snapshots) && forall s :: s in snapshots ==> PinsItsRule(s, rules, rebuild)
    ensures SetCount(rules) == |snapshots| <==> OneToOne(snapshots, rules, rebuild)
  {
    CountIsCardinality(rules);
    DistinctCardinality(snapshots);
    var a, b := Indexes(snapshots), SetIndexes(rules);
    assert a <= b;
    if |a| == |b| {
      SameSizeSubset(a, b);
      forall i: nat | i < |rules| && rules[i].SetMember? ensures Covers(snapshots, i) {
        assert i in a;
      }
    }
    if OneToOne(snapshots, rules, rebuild) {
      forall i | i in b ensures i in a {
        assert Covers(snapshots, i);
      }
      assert a == b;
    }
  }

  /** The scan over the snapshots, with the indexes seen so far. */
  method AllPin(snapshots: seq<Snapshot>, rules: seq<Selector>, rebuild: Rebuild) returns (ok: bool)
    ensures ok <==> Distinct(snapshots) && forall s :: s in snapshots ==> PinsItsRule(s, rules, rebuild)
  {
    var seen: set<nat> := {};
    ok := true;
    var k := 0;
    while ok && k < |snapshots|
      invariant k <= |snapshots|
      invariant ok ==> seen == Indexes(snapshots[..k]) && Distinct(snapshots[..k])
      invariant ok ==> forall s :: s in snapshots[..k] ==> PinsItsRule(s, rules, rebuild)
      invariant !ok ==> !Distinct(snapshots) || exists s :: s in snapshots && !PinsItsRule(s, rules, rebuild)
      decreases |snapshots| - k, ok
    {
      var s := snapshots[k];
      assert snapshots[..k + 1] == snapshots[..k] + [s];
      if s.ruleIndex in seen || !PinsItsRule(s, rules, rebuild) {
        ok := false;
      } else {
        seen := seen + {s.ruleIndex};
        k := k + 1;
      }
    }
    assert snapshots[..|snapshots|] == snapshots;
  }

  /** A view is accepted exactly when its text is canonical, its count and digest are the text's, and
      its snapshots correspond one to one to the set rules, each pinned with its own expansion. */
  method PreparedViewIsValid(p: Prepared, analyze: string -> Option<Analysis>, rebuild: Rebuild) returns (ok: bool)
    ensures ok <==>
      && analyze(p.text).Some?
      && var a := analyze(p.text).value;
        a.canonical && |a.rules| == p.ruleCount && a.digest == p.digest && OneToOne(p.snapshots, a.rules, rebuild)
  {
    ok := false;
    var analysis := analyze(p.text);
    if analysis.Some? {
      var a := analysis.value;
      if a.canonical && |a.rules| == p.ruleCount && a.digest == p.digest {
        if SetCount(a.rules) == |p.snapshots| {
          ok := AllPin(p.snapshots, a.rules, rebuild);
        }
        if ok || OneToOne(p.snapshots, a.rules, rebuild) {
          CountsMeanCovered(p.snapshots, a.rules, rebuild);
        }
      }
    }
  }

  /** So in an accepted view every set rule is pinned, by one snapshot and no other. */
  lemma OneSnapshotEach(snapshots: seq<Snapshot>, rules: seq<Selector>, rebuild: Rebuild, i: nat) returns (k: nat)
    requires OneToOne(snapshots, rules, rebuild) && i < |rules| && rules[i].SetMember?
    ensures k < |snapshots| && rules[i].digest.Some?
    ensures snapshots[k].provider == rules[i].provider && snapshots[k].name == rules[i].name
    ensures snapshots[k].digest == rules[i].digest.value
    ensures rebuild(rules[i].provider, rules[i].name, snapshots[k].members)
      == Some((snapshots[k].digest, snapshots[k].members))
    ensures forall j :: 0 <= j < |snapshots| && snapshots[j].ruleIndex == i ==> j == k
  {
    assert Covers(snapshots, i);
    k :| 0 <= k < |snapshots| && snapshots[k].ruleIndex == i;
    assert snapshots[k] in snapshots;
  }

  /** And a view with such snapshots, one for every set rule and no other, is accepted. */
  lemma PinnedIsOneToOne(snapshots: seq<Snapshot>, rules: seq<Selector>, rebuild: Rebuild)
    requires Distinct(snapshots)
    requires forall s :: s in snapshots ==> s.ruleIndex < |rules| && rules[s.ruleIndex].SetMember?
    requires forall i: nat :: i < |rules| && rules[i].SetMember? ==> Covers(snapshots, i)
    requires forall s :: s in snapshots ==>
      var rule := rules[s.ruleIndex];
      && rule.provider == s.provider && rule.name == s.name && rule.digest == Some(s.digest)
      && rebuild(s.provider, s.name, s.members) == Some((s.digest, s.members))
    ensures OneToOne(snapshots, rules, rebuild)
  {
  }
}
