/** The daemon's sentence authority record: staging, the compare-and-swap commit, and what a
    snapshot shows. Random 256-bit nonces are issue numbers, so a nonce never repeats; digests are
    collision-free. */
module SentenceRecord {
  import opened Basics

  /** A staging nonce. The occurrence id of a commit is a fixed function of it, so it stands for both. */
  type Token = nat

  /** The domain-bound digest of a canonical text. */
  datatype Digest = Digest(of: string)

  /** One stored record: canonical text under its committing occurrence, or bytes that do not
      interpret. */
  datatype Record = Authored(text: string, occurrence: Token) | Corrupt(raw: string)

  datatype Served = Served | Unserved | Unreadable

  /** The exact state a staging is bound to. */
  datatype Baseline = NoRecord | Present(record: Record, state: Served)

  datatype Staged = Staged(text: string, against: Baseline, created: int)

  /** `stagings` lists every corpus ever staged, by nonce; `kept` are those whose file is still there. */
  datatype Store = Store(
    record: Option<Record>,
    stagings: seq<Staged>,
    kept: set<Token>,
    validated: Option<Digest>,
    now: int)

  /** What an operator can read. */
  datatype Snapshot =
    | SnapAbsent
    | SnapServed(record: Record, text: string, digest: Digest, occurrence: Token, ruleCount: nat)
    | SnapUnserved(record: Record, text: string, digest: Digest, occurrence: Token, ruleCount: nat)
    | SnapCorrupt(record: Record)

  const STAGED_TTL_SECS := 3600

  /** Canonical text has one line per rule. */
  function RuleCount(text: string): nat {
    if text == [] then 0 else (if text[0] == '\n' then 1 else 0) + RuleCount(text[1..])
  }

  function ExactBaseline(s: Store): Baseline {
    match s.record
    case None => NoRecord
    case Some(Corrupt(raw)) => Present(Corrupt(raw), Unreadable)
    case Some(Authored(text, occ)) =>
      Present(Authored(text, occ), if s.validated == Some(Digest(text)) then Served else Unserved)
  }

  function TakeSnapshot(s: Store): Snapshot {
    match s.record
    case None => SnapAbsent
    case Some(Corrupt(raw)) => SnapCorrupt(Corrupt(raw))
    case Some(Authored(text, occ)) =>
      if s.validated == Some(Digest(text))
      then SnapServed(Authored(text, occ), text, Digest(text), occ, RuleCount(text))
      else SnapUnserved(Authored(text, occ), text, Digest(text), occ, RuleCount(text))
  }

  /** Bind a canonical text to the state live right now. */
  function Stage(s: Store, canonical: string): (Store, Token) {
    var t := |s.stagings|;
    (s.(stagings := s.stagings + [Staged(canonical, ExactBaseline(s), s.now)], kept := s.kept + {t}), t)
  }

  /** Where a commit can fail besides its own checks. A refusal at the gate and an I/O fault before
      the rename leave the record alone; a failed directory fsync leaves the renamed record visible
      but not validated, and a repeated commit unconfirmed; a failed profile write happens after the
      flip. */
  datatype Fault = NoFault | GateRefuses | GateFails | IoFails | FsyncFails | ProfileFails

  datatype Reply =
    | Committed(digest: Digest, occurrence: Token)
    | AlreadyCommitted(digest: Digest, occurrence: Token)
    | Denied
    | Failed

  datatype CommitResult = CommitResult(store: Store, reply: Reply, flipped: bool)

  function Commit(s: Store, t: Token, fault: Fault): CommitResult {
    if fault == GateRefuses then CommitResult(s, Denied, false)
    else if fault == GateFails then CommitResult(s, Failed, false)
    else if t >= |s.stagings| || t !in s.kept then CommitResult(s, Denied, false)
    else
      var staged := s.stagings[t];
      if s.now < staged.created then CommitResult(s, Denied, false)
      else if s.now - staged.created >= STAGED_TTL_SECS then CommitResult(s, Denied, false)
      else if s.record == Some(Authored(staged.text, t)) then
        if fault == IoFails || fault == FsyncFails then CommitResult(s, Failed, false)
        else CommitResult(s.(validated := Some(Digest(staged.text))),
               if fault == ProfileFails then Failed else AlreadyCommitted(Digest(staged.text), t), false)
      else if staged.against != ExactBaseline(s) then CommitResult(s, Denied, false)
      else if fault == IoFails then CommitResult(s, Failed, false)
      else
        var renamed := s.(record := Some(Authored(staged.text, t)));
        if fault == FsyncFails then CommitResult(renamed, Failed, true)
        else CommitResult(renamed.(validated := Some(Digest(staged.text))),
               if fault == ProfileFails then Failed else Committed(Digest(staged.text), t), true)
  }

  /** What other parties may do to the store between two requests of one client. */
  datatype Step =
    | StageOther(canonical: string)
    | CommitOther(token: Token, fault: Fault)
    | Deliver(fault: Fault)
    | Sweep(token: Token)
    | Restart
    | Validate
    | Tick(delta: int)

  /** One replacement of the record, and the exact state it displaced, serving class included. */
  datatype Flip = Flip(token: Token, displaced: Baseline)

  /** The store, the flips it has made since `base` corpora had been staged, this client's own nonce,
      and how many of its commit messages were sent and are still undelivered. */
  datatype World = World(store: Store, base: nat, flips: seq<Flip>, mine: Option<Token>, sent: nat, inflight: nat)

  function Handle(w: World, t: Token, fault: Fault): (World, Reply) {
    var c := Commit(w.store, t, fault);
    (w.(store := c.store, flips := if c.flipped then w.flips + [Flip(t, ExactBaseline(w.store))] else w.flips), c.reply)
  }

  /** No other party holds this client's nonce; its delayed commits arrive at most once each. */
  function StepWorld(w: World, step: Step): World {
    match step
    case StageOther(text) => w.(store := Stage(w.store, text).0)
    case CommitOther(t, fault) => if w.mine == Some(t) then w else Handle(w, t, fault).0
    case Deliver(fault) =>
      if w.mine.Some? && w.inflight > 0 then Handle(w.(inflight := w.inflight - 1), w.mine.value, fault).0 else w
    case Sweep(t) => w.(store := w.store.(kept := w.store.kept - {t}))
    case Restart => w.(store := w.store.(validated := None))
    case Validate =>
      (match w.store.record
       case Some(Authored(text, _)) => w.(store := w.store.(validated := Some(Digest(text))))
       case _ => w)
    case Tick(delta) => w.(store := w.store.(now := w.store.now + delta))
  }

  function Run(w: World, steps: seq<Step>): World
    decreases |steps|
  {
    if steps == [] then w else Run(StepWorld(w, steps[0]), steps[1..])
  }

  // ---- what every reachable world satisfies ----------------------------------------------------

  /** Records are ordered by the nonce that committed them; anything not committed here comes first. */
  function Rank(r: Option<Record>): int {
    match r
    case Some(Authored(_, occ)) => occ
    case _ => -1
  }

  function BaseRecord(b: Baseline): Option<Record> {
    match b
    case NoRecord => None
    case Present(r, _) => Some(r)
  }

  /** A record was authored by an issued nonce; a staging is bound to an earlier nonce's record. */
  ghost predicate WellIssued(s: Store) {
    && (forall t :: t in s.kept ==> t < |s.stagings|)
    && Rank(s.record) < |s.stagings|
    && (forall t :: 0 <= t < |s.stagings| ==> Rank(BaseRecord(s.stagings[t].against)) < t)
    && (s.record.Some? && s.record.value.Authored? ==>
          s.record.value.text == s.stagings[s.record.value.occurrence].text)
  }

  /** The flips form a chain from a record older than `base` to `record`: each displaced exactly the
      state its nonce was staged against and left the text staged under that nonce. */
  ghost predicate Chained(flips: seq<Flip>, stagings: seq<Staged>, base: nat, record: Option<Record>) {
    if flips == [] then Rank(record) < base
    else
      var last := flips[|flips| - 1];
      && last.token < |stagings|
      && record == Some(Authored(stagings[last.token].text, last.token))
      && last.displaced == stagings[last.token].against
      && Chained(flips[..|flips| - 1], stagings, base, BaseRecord(last.displaced))
  }

  function CountFlips(flips: seq<Flip>, t: Token): nat {
    if flips == [] then 0
    else CountFlips(flips[..|flips| - 1], t) + if flips[|flips| - 1].token == t then 1 else 0
  }

  predicate HasFlipped(w: World, t: Token) {
    CountFlips(w.flips, t) > 0
  }

  /** This client's nonce was issued after `base`, and cannot flip without a commit of its own. */
  ghost predicate OwnNonce(w: World) {
    && w.inflight <= w.sent
    && (w.mine.None? ==> w.sent == 0)
    && (w.mine.Some? ==>
          && w.base <= w.mine.value < |w.store.stagings|
          && (HasFlipped(w, w.mine.value) ==> w.sent > w.inflight))
  }

  ghost predicate Valid(w: World) {
    && w.base <= |w.store.stagings|
    && WellIssued(w.store) && OwnNonce(w)
    && Chained(w.flips, w.store.stagings, w.base, w.store.record)
  }

  /** A later world keeps every staging and every flip, and a flip moves the record to a later rank. */
  ghost predicate Extends(a: World, b: World) {
    && a.store.stagings <= b.store.stagings && a.flips <= b.flips && a.base == b.base
    && (a.mine.Some? ==> b.mine == a.mine)
    && (a.flips == b.flips ==> a.store.record == b.store.record)
    && (a.flips != b.flips ==> Rank(a.store.record) < Rank(b.store.record))
  }

  /** The same while this client sends nothing: only its commits already under way can still arrive. */
  ghost predicate Follows(a: World, b: World) {
    && Extends(a, b)
    && a.mine == b.mine && a.sent == b.sent && b.inflight <= a.inflight
    && (a.mine.Some? && a.inflight == 0 ==> CountFlips(b.flips, a.mine.value) == CountFlips(a.flips, a.mine.value))
  }

  lemma FollowsTransitive(a: World, b: World, c: World)
    requires Follows(a, b) && Follows(b, c)
    ensures Follows(a, c)
  {
  }

  lemma CommitKeepsIssued(s: Store, t: Token, fault: Fault)
    requires WellIssued(s)
    ensures var c := Commit(s, t, fault);
      && WellIssued(c.store) && c.store.stagings == s.stagings
      && (!c.flipped ==> c.store.record == s.record)
      && (c.flipped ==>
            && t < |s.stagings|
            && s.stagings[t].against == ExactBaseline(s) && BaseRecord(ExactBaseline(s)) == s.record
            && c.store.record == Some(Authored(s.stagings[t].text, t)))
  {
  }

  lemma {:induction false} ChainedExtends(
    flips: seq<Flip>, before: seq<Staged>, after: seq<Staged>, base: nat, record: Option<Record>)
    requires before <= after && Chained(flips, before, base, record)
    ensures Chained(flips, after, base, record)
    decreases |flips|
  {
    if flips != [] {
      var last := flips[|flips| - 1];
      assert after[last.token] == before[last.token];
      ChainedExtends(flips[..|flips| - 1], before, after, base, BaseRecord(last.displaced));
    }
  }

  /** Along the chain nonces only grow, so none occurs twice and none is above the live record's. */
  lemma {:induction false} ChainCounts(flips: seq<Flip>, s: Store, base: nat, record: Option<Record>, t: Token)
    requires WellIssued(s) && Chained(flips, s.stagings, base, record)
    ensures CountFlips(flips, t) <= 1
    ensures Rank(record) < t ==> CountFlips(flips, t) == 0
    ensures flips != [] ==> Rank(record) == flips[|flips| - 1].token
    decreases |flips|
  {
    if flips != [] {
      var last := flips[|flips| - 1];
      ChainCounts(flips[..|flips| - 1], s, base, BaseRecord(last.displaced), t);
      assert Rank(BaseRecord(s.stagings[last.token].against)) < last.token;
    }
  }

  lemma HandleValid(w: World, t: Token, fault: Fault)
    requires Valid(w)
    requires w.mine == Some(t) ==> w.sent > w.inflight
    ensures var v := Handle(w, t, fault).0;
      && Valid(v) && v.store.stagings == w.store.stagings
      && v == w.(store := v.store, flips := v.flips)
      && (v.flips == w.flips || v.flips == w.flips + [Flip(t, ExactBaseline(w.store))])
      && (v.flips == w.flips ==> v.store.record == w.store.record)
      && (v.flips != w.flips ==> Rank(w.store.record) < t == Rank(v.store.record))
  {
    CommitKeepsIssued(w.store, t, fault);
    var v := Handle(w, t, fault).0;
    if v.flips != w.flips {
      assert v.flips[..|w.flips|] == w.flips;
      assert Rank(BaseRecord(w.store.stagings[t].against)) < t;
    }
  }

  lemma HandleFollows(w: World, t: Token, fault: Fault, inflight: nat)
    requires inflight <= w.inflight && Valid(w.(inflight := inflight))
    requires w.mine == Some(t) ==> inflight < w.inflight <= w.sent
    ensures var v := Handle(w.(inflight := inflight), t, fault).0; Valid(v) && Follows(w, v)
  {
    HandleValid(w.(inflight := inflight), t, fault);
    var v := Handle(w.(inflight := inflight), t, fault).0;
    assert v.flips != w.flips ==> v.flips[..|w.flips|] == w.flips;
  }

  /** Steps that leave the record and the stagings alone. */
  lemma QuietStep(w: World, v: World)
    requires Valid(w)
    requires v == w.(store := v.store) && v.store.record == w.store.record
    requires v.store.stagings == w.store.stagings && v.store.kept <= w.store.kept
    ensures Valid(v) && Follows(w, v)
  {
  }

  lemma StageValid(w: World, text: string)
    requires Valid(w)
    ensures var v := w.(store := Stage(w.store, text).0); Valid(v) && Follows(w, v)
  {
    var v := w.(store := Stage(w.store, text).0);
    assert BaseRecord(ExactBaseline(w.store)) == w.store.record;
    ChainedExtends(w.flips, w.store.stagings, v.store.stagings, w.base, w.store.record);
  }

  lemma StepValid(w: World, step: Step)
    requires Valid(w)
    ensures Valid(StepWorld(w, step)) && Follows(w, StepWorld(w, step))
  {
    match step
    case StageOther(text) => StageValid(w, text);
    case CommitOther(t, fault) =>
      if w.mine != Some(t) {
        assert w.(inflight := w.inflight) == w;
        HandleFollows(w, t, fault, w.inflight);
      } else {
        QuietStep(w, w);
      }
    case Deliver(fault) =>
      if w.mine.Some? && w.inflight > 0 {
        HandleFollows(w, w.mine.value, fault, w.inflight - 1);
      } else {
        QuietStep(w, w);
      }
    case Sweep(t) => QuietStep(w, StepWorld(w, step));
    case Restart => QuietStep(w, StepWorld(w, step));
    case Validate => QuietStep(w, StepWorld(w, step));
    case Tick(delta) => QuietStep(w, StepWorld(w, step));
  }

  lemma {:induction false} RunValid(w: World, steps: seq<Step>)
    requires Valid(w)
    ensures Valid(Run(w, steps)) && Follows(w, Run(w, steps))
    decreases |steps|
  {
    if steps != [] {
      var v := StepWorld(w, steps[0]);
      StepValid(w, steps[0]);
      RunValid(v, steps[1..]);
      FollowsTransitive(w, v, Run(v, steps[1..]));
    }
  }

  // ---- the three facts the clients rest on -----------------------------------------------------

  /** A replaced generation never returns: if the record is the same at both ends, it was the same in
      between and nothing flipped. */
  lemma NeverReturns(a: World, b: World, c: World)
    requires Extends(a, b) && Extends(b, c) && a.store.record == c.store.record
    ensures b.store.record == a.store.record && a.flips == c.flips
  {
  }

  /** A nonce flips the record at most once, however often its commit is delivered. */
  lemma FlipsOnce(w: World, t: Token)
    requires Valid(w)
    ensures CountFlips(w.flips, t) == if HasFlipped(w, t) then 1 else 0
  {
    ChainCounts(w.flips, w.store, w.base, w.store.record, t);
  }

  /** Seeing this client's occurrence live proves that its nonce has flipped the record. */
  lemma LiveMeansFlipped(w: World, t: Token)
    requires Valid(w) && w.mine == Some(t)
    requires w.store.record.Some? && w.store.record.value.Authored? && w.store.record.value.occurrence == t
    ensures HasFlipped(w, t) && w.store.record.value.text == w.store.stagings[t].text
  {
    ChainCounts(w.flips, w.store, w.base, w.store.record, t);
  }

  /** Whatever happens after staging, including delayed commits that arrive when the client is gone,
      its nonce displaces exactly the state it was staged against, serving class included, or nothing. */
  lemma DisplacesStaged(w: World, steps: seq<Step>, t: Token, k: nat)
    requires Valid(w) && t < |w.store.stagings|
    requires k < |Run(w, steps).flips| && Run(w, steps).flips[k].token == t
    ensures Run(w, steps).flips[k].displaced == w.store.stagings[t].against
  {
    RunValid(w, steps);
    var v := Run(w, steps);
    ChainDisplaces(v.flips, v.store, v.base, v.store.record, k);
  }

  lemma {:induction false} ChainDisplaces(flips: seq<Flip>, s: Store, base: nat, record: Option<Record>, k: nat)
    requires Chained(flips, s.stagings, base, record) && k < |flips|
    ensures flips[k].token < |s.stagings|
    ensures flips[k].displaced == s.stagings[flips[k].token].against
    decreases |flips|
  {
    if k < |flips| - 1 {
      ChainDisplaces(flips[..|flips| - 1], s, base, BaseRecord(flips[|flips| - 1].displaced), k);
    }
  }

  /** A client whose commits have all been handled without a flip never flips. */
  lemma RefusedForever(w: World, steps: seq<Step>, t: Token)
    requires Valid(w) && w.mine == Some(t) && w.inflight == 0 && !HasFlipped(w, t)
    ensures !HasFlipped(Run(w, steps), t)
  {
    RunValid(w, steps);
  }

  /** How a record is being served. */
  function ClassOf(b: Baseline): Option<Served> {
    match b
    case NoRecord => None
    case Present(_, state) => Some(state)
  }

  /** The live generation is the one validated for serving. */
  predicate IsServed(s: Store) {
    s.record.Some? && s.record.value.Authored? && s.validated == Some(Digest(s.record.value.text))
  }

  lemma SameClass(a: Store, b: Store)
    requires a.record == b.record
    ensures ClassOf(ExactBaseline(a)) == ClassOf(ExactBaseline(b)) <==> (IsServed(a) <==> IsServed(b))
    ensures BaseRecord(ExactBaseline(a)) == a.record
  {
  }

  /** A reading, a staging of `t` some time later that saw the same record, and anything after it: what
      `t` displaces is that record, and it is in the class that was read exactly when the record was
      being served at the staging as it was at the reading. */
  lemma ClassDisplaced(read: World, atStage: World, staged: World, steps: seq<Step>, t: Token, k: nat)
    requires Valid(staged) && t < |staged.store.stagings|
    requires staged.store.stagings[t].against == ExactBaseline(atStage.store)
    requires atStage.store.record == read.store.record
    requires k < |Run(staged, steps).flips| && Run(staged, steps).flips[k].token == t
    ensures BaseRecord(Run(staged, steps).flips[k].displaced) == read.store.record
    ensures ClassOf(Run(staged, steps).flips[k].displaced) == ClassOf(ExactBaseline(read.store))
      <==> (IsServed(atStage.store) <==> IsServed(read.store))
  {
    hide ClassOf, ExactBaseline, BaseRecord, IsServed, Run, Valid;
    DisplacesStaged(staged, steps, t, k);
    SameClass(atStage.store, read.store);
  }

  // ---- when a staged text flips the record -----------------------------------------------------

  function Elapsed(steps: seq<Step>): int {
    if steps == [] then 0 else (if steps[0].Tick? then steps[0].delta else 0) + Elapsed(steps[1..])
  }

  /** Only ticks move the clock, and only a sweep takes a nonce away. */
  lemma StepKeeps(w: World, step: Step, t: Token)
    requires t < |w.store.stagings|
    ensures var v := StepWorld(w, step);
      && v.store.now == w.store.now + Elapsed([step])
      && (t in v.store.kept <==> t in w.store.kept && step != Sweep(t))
      && w.store.stagings <= v.store.stagings
  {
    assert [step][1..] == [];
    hide ExactBaseline, CountFlips;
  }

  lemma {:induction false} RunKeeps(w: World, steps: seq<Step>, t: Token)
    requires t < |w.store.stagings|
    ensures var v := Run(w, steps);
      && v.store.now == w.store.now + Elapsed(steps)
      && (t in v.store.kept <==> t in w.store.kept && Sweep(t) !in steps)
      && w.store.stagings <= v.store.stagings
    decreases |steps|
  {
    if steps != [] {
      StepKeeps(w, steps[0], t);
      assert [steps[0]][1..] == [] && steps == [steps[0]] + steps[1..];
      hide StepWorld;
      RunKeeps(StepWorld(w, steps[0]), steps[1..], t);
    }
  }

  lemma CommitExactly(s: Store, t: Token, fault: Fault)
    requires t < |s.stagings|
    ensures Commit(s, t, fault).flipped <==>
      && fault !in {GateRefuses, GateFails, IoFails} && t in s.kept
      && 0 <= s.now - s.stagings[t].created < 3600
      && s.record != Some(Authored(s.stagings[t].text, t)) && s.stagings[t].against == ExactBaseline(s)
    ensures Commit(s, t, fault).flipped ==>
      Commit(s, t, fault).store.record == Some(Authored(s.stagings[t].text, t))
    ensures Commit(s, t, fault).reply == Denied <==>
      || fault == GateRefuses
      || (fault != GateFails
          && (|| t !in s.kept || !(0 <= s.now - s.stagings[t].created < 3600)
              || (s.record != Some(Authored(s.stagings[t].text, t)) && s.stagings[t].against != ExactBaseline(s))))
  {
    hide ExactBaseline;
  }

  lemma SameBaseline(a: World, b: World)
    requires Extends(a, b)
    ensures ExactBaseline(a.store) == ExactBaseline(b.store) <==>
      b.flips == a.flips && (IsServed(b.store) <==> IsServed(a.store))
  {
  }

  /** A text is staged, and after any steps its nonce is committed. That flips the record exactly when
      no fault stops it, the nonce has not been swept, less than an hour has passed and the clock has not
      gone back, and the record is what it was: no commit has landed in between, and the corpus is being
      served exactly if it was. Then the record is the text, by this nonce. The commit is refused exactly
      when one of these checks fails or the gate refuses, unless an earlier commit of the nonce is still in
      place. */
  lemma FlipsExactly(w: World, text: string, steps: seq<Step>, fault: Fault)
    requires Valid(w)
    ensures
      var t, v := |w.store.stagings|, Run(w.(store := Stage(w.store, text).0), steps);
      var c := Commit(v.store, t, fault);
      && (c.flipped <==>
            && fault !in {GateRefuses, GateFails, IoFails}
            && Sweep(t) !in steps && 0 <= Elapsed(steps) < 3600
            && v.flips == w.flips && (IsServed(v.store) <==> IsServed(w.store)))
      && (c.flipped ==> c.store.record == Some(Authored(text, t)))
      && (c.reply == Denied <==>
            || fault == GateRefuses
            || (fault != GateFails
                && (|| Sweep(t) in steps || !(0 <= Elapsed(steps) < 3600)
                    || (&& v.store.record != Some(Authored(text, t))
                        && (v.flips != w.flips || (IsServed(v.store) <==> !IsServed(w.store)))))))
  {
    var staged, t := w.(store := Stage(w.store, text).0), |w.store.stagings|;
    var v := Run(staged, steps);
    StageValid(w, text);
    RunValid(staged, steps);
    RunKeeps(staged, steps, t);
    assert v.store.stagings[t] == staged.store.stagings[t] == Staged(text, ExactBaseline(w.store), w.store.now);
    assert v.flips == w.flips ==> Rank(v.store.record) < t;
    assert IsServed(staged.store) <==> IsServed(w.store);
    SameBaseline(staged, v);
    CommitExactly(v.store, t, fault);
    hide Run, Elapsed, Valid, StepWorld, Commit, IsServed, Extends, Chained, WellIssued, OwnNonce, CountFlips;
  }

  /** A commit that is answered leaves the text staged under its nonce in place and served, and the answer
      names both and says whether this commit put it there. */
  lemma AnsweredMeansServed(s: Store, t: Token, fault: Fault)
    ensures var c := Commit(s, t, fault);
      c.reply.Committed? || c.reply.AlreadyCommitted? ==>
        && t < |s.stagings| && c.store.record == Some(Authored(s.stagings[t].text, t)) && IsServed(c.store)
        && c.reply.digest == Digest(s.stagings[t].text) && c.reply.occurrence == t
        && (c.reply.Committed? <==> c.flipped)
        && fault == NoFault
  {
  }

  lemma OneStep(w: World, step: Step)
    ensures Run(w, [step]) == StepWorld(w, step)
  {
    assert [step][1..] == [];
    assert Run(w, [step]) == Run(StepWorld(w, step), []);
  }

  /** A served record in a store that has staged one text, by the nonce 0. */
  function ServedWorld(text: string): World {
    World(Store(Some(Authored(text, 0)), [Staged(text, NoRecord, 0)], {}, Some(Digest(text)), 0), 1, [], None, 0, 0)
  }

  lemma ServedWorldIsValid(text: string)
    ensures Valid(ServedWorld(text)) && TakeSnapshot(ServedWorld(text).store).SnapServed?
  {
  }

  /** The nonce 1, for a text staged over that record when it was not served. */
  function StagedOver(text: string, candidate: string, validated: Option<Digest>): World {
    World(
      Store(Some(Authored(text, 0)),
        [Staged(text, NoRecord, 0), Staged(candidate, Present(Authored(text, 0), Unserved), 0)], {1}, validated, 0),
      1, [], Some(1), 0, 0)
  }

  lemma StagedAfterRestart(text: string, candidate: string)
    ensures var atStage := StepWorld(ServedWorld(text), Restart);
      atStage.(store := Stage(atStage.store, candidate).0, mine := Some(|atStage.store.stagings|))
        == StagedOver(text, candidate, None)
  {
  }

  lemma CommitsOverUnserved(text: string, candidate: string)
    requires text != candidate
    ensures var (v, reply) := Handle(StagedOver(text, candidate, None), 1, NoFault);
      reply.Committed? && v.flips == [Flip(1, Present(Authored(text, 0), Unserved))]
  {
    assert StagedOver(text, candidate, None).store.stagings[1]
      == Staged(candidate, Present(Authored(text, 0), Unserved), 0);
  }

  /** So the class need not be the one reviewed: after a restart around the staging, a commit displaces
      as unserved what every reading showed as served. */
  lemma ServingClassMayDiffer()
    ensures exists w: World, a: seq<Step>, b: seq<Step>, c: seq<Step> ::
      && Valid(w) && w.mine == None
      && var atRead := w; var atStage := Run(atRead, a);
         var staged := atStage.(store := Stage(atStage.store, "new\n").0, mine := Some(|atStage.store.stagings|));
         var atRecheck := Run(staged, b); var atCommit := Run(atRecheck, c);
         && TakeSnapshot(atRead.store).SnapServed? && TakeSnapshot(atRecheck.store) == TakeSnapshot(atRead.store)
         && TakeSnapshot(atCommit.store).SnapUnserved?
         && var handled := Handle(atCommit, staged.mine.value, NoFault);
            handled.1.Committed? && ClassOf(handled.0.flips[|handled.0.flips| - 1].displaced) == Some(Unserved)
  {
    var text, candidate := "old\n", "new\n";
    var w := ServedWorld(text);
    assert text[0] != candidate[0];
    ServedWorldIsValid(text);
    OneStep(w, Restart);
    StagedAfterRestart(text, candidate);
    var staged := StagedOver(text, candidate, None);
    OneStep(staged, Validate);
    var atRecheck := StagedOver(text, candidate, Some(Digest(text)));
    assert StepWorld(staged, Validate) == atRecheck;
    OneStep(atRecheck, Restart);
    assert StepWorld(atRecheck, Restart) == staged;
    CommitsOverUnserved(text, candidate);
    hide Valid, Run, Handle, Stage;
    assert TakeSnapshot(atRecheck.store) == TakeSnapshot(w.store);
    assert TakeSnapshot(staged.store).SnapUnserved?;
  }
}
