/** The incremental rule ceremony: stage, compare the live corpus with the one first read, ask for
    presence, commit, reconcile. */
module IncrementalClient {
  import opened Basics
  import opened SentenceRecord
  import opened AuthorityClient

  /** The state a replacement may supersede: a corpus with these canonical bytes, or a record that
      does not match its pin. */
  datatype Expectation = Authenticated(source: string) | PinMismatch

  datatype CustodyError = RulesPinMismatch | RulesUnserved | RulesChanged | PresenceRefused | Storage

  datatype Receipt = Receipt(occurrence: Token, known: bool, liveIsExact: bool)

  /** The canonical bytes of a record an incremental mutation may start from. */
  function Source(r: Option<Record>): Option<string> {
    match r
    case None => Some([])
    case Some(Authored(text, _)) => Some(text)
    case Some(Corrupt(_)) => None
  }

  /** The comparison made after staging. */
  function CheckExpectation(e: Expectation, s: Snapshot): Option<CustodyError> {
    match (e, s)
    case (Authenticated(source), SnapAbsent) => if source == [] then None else Some(RulesChanged)
    case (Authenticated(source), SnapServed(_, text, _, _, _)) => if text == source then None else Some(RulesChanged)
    case (Authenticated(_), SnapCorrupt(_)) => Some(RulesPinMismatch)
    case (_, SnapUnserved(_, _, _, _, _)) => Some(RulesUnserved)
    case (PinMismatch, SnapCorrupt(_)) => None
    case _ => Some(RulesChanged)
  }

  /** The store is in the state that the expectation names. */
  ghost predicate Meets(e: Expectation, s: Store) {
    match s.record
    case None => e == Authenticated([])
    case Some(Authored(text, _)) => IsServed(s) && e == Authenticated(text)
    case Some(Corrupt(_)) => e == PinMismatch
  }

  /** Why a replacement over this store is refused when it is in another state. */
  ghost function Objection(e: Expectation, s: Store): CustodyError {
    if s.record.Some? && s.record.value.Authored? && !IsServed(s) then RulesUnserved
    else if s.record.Some? && s.record.value.Corrupt? && e.Authenticated? then RulesPinMismatch
    else RulesChanged
  }

  /** The comparison decides exactly that, in every state. */
  lemma ExpectationDecides(e: Expectation, s: Store)
    ensures CheckExpectation(e, TakeSnapshot(s)) == if Meets(e, s) then None else Some(Objection(e, s))
  {
  }

  /** A record the expectation allows to be displaced. */
  ghost predicate Expected(e: Expectation, r: Option<Record>) {
    match e
    case Authenticated(source) => Source(r) == Some(source)
    case PinMismatch => Source(r) == None
  }

  /** Whatever this client's nonce has displaced is what the expectation named. */
  ghost predicate DisplacesExpected(w: World, e: Expectation) {
    w.mine.Some? && w.mine.value < |w.store.stagings| && HasFlipped(w, w.mine.value) ==>
      Expected(e, BaseRecord(w.store.stagings[w.mine.value].against))
  }

  /** What reconciliation makes of a commit that stands, when the network only loses these calls. */
  ghost predicate LostReceipt(
    w: World, turns: seq<Turn>, v: World, rest: seq<Turn>, known: bool, status: Option<Snapshot>, c: Candidate)
  {
    var n := |turns|;
    && Standing(v, c) && (known <==> n < 2 * ROUNDS || (n == 2 * ROUNDS && LandedBy(w, c, turns, n)))
    && (known ==> Landed(v, c) && status == Some(TakeSnapshot(v.store)) && rest == [])
    && (!known ==> (Landed(v, c) <==> LandedBy(w, c, turns, 2 * ROUNDS)) && rest == Rest(turns, 2 * ROUNDS + 1))
    && (status.Some? && IsExactOccurrence(status.value, c, v.mine.value) ==> known)
  }

  /** What a round of it makes. */
  ghost predicate LostReceiptRound(
    w: World, turns: seq<Turn>, v: World, rest: seq<Turn>, known: bool, status: Option<Snapshot>, c: Candidate)
  {
    && Standing(v, c)
    && if |turns| >= 2 then !known && rest == turns[2..] && (Landed(v, c) <==> Landed(w, c) || Lands(turns[1]))
       else Landed(v, c) && known && rest == [] && status == Some(TakeSnapshot(v.store))
  }

  lemma LostReceiptStep(
    start: World, turns: seq<Turn>, w: World, rest: seq<Turn>, v: World, rest': seq<Turn>,
    known: bool, status: Option<Snapshot>, c: Candidate, k: nat)
    requires LostSoFar(start, turns, w, rest, c, k) && k < ROUNDS
    requires LostReceiptRound(w, rest, v, rest', known, status, c)
    ensures !known ==> LostSoFar(start, turns, v, rest', c, k + 1)
    ensures known ==> LostReceipt(start, turns, v, rest', known, status, c)
  {
    hide Standing, Landed, Lands, LandedBy;
    if |rest| >= 2 {
      LandedByStep(start, c, turns, k);
      assert turns[2 * k..][1] == turns[2 * k + 1];
      assert turns[2 * k..][2..] == turns[2 * (k + 1)..];
    }
  }

  lemma LostReceiptEnd(
    start: World, turns: seq<Turn>, w: World, rest: seq<Turn>, known: bool, status: Option<Snapshot>, c: Candidate)
    requires LostSoFar(start, turns, w, rest, c, ROUNDS)
    requires status == if rest != [] then None else Some(TakeSnapshot(w.store))
    requires w.mine.Some? && (known <==> status.Some? && IsExactOccurrence(status.value, c, w.mine.value))
    ensures LostReceipt(start, turns, w, Rest(rest, 1), known, status, c)
  {
    LandedReads(w, c);
    assert Rest(Rest(turns, 2 * ROUNDS), 1) == Rest(turns, 2 * ROUNDS + 1);
  }

  /** `reconcile_incremental_commit`. */
  method ReconcileIncremental(h: Host, c: Candidate, first: Attempt) returns (known: bool, status: Option<Snapshot>)
    requires Valid(h.w) && h.w.mine.Some? && Honest(c) && AttemptIsTrue(h.w, first)
    modifies h
    ensures Valid(h.w) && Extends(old(h.w), h.w) && h.w.mine == old(h.w.mine)
    ensures old(h.w.sent) <= h.w.sent <= old(h.w.sent) + ROUNDS
    ensures known ==> CommittedOnce(h.w, c)
    ensures status.Some? ==> status.value == TakeSnapshot(h.w.store)
    ensures status.Some? && IsExactOccurrence(status.value, c, h.w.mine.value) ==> known
    // An acknowledgement settles it, whatever else is lost.
    ensures AckMatches(first, c, h.w.mine.value) ==> known && h.turns == Rest(old(h.turns), 1)
    ensures AckMatches(first, c, h.w.mine.value) && AllMute(old(h.turns)) ==>
      h.w == old(h.w) && (status.Some? <==> old(h.turns) == [])
    // Giving up takes all three retries, and every reading of a record that stays in place was lost.
    ensures !known ==> h.w.sent == old(h.w.sent) + ROUNDS && h.turns == Rest(old(h.turns), 2 * ROUNDS + 1)
    ensures !known && StaysLanded(old(h.w), h.w, c) ==>
      forall k :: 0 <= k <= ROUNDS ==> Silent(TurnAt(old(h.turns), 2 * k))
    // Over a network that only loses, it is known exactly when one of its calls is answered in time.
    ensures Standing(old(h.w), c) && AllMute(old(h.turns)) && first == Unknown ==>
      LostReceipt(old(h.w), old(h.turns), h.w, h.turns, known, status, c)
  {
    hide CommittedOnce, Honest, Valid, CountFlips, TakeSnapshot, IsExactOccurrence, Run, StaysLanded, Extends;
    hide AllMute, Silent, Standing, Landed, LandedBy, LostReceiptRound, LostReceipt, LostSoFar, Retrying, Follows, Rest;
    hide TurnAt;
    ghost var start, turns := h.w, h.turns;
    ExtendsReflexive(start);
    MuteCall(turns, 0, start);
    if AckMatches(first, c, h.w.mine.value) {
      AckCommits(h.w, first, c);
      status := h.AuthorityStatus();
      FollowsExtends(start, h.w);
      CommittedStays(start, h.w, c);
      return true, status;
    }
    ghost var losing := Standing(start, c) && AllMute(turns);
    RetryStarts(start, turns, c);
    for round := 0 to ROUNDS
      invariant Valid(h.w) && h.w.mine == start.mine && h.w.sent == start.sent + round
      invariant Retrying(start, turns, h.w, h.turns, c, round)
    {
      ghost var before, calls := h.w, h.turns;
      var settled;
      settled, status := IncrementalRound(h, c);
      RetryKeeps(start, turns, before, calls, h.w, h.turns, settled, c, round);
      if losing {
        LostReceiptStep(start, turns, before, calls, h.w, h.turns, settled, status, c, round);
      }
      if settled {
        return true, status;
      }
    }
    ghost var before, calls := h.w, h.turns;
    MuteCall(turns, 2 * ROUNDS, before);
    status := h.AuthorityStatus();
    RetryEnds(start, turns, before, calls, h.w, c);
    known := status.Some? && IsExactOccurrence(status.value, c, h.w.mine.value);
    if losing {
      LostReceiptEnd(start, turns, before, calls, known, status, c);
    }
    if known {
      ExactOccurrenceCommits(h.w, c);
    }
  }

  method IncrementalRound(h: Host, c: Candidate) returns (known: bool, status: Option<Snapshot>)
    requires Valid(h.w) && h.w.mine.Some? && Honest(c)
    modifies h
    ensures Valid(h.w) && Extends(old(h.w), h.w) && h.w.mine == old(h.w.mine)
    ensures old(h.w.sent) <= h.w.sent <= old(h.w.sent) + 1
    ensures known ==> CommittedOnce(h.w, c)
    ensures status.Some? ==> status.value == TakeSnapshot(h.w.store)
    ensures !known ==> h.turns == Rest(old(h.turns), 2) && h.w.sent == old(h.w.sent) + 1
    ensures StaysLanded(old(h.w), h.w, c) && !Silent(TurnAt(old(h.turns), 0)) ==> known
    ensures Standing(old(h.w), c) && AllMute(old(h.turns)) ==>
      LostReceiptRound(old(h.w), old(h.turns), h.w, h.turns, known, status, c)
  {
    hide CommittedOnce, Honest, Valid, CountFlips, TakeSnapshot, IsExactOccurrence, Run, StaysLanded, Extends;
    hide AllMute, Silent, Standing, Landed, Lands, Send;
    ghost var start, turns := h.w, h.turns;
    MuteCall(turns, 0, start);
    MuteCall(turns, 1, start);
    MuteCall(turns, 2, start);
    LandedReads(start, c);
    status := h.AuthorityStatus();
    ghost var read := h.w;
    FollowsExtends(start, read);
    if status.Some? && IsExactOccurrence(status.value, c, h.w.mine.value) {
      ExactOccurrenceCommits(h.w, c);
      return true, status;
    }
    LossySend(start, turns, c);
    var attempt := h.CommitToken();
    ExtendsTransitive(start, read, h.w);
    if !AckMatches(attempt, c, h.w.mine.value) {
      StaysBefore(start, read, h.w, c);
      return false, None;
    }
    AckCommits(h.w, attempt, c);
    ghost var acked := h.w;
    MuteCall(h.turns, 0, acked);
    status := h.AuthorityStatus();
    CommittedStays(acked, h.w, c);
    FollowsExtends(acked, h.w);
    ExtendsTransitive(start, acked, h.w);
    ExtendsTransitive(read, acked, h.w);
    StaysBefore(start, read, h.w, c);
    known := true;
  }

  /** A nonce that flips after some world displaced a record at least as new as that world's. */
  lemma {:induction false} FirstFlipDisplaces(
    before: seq<Flip>, flips: seq<Flip>, s: Store, base: nat, record: Option<Record>, t: Token)
    requires WellIssued(s) && Chained(flips, s.stagings, base, record) && before <= flips
    requires CountFlips(before, t) == 0 && CountFlips(flips, t) > 0 && t < |s.stagings|
    ensures before != [] ==> before[|before| - 1].token <= Rank(BaseRecord(s.stagings[t].against))
    decreases |flips|
  {
    var last := flips[|flips| - 1];
    var rest := flips[..|flips| - 1];
    assert |before| < |flips| by { assert before != flips; }
    assert before <= rest;
    if last.token == t {
      if before != [] {
        ChainTop(before, rest, s, base, BaseRecord(last.displaced));
      }
    } else {
      FirstFlipDisplaces(before, rest, s, base, BaseRecord(last.displaced), t);
    }
  }

  lemma {:induction false} ChainTop(before: seq<Flip>, flips: seq<Flip>, s: Store, base: nat, record: Option<Record>)
    requires WellIssued(s) && Chained(flips, s.stagings, base, record) && before <= flips && before != []
    ensures before[|before| - 1].token <= Rank(record)
    decreases |flips|
  {
    if |before| < |flips| {
      var last := flips[|flips| - 1];
      ChainTop(before, flips[..|flips| - 1], s, base, BaseRecord(last.displaced));
      assert Rank(BaseRecord(s.stagings[last.token].against)) < last.token;
    }
  }

  /** The staging was bound to the live record; a later reading met the expectation. Then in every
      world after that, whatever the nonce has displaced met it too, although the reading came only
      after the staging. */
  lemma ExpectationBinds(staged: World, checked: World, later: World, e: Expectation)
    requires Valid(staged) && Valid(checked) && Valid(later)
    requires Extends(staged, checked) && Extends(checked, later)
    requires staged.mine.Some? && staged.mine.value < |staged.store.stagings|
    requires BaseRecord(staged.store.stagings[staged.mine.value].against) == staged.store.record
    requires !HasFlipped(checked, staged.mine.value)
    requires CheckExpectation(e, TakeSnapshot(checked.store)) == None
    ensures DisplacesExpected(later, e)
  {
    var t := staged.mine.value;
    if HasFlipped(later, t) {
      assert checked.flips == staged.flips by {
        FirstFlipDisplaces(checked.flips, later.flips, later.store, later.base, later.store.record, t);
        ChainCounts(checked.flips, checked.store, checked.base, checked.store.record, t);
        assert staged.flips != checked.flips ==> checked.flips != [];
      }
    }
  }

  /** The same for every continuation of a run, delayed commits included. */
  ghost predicate AlwaysDisplacesExpected(w: World, e: Expectation) {
    forall steps: seq<Step> {:trigger Run(w, steps)} :: DisplacesExpected(Run(w, steps), e)
  }

  lemma NeverDisplaces(w: World, e: Expectation)
    requires Valid(w) && NeverCommits(w)
    ensures AlwaysDisplacesExpected(w, e)
  {
    forall steps: seq<Step> {:trigger Run(w, steps)} ensures DisplacesExpected(Run(w, steps), e) {
      RunValid(w, steps);
      if w.mine.Some? {
        RefusedForever(w, steps, w.mine.value);
      }
    }
  }

  lemma ExpectationAlwaysBinds(staged: World, checked: World, w: World, e: Expectation)
    requires Valid(staged) && Valid(checked) && Valid(w)
    requires Extends(staged, checked) && Extends(checked, w)
    requires staged.mine.Some? && staged.mine.value < |staged.store.stagings|
    requires BaseRecord(staged.store.stagings[staged.mine.value].against) == staged.store.record
    requires !HasFlipped(checked, staged.mine.value)
    requires CheckExpectation(e, TakeSnapshot(checked.store)) == None
    ensures AlwaysDisplacesExpected(w, e)
  {
    forall steps: seq<Step> {:trigger Run(w, steps)} ensures DisplacesExpected(Run(w, steps), e) {
      hide DisplacesExpected, CheckExpectation, TakeSnapshot, HasFlipped, Valid, BaseRecord;
      RunValid(w, steps);
      ExpectationBinds(staged, checked, Run(w, steps), e);
    }
  }

  lemma MineIsIssued(w: World)
    requires Valid(w) && w.mine.Some?
    ensures w.mine.value < |w.store.stagings|
  {
  }

  lemma StagedBinding(w: World)
    requires w.mine.Some? && w.mine.value < |w.store.stagings|
    requires w.store.stagings[w.mine.value].against == ExactBaseline(w.store)
    ensures BaseRecord(w.store.stagings[w.mine.value].against) == w.store.record
  {
  }

  lemma NowDisplaces(w: World, e: Expectation)
    requires AlwaysDisplacesExpected(w, e)
    ensures DisplacesExpected(w, e)
  {
    assert Run(w, []) == w;
  }

  /** Whether a commit is reported as known when the network loses these calls, its own message being the
      first, and after that answers: the receipt's own reading, if there is one, can still tell. */
  ghost predicate LossKnown(lost: seq<Turn>, observed: bool) {
    var n := |lost|;
    || n <= 2 * ROUNDS
    || (n <= 2 * ROUNDS + (if observed then 2 else 1) && exists j {:trigger lost[j]} ::
          0 <= j < 2 * ROUNDS + 1 && j < n && j % 2 == 0 && Lands(lost[j]))
  }

  lemma NothingLost(observed: bool)
    ensures LossKnown([], observed)
  {
  }

  lemma LossReceipted(
    sent: World, turns: seq<Turn>, v: World, rest: seq<Turn>, known: bool, status: Option<Snapshot>,
    observed: bool, c: Candidate)
    requires turns != [] && (Landed(sent, c) <==> Lands(turns[0])) && v.mine.Some?
    requires LostReceipt(sent, turns[1..], v, rest, known, status, c)
    ensures rest == [] || rest == Rest(turns, 2 * ROUNDS + 2)
    ensures var final := if observed then (if rest == [] then Some(TakeSnapshot(v.store)) else None) else status;
      && (LossKnown(turns, observed) <==> known || (final.Some? && IsExactOccurrence(final.value, c, v.mine.value)))
      && (|turns| <= 2 * ROUNDS ==> known && final == Some(TakeSnapshot(v.store)))
  {
    LandedReads(v, c);
    MessagesOf(sent, c, turns);
  }

  /** The messages among the calls: the commit itself, and every second call of the three rounds. */
  lemma MessagesOf(sent: World, c: Candidate, turns: seq<Turn>)
    requires turns != [] && (Landed(sent, c) <==> Lands(turns[0]))
    ensures LandedBy(sent, c, turns[1..], 2 * ROUNDS)
      <==> exists j {:trigger turns[j]} :: 0 <= j < 2 * ROUNDS + 1 && j < |turns| && j % 2 == 0 && Lands(turns[j])
  {
    if j :| 0 <= j < 2 * ROUNDS + 1 && j < |turns| && j % 2 == 0 && Lands(turns[j]) {
      if j > 0 {
        assert turns[1..][j - 1] == turns[j] && (j - 1) % 2 == 1;
      }
    }
    if j :| 0 <= j < 2 * ROUNDS && j < |turns| - 1 && j % 2 == 1 && Lands(turns[1..][j]) {
      assert turns[j + 1] == turns[1..][j] && (j + 1) % 2 == 0;
    }
  }

  /** The receipt, with a last reading when the document is observed. */
  method Receipted(h: Host, c: Candidate, known: bool, status: Option<Snapshot>, observed: bool)
    returns (r: Receipt, ghost final: Option<Snapshot>)
    requires Valid(h.w) && h.w.mine.Some? && (known ==> CommittedOnce(h.w, c))
    requires status.Some? ==> status.value == TakeSnapshot(h.w.store)
    modifies h
    ensures Valid(h.w) && Extends(old(h.w), h.w) && h.w.mine == old(h.w.mine) && h.w.sent == old(h.w.sent)
    ensures final == if !observed then status
      else if Silent(TurnAt(old(h.turns), 0)) then None else Some(TakeSnapshot(h.w.store))
    ensures h.w == if observed then Run(old(h.w), TurnAt(old(h.turns), 0).steps) else old(h.w)
    ensures r.occurrence == h.w.mine.value && (r.known ==> CommittedOnce(h.w, c))
    ensures r.known <==> known || (final.Some? && IsExactOccurrence(final.value, c, r.occurrence))
    ensures r.liveIsExact <==> final.Some? && IsExactCommit(final.value, c, r.occurrence)
    ensures final.Some? ==> final.value == TakeSnapshot(h.w.store)
  {
    hide CommittedOnce, Valid, Extends, TakeSnapshot, Run, CountFlips;
    ghost var start := h.w;
    final := status;
    var seen := status;
    ExtendsReflexive(start);
    RunNothing(start);
    if observed {
      seen := h.AuthorityStatus();
      final := seen;
      FollowsExtends(start, h.w);
      if known {
        CommittedStays(start, h.w, c);
      }
    }
    var exact := seen.Some? && IsExactOccurrence(seen.value, c, h.w.mine.value);
    if exact {
      ExactOccurrenceCommits(h.w, c);
    }
    r := Receipt(h.w.mine.value, known || exact, seen.Some? && IsExactCommit(seen.value, c, h.w.mine.value));
  }

  /** The commit, its reconciliation and the receipt. */
  method CommitAndReport(h: Host, c: Candidate, observed: bool, ghost before: World)
    returns (r: Result<Receipt, CustodyError>)
    requires Valid(h.w) && h.w.mine.Some? && h.w.sent == 0 && NeverCommits(h.w) && Honest(c)
    modifies h
    ensures Valid(h.w) && Extends(old(h.w), h.w) && 1 <= h.w.sent <= 1 + ROUNDS
    ensures r.Err? ==> NeverCommits(h.w) && r.error == RulesChanged && h.w.sent == 1
    ensures r.Err? <==> Refuses(old(h.w), old(h.turns))
    ensures r.Ok? ==> h.w.mine == Some(r.value.occurrence)
    ensures r.Ok? && r.value.known ==> CommittedOnce(h.w, c)
    ensures r.Ok? && !r.value.known ==> h.w.sent == 1 + ROUNDS
    ensures r.Ok? && r.value.liveIsExact ==>
      r.value.known && IsExactCommit(TakeSnapshot(h.w.store), c, r.value.occurrence)
    ensures Ready(before, c) && old(h.w) == StagedWorld(before, c.text) && AllMute(old(h.turns)) ==>
      && r.Ok? && (r.value.known <==> LossKnown(old(h.turns), observed))
      && (|old(h.turns)| <= 2 * ROUNDS ==>
            (r.value.liveIsExact <==> IsExactCommit(TakeSnapshot(h.w.store), c, r.value.occurrence)))
    ensures Ready(before, c) && old(h.w) == StagedWorld(before, c.text) && LosesAfter(old(h.turns), 1) ==>
      && h.w == CommittedWorld(before, c.text)
      && r == Ok(Receipt(|before.store.stagings|, true, |old(h.turns)| <= if observed then 2 else 1))
  {
    hide CommittedOnce, WellIssued, Chained, Rank, TakeSnapshot, Send, StagedWorld, Run, LandedBy, LossKnown;
    hide LostReceipt, Refuses;
    hide CommittedWorld, CountFlips, IsExactOccurrence, Valid, Extends, Standing, Landed, AllMute, Lands, StaysLanded;
    ghost var start, turns := h.w, h.turns;
    if Ready(before, c) {
      UndisturbedCommit(before, c);
      CommittedIsMine(before, c.text);
      StagedStands(before, c);
    }
    FirstCall(start, turns, c);
    var first := h.CommitToken();
    ghost var sent := h.w;
    if first.Refused? {
      return Err(RulesChanged);
    }
    var known, status := ReconcileIncremental(h, c, first);
    ExtendsTransitive(start, sent, h.w);
    ghost var reported, rest := h.w, h.turns;
    var receipt;
    ghost var final;
    receipt, final := Receipted(h, c, known, status, observed);
    ExtendsTransitive(start, reported, h.w);
    r := Ok(receipt);
    NothingLost(observed);
    if Ready(before, c) && start == StagedWorld(before, c.text) {
      if AllMute(turns) && turns != [] {
        LossReceipted(sent, turns, reported, rest, known, status, observed, c);
        LastReading(turns, 2 * ROUNDS + 2, rest, reported);
      }
      if LosesAfter(turns, 1) {
        MuteCall(Rest(turns, 1), 0, sent);
        MuteCall(Rest(turns, 1), 1, sent);
      }
    }
  }

  /** What is left of a schedule that only loses answers exactly when nothing is left. */
  lemma LastReading(turns: seq<Turn>, n: nat, rest: seq<Turn>, w: World)
    requires AllMute(turns) && (rest == [] || rest == Rest(turns, n))
    ensures Run(w, TurnAt(rest, 0).steps) == w && (Silent(TurnAt(rest, 0)) <==> rest != [])
  {
  }

  /** `compare_and_swap_rules_with_presence`. What it displaces was expected, now and whenever a commit
      that is still under way arrives. */
  method CompareAndSwap(h: Host, e: Expectation, c: Candidate, present: bool, observed: bool)
    returns (r: Result<Receipt, CustodyError>)
    requires Valid(h.w) && h.w.mine == None && Honest(c)
    modifies h
    ensures Valid(h.w) && h.w.sent <= 4
    ensures h.w.sent > 0 ==> present
    ensures DisplacesExpected(h.w, e) && AlwaysDisplacesExpected(h.w, e)
    ensures r.Err? ==> NeverCommits(h.w)
    ensures r.Err? && h.w.sent > 0 ==> r.error == RulesChanged && h.w.sent == 1
    ensures r.Ok? ==> h.w.mine == Some(r.value.occurrence)
    ensures r.Ok? && r.value.known ==> CommittedOnce(h.w, c)
    ensures r.Ok? && !r.value.known ==> h.w.sent == 4
    ensures r.Ok? && r.value.liveIsExact ==>
      r.value.known && IsExactCommit(TakeSnapshot(h.w.store), c, r.value.occurrence)
    // Over a state it does not expect, or without the human, it refuses with the reason.
    ensures QuietFor(old(h.turns), 2) && !Meets(e, old(h.w).store) ==>
      r == Err(Objection(e, old(h.w).store)) && h.w.sent == 0
    ensures QuietFor(old(h.turns), 2) && Meets(e, old(h.w).store) && present ==>
      (r.Err? <==> Refuses(StagedWorld(old(h.w), c.text), Rest(old(h.turns), 2)))
    ensures QuietFor(old(h.turns), 2) && Meets(e, old(h.w).store) && !present ==>
      r == Err(PresenceRefused) && h.w.sent == 0
    // Otherwise it commits when nobody interferes, although the network loses calls from the commit
    // message on;
    ensures Ready(old(h.w), c) && Meets(e, old(h.w).store) && present && LosesAfter(old(h.turns), 2) ==>
      r.Ok? && (r.value.known <==> LossKnown(Rest(old(h.turns), 2), observed))
    // and if that message is answered, by itself.
    ensures Ready(old(h.w), c) && Meets(e, old(h.w).store) && present && LosesAfter(old(h.turns), 3) ==>
      && h.w == CommittedWorld(old(h.w), c.text)
      && r == Ok(Receipt(
        |old(h.w).store.stagings|, true, |Rest(old(h.turns), 2)| <= if observed then 2 else 1))
  {
    hide TakeSnapshot, StagedWorld, CommittedWorld, WellIssued, Chained, CountFlips, Rank, Valid, Extends, Run;
    hide CheckExpectation, CommittedOnce, Meets, Objection, LossKnown, IsExactOccurrence, AllMute, LosesAfter;
    hide DisplacesExpected, AlwaysDisplacesExpected, BaseRecord, Refuses;
    ghost var read, turns := h.w, h.turns;
    TwoCalls(turns);
    NothingSent(read);
    RunNothing(read);
    RunNothing(StagedWorld(read, c.text));
    StagingShowsNothing(read, c.text);
    ExpectationDecides(e, read.store);
    var token := h.StageText(c.text);
    ghost var staged := h.w;
    r := Err(Storage);
    if token.Ok? {
      MineIsIssued(staged);
      StagedBinding(staged);
      var s := h.AuthorityStatus();
      FollowsExtends(staged, h.w);
      if s.Some? {
        var mismatch := CheckExpectation(e, s.value);
        if mismatch.Some? {
          r := Err(mismatch.value);
        } else if !present {
          r := Err(PresenceRefused);
        } else {
          ghost var checked := h.w;
          r := CommitAndReport(h, c, observed, read);
          ExpectationAlwaysBinds(staged, checked, h.w, e);
        }
      }
    }
    if h.w.sent == 0 {
      NeverDisplaces(h.w, e);
    }
    NowDisplaces(h.w, e);
  }

  lemma TwoCalls(turns: seq<Turn>)
    ensures QuietFor(turns, 2) ==> TurnAt(turns, 0) == TurnAt(Rest(turns, 1), 0) == QUIET
    ensures Rest(Rest(turns, 1), 1) == Rest(turns, 2)
    ensures LosesAfter(turns, 2) ==> QuietFor(turns, 2) && AllMute(Rest(turns, 2))
    ensures LosesAfter(turns, 3) ==> QuietFor(turns, 2) && LosesAfter(Rest(turns, 2), 1)
  {
    LosesAt(turns, 2);
    assert QuietFor(turns, 2) ==> TurnAt(turns, 0) == TurnAt(turns, 1) == QUIET;
  }
}
