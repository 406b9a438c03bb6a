/** One client of the daemon: requests whose replies may be lost or delayed while others act, the
    bounded reconciliation of a commit, and the two staged transactions built on it. */
module AuthorityClient {
  import opened Basics
  import opened SentenceRecord

  const ROUNDS := 3

  /** What the daemon makes of a text to be staged. */
  datatype Staging = AsGiven | Canonical(text: string) | Unacceptable

  /** What happens around one request: the steps others take first, whether the request is handled
      late or its reply lost, where the daemon faults, and what it makes of a text. */
  datatype Turn = Turn(steps: seq<Step>, delayed: bool, lost: bool, fault: Fault, staging: Staging)

  const QUIET := Turn([], false, false, NoFault, AsGiven)

  /** The turn of the `i`th call to come, and the schedule after `n` calls. */
  function TurnAt(turns: seq<Turn>, i: nat): Turn { if i < |turns| then turns[i] else QUIET }

  function Rest(turns: seq<Turn>, n: nat): seq<Turn> { if n <= |turns| then turns[n..] else [] }

  /** The caller gets no answer. */
  predicate Silent(turn: Turn) { turn.lost || turn.delayed }

  /** Nobody else acts, but the caller gets no answer. */
  ghost predicate Mute(turn: Turn) { turn.steps == [] && Silent(turn) }

  /** The network loses the calls of this schedule, and does no other harm. */
  ghost predicate AllMute(turns: seq<Turn>) { forall i :: 0 <= i < |turns| ==> Mute(turns[i]) }

  ghost predicate QuietFor(turns: seq<Turn>, n: nat) { forall i :: 0 <= i < n ==> TurnAt(turns, i) == QUIET }

  /** Undisturbed for `n` calls, and after that the network only loses. */
  ghost predicate LosesAfter(turns: seq<Turn>, n: nat) {
    QuietFor(turns, n) && AllMute(Rest(turns, n))
  }

  datatype Attempt = Acknowledged(already: bool, digest: Digest, occurrence: Token) | Refused | Unknown

  datatype StageError = Rejected | StageUnavailable

  /** A prepared corpus: canonical text, its digest, its number of rules. */
  datatype Candidate = Candidate(text: string, digest: Digest, ruleCount: nat)

  ghost predicate Honest(c: Candidate) {
    c.digest == Digest(c.text)
  }

  /** The candidate's digest and count are its text's. */
  ghost predicate Faithful(c: Candidate) { Honest(c) && c.ruleCount == RuleCount(c.text) }

  /** The connection, with every future turn of the environment fixed in advance. */
  class Host {
    var w: World
    var turns: seq<Turn>

    constructor (w: World, turns: seq<Turn>)
      ensures this.w == w && this.turns == turns
    {
      this.w, this.turns := w, turns;
    }

    /** Others act before the next request is handled. */
    method NextTurn() returns (turn: Turn)
      requires Valid(w)
      modifies this
      ensures Valid(w) && Follows(old(w), w) && w == Run(old(w), turn.steps)
      ensures turn == TurnAt(old(turns), 0) && turns == Rest(old(turns), 1)
    {
      turn := if turns == [] then QUIET else turns[0];
      turns := if turns == [] then [] else turns[1..];
      RunValid(w, turn.steps);
      w := Run(w, turn.steps);
    }

    method AuthorityStatus() returns (status: Option<Snapshot>)
      requires Valid(w)
      modifies this
      ensures Valid(w) && Follows(old(w), w)
      ensures turns == Rest(old(turns), 1) && w == Run(old(w), TurnAt(old(turns), 0).steps)
      ensures status == if Silent(TurnAt(old(turns), 0)) then None else Some(TakeSnapshot(w.store))
    {
      var turn := NextTurn();
      status := if turn.lost || turn.delayed then None else Some(TakeSnapshot(w.store));
    }

    /** A staging whose reply is lost leaves an inert file nobody commits. */
    method StageText(text: string) returns (token: Result<Token, StageError>)
      requires Valid(w) && w.mine == None
      modifies this
      ensures Valid(w) && Extends(old(w), w) && w.sent == 0 && w.inflight == 0
      ensures token.Err? ==> w.mine == None
      ensures token.Ok? ==>
        && w.mine == Some(token.value)
        && w.store.stagings[token.value].against == ExactBaseline(w.store)
        && !HasFlipped(w, token.value)
      ensures turns == Rest(old(turns), 1)
      // It has a nonce exactly when the daemon takes the text and says so; what is staged is what it made of it.
      ensures var turn := TurnAt(old(turns), 0);
        && (token == Err(Rejected) <==> turn.staging == Unacceptable)
        && (token.Ok? <==> turn.staging != Unacceptable && !Silent(turn))
        && (token.Ok? ==>
              w == StagedWorld(Run(old(w), turn.steps), if turn.staging.Canonical? then turn.staging.text else text))
    {
      hide Chained, CountFlips, Rank, TakeSnapshot;
      var turn := NextTurn();
      if turn.staging == Unacceptable {
        return Err(Rejected);
      }
      var canonical := if turn.staging == AsGiven then text else turn.staging.text;
      StageValid(w, canonical);
      var s := Stage(w.store, canonical);
      w := w.(store := s.0);
      if turn.lost || turn.delayed {
        return Err(StageUnavailable);
      }
      ChainCounts(w.flips, w.store, w.base, w.store.record, s.1);
      w := w.(mine := Some(s.1));
      token := Ok(s.1);
    }

    /** Send one commit of this client's nonce. */
    method CommitToken() returns (attempt: Attempt)
      requires Valid(w) && w.mine.Some?
      modifies this
      ensures Valid(w) && Extends(old(w), w) && w.mine == old(w.mine) && w.sent == old(w.sent) + 1
      ensures AttemptIsTrue(w, attempt)
      ensures attempt.Refused? && NeverCommits(old(w)) ==> NeverCommits(w)
      ensures turns == Rest(old(turns), 1)
      ensures Run(old(w), TurnAt(old(turns), 0).steps).mine == old(w.mine)
      ensures (w, attempt) == Send(Run(old(w), TurnAt(old(turns), 0).steps), TurnAt(old(turns), 0))
      ensures attempt.Refused? <==> Refuses(old(w), old(turns))
    {
      hide WellIssued, Chained, CountFlips, Rank, TakeSnapshot, Send, AttemptIsTrue;
      var turn := NextTurn();
      SendValid(w, turn);
      var sent := Send(w, turn);
      w := sent.0;
      attempt := sent.1;
    }
  }

  lemma RunNothing(w: World)
    ensures Run(w, []) == w && QUIET.steps == []
  {
  }

  /** A text staged as this client's own. */
  function StagedWorld(w: World, text: string): World {
    w.(store := Stage(w.store, text).0, mine := Some(|w.store.stagings|))
  }

  /** The world after its commit, and that commit's acknowledgement. */
  function CommittedWorld(w: World, text: string): World {
    var t := |w.store.stagings|;
    var s := StagedWorld(w, text).store;
    StagedWorld(w, text).(
      store := s.(record := Some(Authored(text, t)), validated := Some(Digest(text))),
      flips := w.flips + [Flip(t, ExactBaseline(w.store))],
      sent := w.sent + 1)
  }

  lemma StagingShowsNothing(w: World, text: string)
    ensures TakeSnapshot(StagedWorld(w, text).store) == TakeSnapshot(w.store)
  {
  }

  /** Undisturbed, a staged text is committed by one message, and then it is what is served. */
  lemma UndisturbedCommit(w: World, c: Candidate)
    requires Valid(w) && w.mine == None && Honest(c) && c.ruleCount == RuleCount(c.text)
    ensures Send(StagedWorld(w, c.text), QUIET)
      == (CommittedWorld(w, c.text), Acknowledged(false, c.digest, |w.store.stagings|))
    ensures IsExactCommit(TakeSnapshot(CommittedWorld(w, c.text).store), c, |w.store.stagings|)
  {
    var s := StagedWorld(w, c.text).store;
    assert s.stagings[|w.store.stagings|] == Staged(c.text, ExactBaseline(w.store), w.store.now);
    assert ExactBaseline(s) == ExactBaseline(w.store);
  }

  lemma CommittedIsMine(w: World, text: string)
    ensures StagedWorld(w, text).mine == CommittedWorld(w, text).mine == Some(|w.store.stagings|)
  {
  }

  /** One commit message: handled now, or left under way; its reply may be lost. */
  function Send(w: World, turn: Turn): (World, Attempt)
    requires w.mine.Some?
  {
    if turn.delayed then (w.(sent := w.sent + 1, inflight := w.inflight + 1), Unknown)
    else
      var handled := Handle(w.(sent := w.sent + 1), w.mine.value, turn.fault);
      var attempt :=
        if turn.lost then Unknown
        else match handled.1
          case Committed(digest, occurrence) => Acknowledged(false, digest, occurrence)
          case AlreadyCommitted(digest, occurrence) => Acknowledged(true, digest, occurrence)
          case Denied => Refused
          case Failed => Unknown;
      (handled.0, attempt)
  }

  /** The commit message sent next is refused. `FlipsExactly` says when. */
  ghost predicate Refuses(w: World, turns: seq<Turn>) {
    var turn := TurnAt(turns, 0);
    Run(w, turn.steps).mine.Some? && Send(Run(w, turn.steps), turn).1.Refused?
  }

  /** An acknowledgement is true: the nonce has flipped the record to the digest it names. */
  ghost predicate AttemptIsTrue(w: World, a: Attempt) {
    w.mine.Some? && w.mine.value < |w.store.stagings| && a.Acknowledged? ==>
      && HasFlipped(w, w.mine.value) && a.occurrence == w.mine.value
      && a.digest == Digest(w.store.stagings[w.mine.value].text)
  }

  /** What a reply says about the store it was given by. */
  lemma ReplyTells(s: Store, t: Token, fault: Fault)
    ensures var c := Commit(s, t, fault);
      && (c.reply.Committed? || c.reply.AlreadyCommitted? ==>
            t < |s.stagings| && c.reply.occurrence == t && c.reply.digest == Digest(s.stagings[t].text))
      && (c.reply.Committed? ==> c.flipped)
      && (c.reply.AlreadyCommitted? ==> !c.flipped && s.record == Some(Authored(s.stagings[t].text, t)))
      && (c.reply.Denied? ==> !c.flipped)
  {
  }

  lemma FlipCounts(flips: seq<Flip>, f: Flip)
    ensures CountFlips(flips + [f], f.token) > 0
  {
    assert (flips + [f])[..|flips|] == flips;
  }

  /** What a reply says about the flips. */
  lemma ReplyIsTrue(w: World, t: Token, fault: Fault)
    requires Valid(w) && w.mine == Some(t) && w.sent > w.inflight
    ensures var (v, reply) := Handle(w, t, fault);
      && (reply.Committed? || reply.AlreadyCommitted? ==>
            HasFlipped(v, t) && reply.occurrence == t && reply.digest == Digest(w.store.stagings[t].text))
      && (reply.Denied? ==> v.flips == w.flips)
  {
    hide Valid, Commit, CountFlips, ExactBaseline;
    ReplyTells(w.store, t, fault);
    var reply := Handle(w, t, fault).1;
    if reply.Committed? {
      FlipCounts(w.flips, Flip(t, ExactBaseline(w.store)));
    } else if reply.AlreadyCommitted? {
      LiveMeansFlipped(w, t);
    }
  }

  lemma SentValid(w: World)
    requires Valid(w) && w.mine.Some?
    ensures var u := w.(sent := w.sent + 1); Valid(u) && u.sent > u.inflight
    ensures Valid(w.(sent := w.sent + 1, inflight := w.inflight + 1))
  {
    hide Chained, WellIssued, CountFlips;
  }

  lemma SendValid(w: World, turn: Turn)
    requires Valid(w) && w.mine.Some?
    ensures var (v, a) := Send(w, turn);
      && Valid(v) && Extends(w, v) && v.mine == w.mine && v.sent == w.sent + 1
      && AttemptIsTrue(v, a)
      && (a.Refused? && NeverCommits(w) ==> NeverCommits(v))
  {
    hide Valid, Handle, CountFlips;
    SentValid(w);
    if !turn.delayed {
      var u := w.(sent := w.sent + 1);
      HandleValid(u, w.mine.value, turn.fault);
      ReplyIsTrue(u, w.mine.value, turn.fault);
    }
  }

  /** This client's nonce has not flipped the record and no message of it is left that could. */
  ghost predicate NeverCommits(w: World) {
    w.mine.Some? ==> w.inflight == 0 && !HasFlipped(w, w.mine.value)
  }

  // ---- a commit whose replies are lost ---------------------------------------------------------

  /** The record is this client's occurrence of the candidate. */
  predicate Landed(w: World, c: Candidate) {
    w.mine.Some? && w.store.record == Some(Authored(c.text, w.mine.value))
  }

  /** A commit of this client's nonce that is handled flips the record to the candidate, unless it has. */
  ghost predicate Standing(w: World, c: Candidate) {
    && Valid(w) && Honest(c) && c.ruleCount == RuleCount(c.text)
    && w.mine.Some? && w.mine.value < |w.store.stagings| && w.mine.value in w.store.kept
    && var staged := w.store.stagings[w.mine.value];
       && staged.text == c.text && 0 <= w.store.now - staged.created < STAGED_TTL_SECS
       && (Landed(w, c) || staged.against == ExactBaseline(w.store))
  }

  /** A commit handled in this turn flips a record it stands over, although no answer may say so. */
  predicate Lands(turn: Turn) { !turn.delayed && turn.fault in {NoFault, FsyncFails, ProfileFails} }

  /** What the daemon makes of a commit that stands: nothing but the record and its validation changes. */
  lemma StandingCommit(w: World, c: Candidate, fault: Fault)
    requires Standing(w, c)
    ensures var r := Commit(w.store, w.mine.value, fault);
      && r.store == w.store.(record := r.store.record, validated := r.store.validated)
      && (if fault in {NoFault, FsyncFails, ProfileFails} then r.store.record == Some(Authored(c.text, w.mine.value))
          else r.store == w.store)
      && (fault == NoFault ==>
            r.reply == if Landed(w, c) then AlreadyCommitted(c.digest, w.mine.value)
                       else Committed(c.digest, w.mine.value))
  {
    hide Valid, RuleCount, ExactBaseline;
  }

  /** So it stands afterwards. */
  lemma StandingStore(w: World, v: World, c: Candidate)
    requires Standing(w, c) && Valid(v) && v.mine == w.mine
    requires v.store == w.store.(record := v.store.record, validated := v.store.validated)
    requires Landed(v, c) || v.store == w.store
    ensures Standing(v, c)
  {
    hide Valid, RuleCount, ExactBaseline;
  }

  lemma MuteSend(w: World, turn: Turn, c: Candidate)
    requires Standing(w, c) && Mute(turn)
    ensures Send(w, turn).1 == Unknown && Standing(Send(w, turn).0, c) && Run(w, turn.steps) == w
    ensures Landed(Send(w, turn).0, c) <==> Landed(w, c) || Lands(turn)
  {
    SendValid(w, turn);
    StandingCommit(w, c, turn.fault);
    hide Valid, RuleCount, Commit, Standing;
    StandingStore(w, Send(w, turn).0, c);
  }

  lemma QuietSend(w: World, c: Candidate)
    requires Standing(w, c)
    ensures Send(w, QUIET).1 == Acknowledged(Landed(w, c), c.digest, w.mine.value)
    ensures Standing(Send(w, QUIET).0, c) && Landed(Send(w, QUIET).0, c)
  {
    SendValid(w, QUIET);
    StandingCommit(w, c, NoFault);
    hide Valid, RuleCount, Commit, Standing;
    StandingStore(w, Send(w, QUIET).0, c);
  }

  /** A delayed message is no proof of anything, and may still land when nobody waits for it. */
  lemma LateCommitLands(w: World, turn: Turn, c: Candidate)
    requires Standing(w, c) && turn.delayed
    ensures var v := Send(w, turn).0;
      && Send(w, turn).1 == Unknown && (Landed(v, c) <==> Landed(w, c))
      && Landed(Run(v, [Deliver(NoFault)]), c)
  {
    var v := Send(w, turn).0;
    OneStep(v, Deliver(NoFault));
    hide Valid, WellIssued, Chained, CountFlips, RuleCount, Run;
  }

  lemma LandedShows(w: World, c: Candidate)
    requires Standing(w, c)
    ensures IsExactOccurrence(TakeSnapshot(w.store), c, w.mine.value) <==> Landed(w, c)
  {
  }

  // ---- reconciliation of a commit --------------------------------------------------------------

  predicate IsExactOccurrence(s: Snapshot, c: Candidate, occurrence: Token) {
    match s
    case SnapServed(_, text, digest, occ, count) =>
      text == c.text && digest == c.digest && occ == occurrence && count == c.ruleCount
    case SnapUnserved(_, text, digest, occ, count) =>
      text == c.text && digest == c.digest && occ == occurrence && count == c.ruleCount
    case _ => false
  }

  /** The exact occurrence, and served. */
  predicate IsExactCommit(s: Snapshot, c: Candidate, occurrence: Token) {
    s.SnapServed? && IsExactOccurrence(s, c, occurrence)
  }

  /** A reading is the candidate's exact occurrence exactly when the record is its text, by that nonce, and
      the candidate's digest and count are its text's; it is the exact commit when that is also served. */
  lemma ExactMeans(s: Store, c: Candidate, occurrence: Token)
    ensures IsExactOccurrence(TakeSnapshot(s), c, occurrence) <==>
      s.record == Some(Authored(c.text, occurrence)) && Faithful(c)
    ensures IsExactCommit(TakeSnapshot(s), c, occurrence) <==>
      s.record == Some(Authored(c.text, occurrence)) && Faithful(c) && IsServed(s)
  {
  }

  predicate AckMatches(a: Attempt, c: Candidate, occurrence: Token) {
    a.Acknowledged? && a.digest == c.digest && a.occurrence == occurrence
  }

  datatype Resolution = PlainlyCommitted | AlreadyThere | AfterReconciliation

  datatype Terminal =
    | TerminalRefused
    | TerminalCommitted(resolution: Resolution, status: Option<Snapshot>)
    | TerminalUnknown(status: Option<Snapshot>)

  /** This client's nonce has flipped the record, once, to the candidate's text. */
  ghost predicate CommittedOnce(w: World, c: Candidate) {
    && w.mine.Some? && w.mine.value < |w.store.stagings|
    && CountFlips(w.flips, w.mine.value) == 1
    && w.store.stagings[w.mine.value].text == c.text
  }

  lemma ExactOccurrenceCommits(w: World, c: Candidate)
    requires Valid(w) && w.mine.Some? && IsExactOccurrence(TakeSnapshot(w.store), c, w.mine.value)
    ensures CommittedOnce(w, c)
  {
    LiveMeansFlipped(w, w.mine.value);
    FlipsOnce(w, w.mine.value);
  }

  lemma AckCommits(w: World, a: Attempt, c: Candidate)
    requires Valid(w) && w.mine.Some? && Honest(c)
    requires AttemptIsTrue(w, a) && AckMatches(a, c, w.mine.value)
    ensures CommittedOnce(w, c)
  {
    FlipsOnce(w, w.mine.value);
  }

  lemma {:induction false} CountMonotone(a: seq<Flip>, b: seq<Flip>, t: Token)
    requires a <= b
    ensures CountFlips(a, t) <= CountFlips(b, t)
    decreases |b|
  {
    if |a| < |b| {
      CountMonotone(a, b[..|b| - 1], t);
    } else {
      assert a == b;
    }
  }

  lemma CommittedStays(a: World, b: World, c: Candidate)
    requires Valid(a) && Valid(b) && Extends(a, b) && CommittedOnce(a, c)
    ensures CommittedOnce(b, c)
  {
    FlipsOnce(a, a.mine.value);
    FlipsOnce(b, a.mine.value);
    CountMonotone(a.flips, b.flips, a.mine.value);
  }

  /** A record that is in place at both ends is in place, and shown, all along. */
  lemma LandedThroughout(a: World, b: World, d: World, c: Candidate)
    requires Extends(a, b) && Extends(b, d) && Landed(a, c) && d.store.record == a.store.record && Faithful(c)
    ensures b.store.record == a.store.record && Landed(b, c)
    ensures IsExactOccurrence(TakeSnapshot(b.store), c, a.mine.value)
  {
  }

  /** The candidate's occurrence is the record at both ends. */
  ghost predicate StaysLanded(a: World, b: World, c: Candidate) {
    Faithful(c) && Landed(a, c) && b.store.record == a.store.record
  }

  lemma StaysBefore(a: World, b: World, d: World, c: Candidate)
    requires Extends(a, b) && Extends(b, d)
    ensures StaysLanded(a, d, c) ==> StaysLanded(a, b, c) && IsExactOccurrence(TakeSnapshot(b.store), c, a.mine.value)
  {
    if StaysLanded(a, d, c) {
      LandedThroughout(a, b, d, c);
    }
  }

  /** What one call of a schedule that only loses does to the world and to the caller. */
  lemma MuteCall(turns: seq<Turn>, i: nat, w: World)
    ensures AllMute(turns) ==> Run(w, TurnAt(turns, i).steps) == w && (Silent(TurnAt(turns, i)) <==> i < |turns|)
    ensures TurnAt(turns, i) == TurnAt(Rest(turns, i), 0) && Rest(Rest(turns, i), 1) == Rest(turns, i + 1)
    ensures AllMute(turns) ==> AllMute(Rest(turns, i))
  {
  }

  lemma ObservedLanded(w: World, c: Candidate)
    ensures Standing(w, c) && Landed(w, c) ==> StaysLanded(w, w, c)
  {
  }

  /** `observe_apply_terminal_status`: the last of at most 1 + ROUNDS readings. */
  method ObserveTerminalStatus(h: Host, c: Candidate) returns (status: Option<Snapshot>)
    requires Valid(h.w) && h.w.mine.Some?
    modifies h
    ensures Valid(h.w) && Follows(old(h.w), h.w)
    ensures status.Some? ==> status.value == TakeSnapshot(h.w.store)
    // It shows a record that stays in place unless every reading is lost.
    ensures StaysLanded(old(h.w), h.w, c) && (exists i :: 0 <= i <= ROUNDS && !Silent(TurnAt(old(h.turns), i))) ==>
      status.Some? && IsExactOccurrence(status.value, c, h.w.mine.value)
    ensures Standing(old(h.w), c) && Landed(old(h.w), c) && AllMute(old(h.turns)) ==>
      h.w == old(h.w) && (status.Some? <==> |old(h.turns)| <= ROUNDS)
  {
    hide Valid, TakeSnapshot, Standing, StaysLanded, IsExactOccurrence, Run, Extends, AllMute, Silent;
    ghost var start, turns := h.w, h.turns;
    MuteCall(turns, 0, start);
    ObservedLanded(start, c);
    status := h.AuthorityStatus();
    for round := 0 to ROUNDS
      invariant Valid(h.w) && Follows(start, h.w) && h.turns == Rest(turns, round + 1)
      invariant status == if Silent(TurnAt(turns, round)) then None else Some(TakeSnapshot(h.w.store))
      invariant StaysLanded(start, h.w, c) ==> forall i :: 0 <= i < round ==> Silent(TurnAt(turns, i))
      invariant AllMute(turns) ==> h.w == start && (status.Some? <==> |turns| <= round)
    {
      if status.Some? && IsExactOccurrence(status.value, c, h.w.mine.value) {
        return;
      }
      ghost var before := h.w;
      MuteCall(turns, round + 1, before);
      status := h.AuthorityStatus();
      FollowsTransitive(start, before, h.w);
      StaysBefore(start, before, h.w, c);
    }
    StaysBefore(start, h.w, h.w, c);
  }

  lemma FollowsReflexive(w: World)
    ensures Follows(w, w)
  {
  }

  lemma FollowsExtends(a: World, b: World)
    requires Follows(a, b)
    ensures Extends(a, b) && b.mine == a.mine && b.sent == a.sent
  {
  }

  lemma ExtendsTransitive(a: World, b: World, d: World)
    requires Extends(a, b) && Extends(b, d)
    ensures Extends(a, d)
  {
  }

  lemma LandedReads(w: World, c: Candidate)
    ensures Standing(w, c) ==>
      w.mine.Some? && (IsExactOccurrence(TakeSnapshot(w.store), c, w.mine.value) <==> Landed(w, c))
  {
    if Standing(w, c) {
      LandedShows(w, c);
    }
  }

  /** The second call of a round, its commit message, when the network only loses. */
  lemma LossySend(w: World, turns: seq<Turn>, c: Candidate)
    ensures Standing(w, c) && AllMute(turns) ==>
      var sent := Send(w, TurnAt(turns, 1));
      && Standing(sent.0, c)
      && if |turns| >= 2 then sent.1 == Unknown && (Landed(sent.0, c) <==> Landed(w, c) || Lands(turns[1]))
         else sent.1 == Acknowledged(Landed(w, c), c.digest, w.mine.value) && Landed(sent.0, c)
  {
    if Standing(w, c) && AllMute(turns) {
      hide Standing, Send, Lands, Landed;
      if |turns| >= 2 {
        MuteSend(w, turns[1], c);
      } else {
        QuietSend(w, c);
      }
    }
  }

  /** What a round makes of a commit that stands, when the network only loses: with at most one call
      left to lose it settles, and otherwise its own message may have landed. */
  ghost predicate LostRound(
    w: World, turns: seq<Turn>, v: World, rest: seq<Turn>, r: Option<Terminal>, c: Candidate)
  {
    && Standing(v, c)
    && if |turns| >= 2 then
         r == None && rest == turns[2..] && (Landed(v, c) <==> Landed(w, c) || Lands(turns[1]))
       else
         && Landed(v, c)
         && r == Some(TerminalCommitted(ResolutionOf(Landed(w, c), |turns|), Some(TakeSnapshot(v.store))))
  }

  /** How a commit turns out to stand when `lost` calls went unanswered before: whether it had landed,
      and whether a reading or a message was answered first. */
  function ResolutionOf(landed: bool, lost: nat): Resolution {
    if !landed then PlainlyCommitted else if lost % 2 == 0 then AfterReconciliation else AlreadyThere
  }

  /** One round: look for the occurrence, then send the same nonce again. */
  method RetryRound(h: Host, c: Candidate) returns (r: Option<Terminal>)
    requires Valid(h.w) && h.w.mine.Some? && Honest(c)
    modifies h
    ensures Valid(h.w) && Extends(old(h.w), h.w) && h.w.mine == old(h.w.mine)
    ensures old(h.w.sent) <= h.w.sent <= old(h.w.sent) + 1
    ensures r.Some? ==> r.value.TerminalCommitted? && CommittedOnce(h.w, c)
    ensures r.Some? && r.value.status.Some? ==> r.value.status.value == TakeSnapshot(h.w.store)
    ensures r.None? ==> h.turns == Rest(old(h.turns), 2) && h.w.sent == old(h.w.sent) + 1
    // It settles on an answered reading of a record that stays in place.
    ensures StaysLanded(old(h.w), h.w, c) && !Silent(TurnAt(old(h.turns), 0)) ==>
      r == Some(TerminalCommitted(AfterReconciliation, Some(TakeSnapshot(h.w.store))))
    ensures Standing(old(h.w), c) && AllMute(old(h.turns)) ==>
      LostRound(old(h.w), old(h.turns), h.w, h.turns, r, c)
  {
    hide CommittedOnce, Honest, Valid, CountFlips, TakeSnapshot, IsExactOccurrence, Run, StaysLanded, Extends;
    hide AllMute, Silent, Standing, Landed, Lands, Send;
    ghost var start, turns := h.w, h.turns;
    MuteCall(turns, 0, start);
    MuteCall(turns, 1, start);
    MuteCall(turns, 2, start);
    LandedReads(start, c);
    var status := h.AuthorityStatus();
    ghost var read := h.w;
    FollowsExtends(start, read);
    if status.Some? && IsExactOccurrence(status.value, c, h.w.mine.value) {
      ExactOccurrenceCommits(h.w, c);
      return Some(TerminalCommitted(AfterReconciliation, status));
    }
    LossySend(start, turns, c);
    var attempt := h.CommitToken();
    ExtendsTransitive(start, read, h.w);
    if !AckMatches(attempt, c, h.w.mine.value) {
      StaysBefore(start, read, h.w, c);
      return None;
    }
    AckCommits(h.w, attempt, c);
    ghost var acked := h.w;
    var after := ObserveTerminalStatus(h, c);
    CommittedStays(acked, h.w, c);
    FollowsExtends(acked, h.w);
    ExtendsTransitive(start, acked, h.w);
    ExtendsTransitive(read, acked, h.w);
    StaysBefore(start, read, h.w, c);
    r := Some(TerminalCommitted(if attempt.already then AlreadyThere else PlainlyCommitted, after));
  }

  /** The commit had landed, or one of the messages among the first `n` calls lost makes it land. */
  ghost predicate LandedBy(w: World, c: Candidate, turns: seq<Turn>, n: nat) {
    Landed(w, c) || exists j {:trigger turns[j]} :: 0 <= j < n && j < |turns| && j % 2 == 1 && Lands(turns[j])
  }

  /** What reconciliation makes of a commit that stands, when the network only loses these calls: a round
      is two of them, and the last reading is the only one after three rounds. */
  ghost predicate LostCommit(w: World, turns: seq<Turn>, v: World, r: Terminal, c: Candidate) {
    var n := |turns|;
    if n < 2 * ROUNDS || (n == 2 * ROUNDS && LandedBy(w, c, turns, n)) then
      && Standing(v, c) && Landed(v, c)
      && r == TerminalCommitted(ResolutionOf(LandedBy(w, c, turns, n), n), Some(TakeSnapshot(v.store)))
    else r.TerminalUnknown?
  }

  /** Two more calls are lost: a reading, and a message. */
  lemma LandedByStep(w: World, c: Candidate, turns: seq<Turn>, k: nat)
    requires 2 * k + 2 <= |turns|
    ensures LandedBy(w, c, turns, 2 * k + 2) <==> LandedBy(w, c, turns, 2 * k) || Lands(turns[2 * k + 1])
    ensures Rest(turns, 2 * k)[1] == turns[2 * k + 1]
  {
    assert (2 * k + 1) % 2 == 1;
  }

  lemma LandedBySettled(w: World, c: Candidate, turns: seq<Turn>, k: nat)
    requires 2 * k <= |turns| < 2 * k + 2
    ensures LandedBy(w, c, turns, |turns|) <==> LandedBy(w, c, turns, 2 * k)
    ensures |turns| % 2 == |turns| - 2 * k
  {
    assert (2 * k) % 2 == 0;
  }

  /** The loop state when the network only loses: both calls of every round so far were lost. */
  ghost predicate LostSoFar(start: World, turns: seq<Turn>, w: World, rest: seq<Turn>, c: Candidate, k: nat) {
    && 2 * k <= |turns| && rest == turns[2 * k..] && Standing(w, c)
    && (Landed(w, c) <==> LandedBy(start, c, turns, 2 * k))
  }

  lemma LostStep(
    start: World, turns: seq<Turn>, w: World, rest: seq<Turn>, v: World, rest': seq<Turn>, r: Option<Terminal>,
    c: Candidate, k: nat)
    requires LostSoFar(start, turns, w, rest, c, k) && LostRound(w, rest, v, rest', r, c) && k < ROUNDS
    ensures r.None? ==> LostSoFar(start, turns, v, rest', c, k + 1)
    ensures r.Some? ==> LostCommit(start, turns, v, r.value, c)
  {
    hide Standing, Landed, Lands, LandedBy;
    if |rest| >= 2 {
      LandedByStep(start, c, turns, k);
      assert turns[2 * k..][1] == turns[2 * k + 1];
      assert turns[2 * k..][2..] == turns[2 * (k + 1)..];
    } else {
      LandedBySettled(start, c, turns, k);
    }
  }

  lemma LostEnd(
    start: World, turns: seq<Turn>, w: World, rest: seq<Turn>, c: Candidate, status: Option<Snapshot>, r: Terminal)
    requires LostSoFar(start, turns, w, rest, c, ROUNDS)
    requires status == if rest != [] then None else Some(TakeSnapshot(w.store))
    requires w.mine.Some? && r == FinalTerminal(status, c, w.mine.value)
    ensures LostCommit(start, turns, w, r, c)
  {
    LandedReads(w, c);
    if rest == [] {
      LandedBySettled(start, c, turns, ROUNDS);
    }
  }

  lemma ExtendsReflexive(w: World)
    ensures Extends(w, w)
  {
  }

  /** A record in place at both ends of a run is in place over each part of it. */
  lemma StaysBetween(a: World, b: World, d: World, c: Candidate)
    requires Extends(a, b) && Extends(b, d)
    ensures StaysLanded(a, d, c) ==> StaysLanded(a, b, c) && StaysLanded(b, d, c)
  {
  }

  lemma RestCalls(turns: seq<Turn>, k: nat)
    ensures TurnAt(Rest(turns, 2 * k), 0) == TurnAt(turns, 2 * k)
    ensures Rest(Rest(turns, 2 * k), 2) == Rest(turns, 2 * (k + 1))
    ensures AllMute(turns) ==> AllMute(Rest(turns, 2 * k))
  {
  }

  lemma LostStart(w: World, turns: seq<Turn>, c: Candidate)
    requires Standing(w, c)
    ensures LostSoFar(w, turns, w, turns, c, 0)
  {
    assert turns[0..] == turns;
  }

  /** What the last reading says. */
  function FinalTerminal(status: Option<Snapshot>, c: Candidate, occurrence: Token): Terminal {
    if status.Some? && IsExactOccurrence(status.value, c, occurrence)
    then TerminalCommitted(AfterReconciliation, status) else TerminalUnknown(status)
  }

  /** Where a retried commit stands after `round` rounds that settled nothing. */
  ghost predicate Retrying(start: World, turns: seq<Turn>, w: World, rest: seq<Turn>, c: Candidate, round: nat) {
    && Extends(start, w) && w.mine == start.mine && w.sent == start.sent + round && rest == Rest(turns, 2 * round)
    && (StaysLanded(start, w, c) ==> forall k :: 0 <= k < round ==> Silent(TurnAt(turns, 2 * k)))
    && (Standing(start, c) && AllMute(turns) ==> LostSoFar(start, turns, w, rest, c, round))
  }

  lemma RetryStarts(w: World, turns: seq<Turn>, c: Candidate)
    ensures Retrying(w, turns, w, turns, c, 0)
  {
    ExtendsReflexive(w);
    if Standing(w, c) {
      LostStart(w, turns, c);
    }
  }

  /** What a round that sends one message, and whose reading misses nothing that stays, keeps. */
  lemma RetryKeeps(
    start: World, turns: seq<Turn>, w: World, rest: seq<Turn>, v: World, rest': seq<Turn>, settled: bool, c: Candidate,
    round: nat)
    requires Retrying(start, turns, w, rest, c, round)
    requires Extends(w, v) && v.mine == w.mine
    requires !settled ==> rest' == Rest(rest, 2) && v.sent == w.sent + 1
    requires StaysLanded(w, v, c) && !Silent(TurnAt(rest, 0)) ==> settled
    ensures Extends(start, v) && v.mine == start.mine
    ensures Standing(start, c) && AllMute(turns) ==>
      AllMute(rest) && Standing(w, c) && LostSoFar(start, turns, w, rest, c, round)
    ensures !settled && (Standing(start, c) && AllMute(turns) ==> LostSoFar(start, turns, v, rest', c, round + 1)) ==>
      Retrying(start, turns, v, rest', c, round + 1)
  {
    RestCalls(turns, round);
    ExtendsTransitive(start, w, v);
    StaysBetween(start, w, v, c);
    hide Extends, StaysLanded, Silent, TurnAt, Rest, AllMute, Standing, LandedBy, Landed;
  }

  /** The last reading, after all rounds. */
  lemma RetryEnds(start: World, turns: seq<Turn>, w: World, rest: seq<Turn>, v: World, c: Candidate)
    requires Retrying(start, turns, w, rest, c, ROUNDS) && Follows(w, v) && v == Run(w, TurnAt(rest, 0).steps)
    ensures Extends(start, v) && v.mine == start.mine && v.sent == start.sent + ROUNDS
    ensures rest == Rest(turns, 2 * ROUNDS)
    ensures StaysLanded(start, v, c) && Silent(TurnAt(rest, 0)) ==>
      forall k :: 0 <= k <= ROUNDS ==> Silent(TurnAt(turns, 2 * k))
    ensures StaysLanded(start, v, c) && v.mine.Some? ==> IsExactOccurrence(TakeSnapshot(v.store), c, v.mine.value)
    ensures Standing(start, c) && AllMute(turns) ==>
      v == w && (Silent(TurnAt(rest, 0)) <==> rest != []) && LostSoFar(start, turns, w, rest, c, ROUNDS)
  {
    RestCalls(turns, ROUNDS);
    MuteCall(rest, 0, w);
    FollowsExtends(w, v);
    ExtendsTransitive(start, w, v);
    StaysBetween(start, w, v, c);
    ExtendsReflexive(v);
    StaysBefore(start, v, v, c);
    hide Extends, Silent, TurnAt, Rest, AllMute, Standing, LandedBy, Landed, IsExactOccurrence, TakeSnapshot, Run;
    hide Follows;
  }

  /** `reconcile_apply_commit`: only this nonce is retried, at most ROUNDS more times. */
  method ReconcileApplyCommit(h: Host, c: Candidate, first: Attempt) returns (r: Terminal)
    requires Valid(h.w) && h.w.mine.Some? && Honest(c)
    requires first.Refused? ==> NeverCommits(h.w)
    requires AttemptIsTrue(h.w, first)
    modifies h
    ensures Valid(h.w) && Extends(old(h.w), h.w) && h.w.mine == old(h.w.mine)
    ensures old(h.w.sent) <= h.w.sent <= old(h.w.sent) + ROUNDS
    ensures r.TerminalRefused? <==> first.Refused?
    ensures r.TerminalRefused? ==> NeverCommits(h.w) && h.w.sent == old(h.w.sent)
    ensures r.TerminalCommitted? ==> CommittedOnce(h.w, c)
    ensures !r.TerminalRefused? && r.status.Some? ==> r.status.value == TakeSnapshot(h.w.store)
    // An acknowledgement settles it, whatever else is lost.
    ensures AckMatches(first, c, h.w.mine.value) ==>
      r.TerminalCommitted? && r.resolution == if first.already then AlreadyThere else PlainlyCommitted
    ensures AckMatches(first, c, h.w.mine.value) && Standing(old(h.w), c) && Landed(old(h.w), c)
            && AllMute(old(h.turns)) ==>
      h.w == old(h.w) && (r.status.Some? <==> |old(h.turns)| <= ROUNDS)
    // Giving up takes all three retries, and every reading of a record that stays in place was lost.
    ensures r.TerminalUnknown? ==> h.w.sent == old(h.w.sent) + ROUNDS
    ensures r.TerminalUnknown? && StaysLanded(old(h.w), h.w, c) ==>
      forall k :: 0 <= k <= ROUNDS ==> Silent(TurnAt(old(h.turns), 2 * k))
    // Over a network that only loses, it settles exactly when one of its calls is answered in time.
    ensures Standing(old(h.w), c) && AllMute(old(h.turns)) && first == Unknown ==>
      LostCommit(old(h.w), old(h.turns), h.w, r, c)
  {
    hide CommittedOnce, Honest, Valid, CountFlips, TakeSnapshot, IsExactOccurrence, Run, StaysLanded, Extends;
    hide AllMute, Silent, Standing, Landed, LandedBy, LostRound, LostCommit, LostSoFar, Retrying, Follows, Rest;
    hide TurnAt;
    ghost var start, turns := h.w, h.turns;
    ExtendsReflexive(start);
    if first.Refused? {
      return TerminalRefused;
    }
    if AckMatches(first, c, h.w.mine.value) {
      AckCommits(h.w, first, c);
      var status := ObserveTerminalStatus(h, c);
      FollowsExtends(start, h.w);
      CommittedStays(start, h.w, c);
      return TerminalCommitted(if first.already then AlreadyThere else PlainlyCommitted, status);
    }
    ghost var losing := Standing(start, c) && AllMute(turns);
    RetryStarts(start, turns, c);
    for round := 0 to ROUNDS
      invariant Valid(h.w) && h.w.mine == start.mine && h.w.sent == start.sent + round
      invariant Retrying(start, turns, h.w, h.turns, c, round)
    {
      ghost var before, calls := h.w, h.turns;
      var settled := RetryRound(h, c);
      RetryKeeps(start, turns, before, calls, h.w, h.turns, settled.Some?, c, round);
      if losing {
        LostStep(start, turns, before, calls, h.w, h.turns, settled, c, round);
      }
      if settled.Some? {
        return settled.value;
      }
    }
    ghost var before, calls := h.w, h.turns;
    var status := h.AuthorityStatus();
    RetryEnds(start, turns, before, calls, h.w, c);
    r := FinalTerminal(status, c, h.w.mine.value);
    if losing {
      LostEnd(start, turns, before, calls, c, status, r);
    }
    if r.TerminalCommitted? {
      ExactOccurrenceCommits(h.w, c);
    }
  }

  // ---- `doc apply` -----------------------------------------------------------------------------

  datatype Marker = NoMarker | Pin(digest: Digest)

  /** The repository document as it was prepared. */
  datatype Document = Document(candidate: Candidate, marker: Marker, canonical: bool, sourceIsEmpty: bool)

  /** What the operator answers, whether the file and its root were unchanged at each of the three
      rechecks, and whether the served baseline could be prepared. */
  datatype Operator = Operator(
    preparable: bool, interactive: bool, accepts: bool, present: bool,
    firstSame: bool, secondSame: bool, thirdSame: bool)

  datatype Outcome =
    | Refusing                       // no commit was sent
    | NoChange
    | MarkerRepair
    | StaleStage
    | OutcomeUnknown
    | Unreconciled                   // acknowledged, final live state unavailable
    | Superseded
    | Applied(resolution: Resolution)

  predicate CandidateIsLive(s: Snapshot, c: Candidate) {
    s.SnapServed? && s.text == c.text && s.digest == c.digest && s.ruleCount == c.ruleCount
  }

  /** Whether the checks before staging let this document replace this baseline. */
  predicate MayReplace(s: Snapshot, d: Document, replaceLive: bool, recover: bool) {
    match s
    case SnapAbsent => !(d.sourceIsEmpty && d.marker == NoMarker) && (d.marker == NoMarker || replaceLive)
    case SnapServed(_, _, digest, _, _) => d.marker == Pin(digest) || replaceLive
    case SnapUnserved(_, _, _, _, _) => recover
    case SnapCorrupt(_) => recover
  }

  function SnapshotRecord(s: Snapshot): Option<Record> {
    match s
    case SnapAbsent => None
    case SnapServed(r, _, _, _, _) => Some(r)
    case SnapUnserved(r, _, _, _, _) => Some(r)
    case SnapCorrupt(r) => Some(r)
  }

  lemma SnapshotShows(s: Store)
    ensures SnapshotRecord(TakeSnapshot(s)) == s.record == BaseRecord(ExactBaseline(s))
    ensures TakeSnapshot(s).SnapServed? <==> IsServed(s)
  {
  }

  /** `apply_precommit_recheck`. */
  method PrecommitRecheck(h: Host, same: bool, baseline: Snapshot) returns (ok: bool)
    requires Valid(h.w)
    modifies h
    ensures Valid(h.w) && Follows(old(h.w), h.w)
    ensures ok ==> same && TakeSnapshot(h.w.store) == baseline && SnapshotRecord(baseline) == h.w.store.record
    ensures same && TurnAt(old(h.turns), 0) == QUIET ==>
      h.turns == Rest(old(h.turns), 1) && h.w == old(h.w) && (ok <==> TakeSnapshot(h.w.store) == baseline)
  {
    hide Valid, Follows, Run, TakeSnapshot, SnapshotRecord, ExactBaseline, IsServed, BaseRecord;
    FollowsReflexive(h.w);
    if !same {
      return false;
    }
    RunNothing(h.w);
    var status := h.AuthorityStatus();
    SnapshotShows(h.w.store);
    ok := status == Some(baseline);
  }

  /** Nothing this client staged can displace anything but the record `baseline` showed. */
  ghost predicate BoundTo(w: World, baseline: Snapshot) {
    && w.mine.Some? && w.mine.value < |w.store.stagings|
    && BaseRecord(w.store.stagings[w.mine.value].against) == SnapshotRecord(baseline)
  }

  /** The worlds of a transaction: `baseline` is what `read` showed, and `atStage`, later, is where this
      client's staging was bound. */
  ghost predicate Traced(w: World, baseline: Snapshot, read: World, atStage: World) {
    && baseline == TakeSnapshot(read.store) && Extends(read, atStage)
    && w.mine.Some? && w.mine.value < |w.store.stagings|
    && w.store.stagings[w.mine.value].against == ExactBaseline(atStage.store)
  }

  /** Bound to the record at the staging, which is the record of the reading. */
  lemma TracedIsBound(w: World, baseline: Snapshot, read: World, atStage: World)
    requires Traced(w, baseline, read, atStage)
    ensures BoundTo(w, baseline) <==> atStage.store.record == read.store.record
    ensures atStage.store.record == read.store.record <==> atStage.flips == read.flips
  {
    hide TakeSnapshot, SnapshotRecord, ExactBaseline, BaseRecord;
    SnapshotShows(read.store);
    SnapshotShows(atStage.store);
  }

  lemma TracedStays(w: World, v: World, baseline: Snapshot, read: World, atStage: World)
    requires Traced(w, baseline, read, atStage) && Extends(w, v)
    ensures Traced(v, baseline, read, atStage)
  {
  }

  /** The operator agrees, and the document stays as it was read. */
  predicate Willing(op: Operator) {
    op.firstSame && op.interactive && op.accepts && op.secondSame && op.present && op.thirdSame
  }

  lemma QuietCalls(turns: seq<Turn>)
    ensures QuietFor(turns, 4) ==>
      && TurnAt(turns, 0) == TurnAt(Rest(turns, 1), 0) == QUIET
      && TurnAt(Rest(Rest(turns, 1), 1), 0) == TurnAt(Rest(Rest(Rest(turns, 1), 1), 1), 0) == QUIET
    ensures Rest(Rest(Rest(Rest(turns, 1), 1), 1), 1) == Rest(turns, 4)
  {
    assert QuietFor(turns, 4) ==>
      TurnAt(turns, 0) == TurnAt(turns, 1) == TurnAt(turns, 2) == TurnAt(turns, 3) == QUIET;
  }

  /** Staging and the three rechecks around the two questions; true when the commit may be sent. */
  method StageAndConfirm(h: Host, text: string, baseline: Snapshot, op: Operator)
    returns (go: bool, ghost atStage: World)
    requires Valid(h.w) && h.w.mine == None && baseline == TakeSnapshot(h.w.store)
    modifies h
    ensures Valid(h.w) && Extends(old(h.w), h.w) && h.w.sent == 0 && h.w.inflight == 0
    ensures NeverCommits(h.w)
    ensures go ==> Traced(h.w, baseline, old(h.w), atStage) && atStage.store.record == old(h.w).store.record
    ensures go ==> Willing(op)
    ensures QuietFor(old(h.turns), 4) && Willing(op) ==>
      go && h.turns == Rest(old(h.turns), 4) && h.w == StagedWorld(old(h.w), text)
  {
    hide TakeSnapshot, StagedWorld, WellIssued, Chained, CountFlips, Rank, BaseRecord;
    go := false;
    ghost var read := h.w;
    QuietCalls(h.turns);
    RunNothing(read);
    RunNothing(StagedWorld(read, text));
    StagingShowsNothing(h.w, text);
    SnapshotShows(h.w.store);
    var token := h.StageText(text);
    atStage := h.w;
    if token.Ok? {
      var ok := PrecommitRecheck(h, op.firstSame, baseline);
      if ok && op.interactive && op.accepts {
        NeverReturns(read, atStage, h.w);
        ok := PrecommitRecheck(h, op.secondSame, baseline);
        if ok && op.present {
          go := PrecommitRecheck(h, op.thirdSame, baseline);
        }
      }
    }
  }

  /** A world in which this client has staged nothing yet, and a candidate that is what it says. */
  ghost predicate Ready(w: World, c: Candidate) {
    Valid(w) && w.mine == None && Honest(c) && c.ruleCount == RuleCount(c.text)
  }

  /** What a commit ends with when the network loses these calls, its own message being the first, and
      after that answers: the seventh call after it is the last that can still tell. */
  ghost function LossOutcome(lost: seq<Turn>): Outcome {
    var n := |lost|;
    var landed := exists j {:trigger lost[j]} :: 0 <= j < n && j % 2 == 0 && Lands(lost[j]);
    if n == 0 then Applied(PlainlyCommitted)
    else if n <= 2 * ROUNDS || (n == 2 * ROUNDS + 1 && landed) then Applied(ResolutionOf(landed, n - 1))
    else OutcomeUnknown
  }

  /** The outcomes of a commit that was sent. */
  predicate Concluded(out: Outcome) { !out.Refusing? && !out.NoChange? && !out.MarkerRepair? }

  /** What is reported of a reconciled commit. */
  function OutcomeOf(terminal: Terminal, c: Candidate, occurrence: Token): Outcome {
    match terminal
    case TerminalRefused => StaleStage
    case TerminalUnknown(_) => OutcomeUnknown
    case TerminalCommitted(_, None) => Unreconciled
    case TerminalCommitted(resolution, Some(status)) =>
      if IsExactOccurrence(status, c, occurrence) then Applied(resolution) else Superseded
  }

  /** A text just staged stands, and has not landed. */
  lemma StagedStands(w: World, c: Candidate)
    requires Ready(w, c)
    ensures Standing(StagedWorld(w, c.text), c) && !Landed(StagedWorld(w, c.text), c)
  {
    StageValid(w, c.text);
    ChainCounts(w.flips, w.store, w.base, w.store.record, |w.store.stagings|);
    var s := StagedWorld(w, c.text).store;
    assert s.stagings[|w.store.stagings|] == Staged(c.text, ExactBaseline(w.store), w.store.now);
  }

  /** The commit message itself, over a network that only loses, and over one that lets it through. */
  lemma FirstCall(w: World, turns: seq<Turn>, c: Candidate)
    ensures Standing(w, c) && !Landed(w, c) && AllMute(turns) ==>
      var sent := Send(Run(w, TurnAt(turns, 0).steps), TurnAt(turns, 0));
      && Standing(sent.0, c) && AllMute(Rest(turns, 1))
      && if turns == [] then sent.1 == Acknowledged(false, c.digest, w.mine.value) && Landed(sent.0, c)
         else sent.1 == Unknown && (Landed(sent.0, c) <==> Lands(turns[0]))
    ensures Standing(w, c) && !Landed(w, c) && TurnAt(turns, 0) == QUIET ==>
      var sent := Send(Run(w, TurnAt(turns, 0).steps), TurnAt(turns, 0));
      Run(w, QUIET.steps) == w && Standing(sent.0, c) && Landed(sent.0, c)
  {
    if Standing(w, c) && !Landed(w, c) {
      hide Standing, Send, Lands, Landed;
      assert Run(w, []) == w;
      if AllMute(turns) {
        MuteCall(turns, 0, w);
        MuteCall(turns, 1, w);
        if turns != [] {
          MuteSend(w, turns[0], c);
        }
      }
      if TurnAt(turns, 0) == QUIET {
        QuietSend(w, c);
      }
    }
  }

  lemma LossConcludes(start: World, turns: seq<Turn>, sent: World, v: World, terminal: Terminal, c: Candidate)
    requires turns == [] ==>
      Standing(v, c) && Landed(v, c) && terminal == TerminalCommitted(PlainlyCommitted, Some(TakeSnapshot(v.store)))
    requires turns != [] ==> (Landed(sent, c) <==> Lands(turns[0])) && LostCommit(sent, turns[1..], v, terminal, c)
    requires v.mine.Some?
    ensures OutcomeOf(terminal, c, v.mine.value) == LossOutcome(turns)
  {
    LandedReads(v, c);
    if turns != [] {
      LandedByShift(sent, c, turns);
    }
  }

  /** The messages among the calls: the commit itself, and every second call after it. */
  lemma LandedByShift(sent: World, c: Candidate, turns: seq<Turn>)
    requires turns != [] && (Landed(sent, c) <==> Lands(turns[0]))
    ensures LandedBy(sent, c, turns[1..], |turns| - 1)
      <==> exists j {:trigger turns[j]} :: 0 <= j < |turns| && j % 2 == 0 && Lands(turns[j])
  {
    if j :| 0 <= j < |turns| && j % 2 == 0 && Lands(turns[j]) {
      if j > 0 {
        assert turns[1..][j - 1] == turns[j] && (j - 1) % 2 == 1;
      }
    }
    if j :| 0 <= j < |turns| - 1 && j % 2 == 1 && Lands(turns[1..][j]) {
      assert turns[j + 1] == turns[1..][j] && (j + 1) % 2 == 0;
    }
  }

  /** The commit, its reconciliation, and the check that its occurrence is still the live one. */
  method CommitAndReconcile(h: Host, c: Candidate, ghost before: World) returns (out: Outcome)
    requires Valid(h.w) && h.w.mine.Some? && NeverCommits(h.w) && h.w.sent == 0 && Honest(c)
    modifies h
    ensures Valid(h.w) && Extends(old(h.w), h.w) && 1 <= h.w.sent <= 1 + ROUNDS
    ensures Concluded(out)
    ensures out.Applied? || out.Superseded? || out.Unreconciled? ==> CommittedOnce(h.w, c)
    ensures out.Applied? ==> IsExactOccurrence(TakeSnapshot(h.w.store), c, h.w.mine.value)
    ensures out.Superseded? ==> !IsExactOccurrence(TakeSnapshot(h.w.store), c, h.w.mine.value)
    ensures out.StaleStage? ==> h.w.sent == 1 && NeverCommits(h.w)
    ensures out.OutcomeUnknown? ==> h.w.sent == 1 + ROUNDS
    ensures out.StaleStage? <==> Refuses(old(h.w), old(h.turns))
    ensures Ready(before, c) && old(h.w) == StagedWorld(before, c.text) && AllMute(old(h.turns)) ==>
      out == LossOutcome(old(h.turns))
    ensures Ready(before, c) && old(h.w) == StagedWorld(before, c.text) && LosesAfter(old(h.turns), 1) ==>
      && out == (if |old(h.turns)| <= 1 + ROUNDS then Applied(PlainlyCommitted) else Unreconciled)
      && h.w == CommittedWorld(before, c.text)
  {
    hide Send, StagedWorld, CommittedWorld, WellIssued, Chained, CountFlips, Rank, TakeSnapshot, CommittedOnce;
    hide Refuses;
    hide Valid, Extends, Standing, Landed, LandedBy, LostCommit, IsExactOccurrence, AllMute, Lands, LossOutcome, Run;
    ghost var start, turns := h.w, h.turns;
    if Ready(before, c) {
      UndisturbedCommit(before, c);
      CommittedIsMine(before, c.text);
      StagedStands(before, c);
    }
    FirstCall(start, turns, c);
    var first := h.CommitToken();
    ghost var sent := h.w;
    var terminal := ReconcileApplyCommit(h, c, first);
    ExtendsTransitive(start, sent, h.w);
    out := OutcomeOf(terminal, c, h.w.mine.value);
    if Ready(before, c) && start == StagedWorld(before, c.text) && AllMute(turns) {
      LossConcludes(start, turns, sent, h.w, terminal, c);
    }
  }

  /** A document the checks let through: the marker names what is live, or a flag acknowledges that it
      does not, and there is something to change. */
  ghost predicate Permitted(live: Snapshot, d: Document, replaceLive: bool, recover: bool) {
    match live
    case SnapAbsent => if d.marker == NoMarker then !d.sourceIsEmpty else replaceLive
    case SnapServed(_, text, digest, _, _) => text != d.candidate.text && (d.marker == Pin(digest) || replaceLive)
    case _ => recover
  }

  /** The document is permitted over what is live, and everything asked is agreed to. */
  ghost predicate Cleared(w: World, d: Document, replaceLive: bool, recover: bool, op: Operator) {
    var live := TakeSnapshot(w.store);
    d.canonical && Permitted(live, d, replaceLive, recover) && (live.SnapServed? ==> op.preparable) && Willing(op)
  }

  lemma QuietNext(turns: seq<Turn>, n: nat)
    requires n > 0
    ensures QuietFor(turns, n) ==> TurnAt(turns, 0) == QUIET && QuietFor(Rest(turns, 1), n - 1)
    ensures Rest(Rest(turns, 1), n - 1) == Rest(turns, n)
  {
    if QuietFor(turns, n) {
      forall i | 0 <= i < n - 1 ensures TurnAt(Rest(turns, 1), i) == QUIET {
        assert TurnAt(turns, i + 1) == QUIET;
      }
    }
  }

  lemma LosesNext(turns: seq<Turn>, n: nat)
    requires n > 0
    ensures LosesAfter(turns, n) ==> TurnAt(turns, 0) == QUIET && LosesAfter(Rest(turns, 1), n - 1)
    ensures Rest(Rest(turns, 1), n - 1) == Rest(turns, n)
  {
    QuietNext(turns, n);
  }

  lemma LiveMeansEqual(s: Store, c: Candidate)
    ensures var live := TakeSnapshot(s);
      CandidateIsLive(live, c) <==> live.SnapServed? && live.text == c.text && Faithful(c)
  {
  }

  lemma NothingSent(w: World)
    requires Valid(w) && w.mine == None
    ensures w.sent == 0 && NeverCommits(w)
  {
  }

  lemma LosesAt(turns: seq<Turn>, n: nat)
    ensures LosesAfter(turns, n) ==> QuietFor(turns, n) && AllMute(Rest(turns, n))
    ensures LosesAfter(turns, n + 1) ==> QuietFor(turns, n) && LosesAfter(Rest(turns, n), 1)
  {
    assert TurnAt(turns, n) == TurnAt(Rest(turns, n), 0);
    assert Rest(Rest(turns, n), 1) == Rest(turns, n + 1);
  }

  lemma LiveText(live: Snapshot, c: Candidate)
    requires CandidateIsLive(live, c)
    ensures live.SnapServed? && live.text == c.text
  {
  }

  lemma TracedIsMine(w: World, baseline: Snapshot, read: World, atStage: World)
    requires Traced(w, baseline, read, atStage)
    ensures w.mine.Some?
  {
  }

  /** `run_apply` from the reading of the baseline on. */
  method ApplyTo(h: Host, d: Document, live: Snapshot, replaceLive: bool, recover: bool, op: Operator)
    returns (out: Outcome, ghost atStage: World)
    requires Valid(h.w) && h.w.mine == None && Honest(d.candidate) && d.canonical && live == TakeSnapshot(h.w.store)
    modifies h
    ensures Valid(h.w) && h.w.sent <= 1 + ROUNDS
    ensures Concluded(out) <==> h.w.sent > 0
    ensures h.w.sent > 0 ==> Traced(h.w, live, old(h.w), atStage) && BoundTo(h.w, live)
    ensures h.w.sent > 0 ==> Willing(op) && (live.SnapServed? ==> op.preparable)
    ensures h.w.sent > 0 ==>
      && (live.SnapServed? ==> d.marker == Pin(live.digest) || replaceLive)
      && (live.SnapAbsent? ==> d.marker == NoMarker || replaceLive)
      && (live.SnapUnserved? || live.SnapCorrupt? ==> recover)
    ensures out.MarkerRepair? || out.NoChange? <==>
      CandidateIsLive(live, d.candidate) || (live.SnapAbsent? && d.sourceIsEmpty && d.marker == NoMarker)
    ensures out.MarkerRepair? ==> live.SnapServed? && d.marker != Pin(d.candidate.digest)
    ensures out.NoChange? && live.SnapServed? ==> d.marker == Pin(d.candidate.digest)
    ensures out.Applied? || out.Superseded? || out.Unreconciled? ==> CommittedOnce(h.w, d.candidate)
    ensures out.Applied? ==> IsExactOccurrence(TakeSnapshot(h.w.store), d.candidate, h.w.mine.value)
    ensures out.Superseded? ==> !IsExactOccurrence(TakeSnapshot(h.w.store), d.candidate, h.w.mine.value)
    ensures out.StaleStage? ==> h.w.sent == 1 && NeverCommits(h.w)
    ensures out.OutcomeUnknown? ==> h.w.sent == 1 + ROUNDS
    ensures !Concluded(out) ==> NeverCommits(h.w)
    ensures Cleared(old(h.w), d, replaceLive, recover, op) && QuietFor(old(h.turns), 4) ==>
      (out.StaleStage? <==> Refuses(StagedWorld(old(h.w), d.candidate.text), Rest(old(h.turns), 4)))
    ensures Ready(old(h.w), d.candidate) && Cleared(old(h.w), d, replaceLive, recover, op)
            && LosesAfter(old(h.turns), 4) ==>
      out == LossOutcome(Rest(old(h.turns), 4))
    ensures Ready(old(h.w), d.candidate) && Cleared(old(h.w), d, replaceLive, recover, op)
            && LosesAfter(old(h.turns), 5) ==>
      && out == (if |Rest(old(h.turns), 4)| <= 1 + ROUNDS then Applied(PlainlyCommitted) else Unreconciled)
      && h.w == CommittedWorld(old(h.w), d.candidate.text)
  {
    hide StagedWorld, CommittedWorld, WellIssued, Chained, CountFlips, Rank, CommittedOnce, BoundTo, Traced;
    hide TakeSnapshot, LossOutcome, Valid, Extends, IsExactOccurrence, AllMute, LosesAfter, Honest, Refuses;
    out, atStage := Refusing, h.w;
    ghost var read, turns := h.w, h.turns;
    LosesAt(turns, 4);
    NothingSent(h.w);
    if CandidateIsLive(live, d.candidate) {
      LiveText(live, d.candidate);
      out := if d.marker == Pin(d.candidate.digest) then NoChange else MarkerRepair;
    } else if live.SnapAbsent? && d.sourceIsEmpty && d.marker == NoMarker {
      out := NoChange;
    } else if MayReplace(live, d, replaceLive, recover) && (live.SnapServed? ==> op.preparable) {
      var go;
      go, atStage := StageAndConfirm(h, d.candidate.text, live, op);
      if go {
        ghost var staged := h.w;
        TracedIsMine(staged, live, read, atStage);
        out := CommitAndReconcile(h, d.candidate, read);
        TracedStays(staged, h.w, live, read, atStage);
        TracedIsBound(h.w, live, read, atStage);
      }
    }
  }

  /** `doc apply` of a prepared repository document, up to the marker update. */
  method RunApply(h: Host, d: Document, replaceLive: bool, recover: bool, op: Operator)
    returns (out: Outcome, baseline: Option<Snapshot>, ghost read: World, ghost atStage: World)
    requires Valid(h.w) && h.w.mine == None && Honest(d.candidate)
    modifies h
    ensures Valid(h.w)
    ensures baseline.Some? ==> baseline.value == TakeSnapshot(read.store) && Follows(old(h.w), read)
    ensures Concluded(out) <==> h.w.sent > 0
    // No lost update: whatever commits displaces the record the review was computed from,
    ensures h.w.sent > 0 ==>
      && baseline.Some? && Traced(h.w, baseline.value, read, atStage) && BoundTo(h.w, baseline.value)
    // and that record is the one the marker names, unless a flag acknowledges that it is not.
    ensures h.w.sent > 0 ==>
      && (baseline.value.SnapServed? ==> d.marker == Pin(baseline.value.digest) || replaceLive)
      && (baseline.value.SnapAbsent? ==> d.marker == NoMarker || replaceLive)
      && (baseline.value.SnapUnserved? || baseline.value.SnapCorrupt? ==> recover)
    ensures h.w.sent > 0 ==> Willing(op) && (baseline.value.SnapServed? ==> op.preparable)
    ensures h.w.sent <= 4
    // A corpus that is live already is not applied again, and nothing is made of nothing.
    ensures Faithful(d.candidate) && baseline.Some? && d.canonical ==>
      var live := baseline.value;
      out.MarkerRepair? || out.NoChange? <==>
        || (live.SnapServed? && live.text == d.candidate.text)
        || (live.SnapAbsent? && d.sourceIsEmpty && d.marker == NoMarker)
    ensures out.MarkerRepair? ==> baseline.Some? && baseline.value.SnapServed? && d.marker != Pin(d.candidate.digest)
    ensures !out.Refusing? ==> d.canonical && baseline.Some?
    ensures out.NoChange? && baseline.value.SnapServed? ==> d.marker == Pin(d.candidate.digest)
    // The verdicts are sound.
    ensures out.Applied? || out.Superseded? || out.Unreconciled? ==> CommittedOnce(h.w, d.candidate)
    ensures out.Applied? ==> IsExactOccurrence(TakeSnapshot(h.w.store), d.candidate, h.w.mine.value)
    ensures out.Superseded? ==> !IsExactOccurrence(TakeSnapshot(h.w.store), d.candidate, h.w.mine.value)
    ensures out.StaleStage? ==> h.w.sent == 1 && NeverCommits(h.w)
    ensures out.OutcomeUnknown? ==> h.w.sent == 4
    ensures !Concluded(out) ==> NeverCommits(h.w)
    // When nobody interferes before its commit, what is permitted and agreed to is refused exactly when the
    // daemon refuses the first message.
    ensures Cleared(old(h.w), d, replaceLive, recover, op) && QuietFor(old(h.turns), 5) ==>
      (out.StaleStage? <==> Refuses(StagedWorld(old(h.w), d.candidate.text), Rest(old(h.turns), 5)))
    // When nobody interferes, what is permitted and agreed to commits, although the network loses calls
    // from the commit message on;
    ensures Ready(old(h.w), d.candidate) && Cleared(old(h.w), d, replaceLive, recover, op)
            && LosesAfter(old(h.turns), 5) ==>
      out == LossOutcome(Rest(old(h.turns), 5))
    // and if that message is answered, by itself.
    ensures Ready(old(h.w), d.candidate) && Cleared(old(h.w), d, replaceLive, recover, op)
            && LosesAfter(old(h.turns), 6) ==>
      && out == (if |Rest(old(h.turns), 5)| <= 1 + ROUNDS then Applied(PlainlyCommitted) else Unreconciled)
      && h.w == CommittedWorld(old(h.w), d.candidate.text)
  {
    hide StagedWorld, CommittedWorld, WellIssued, Chained, CountFlips, Rank, CommittedOnce, BoundTo, Traced;
    hide LossOutcome, Refuses, QuietFor;
    hide Valid, Extends, IsExactOccurrence, LosesAfter, Permitted, CandidateIsLive, TakeSnapshot, Run;
    out, baseline, read, atStage := Refusing, None, h.w, h.w;
    ghost var start, turns := h.w, h.turns;
    RunNothing(start);
    NothingSent(start);
    if d.canonical {
      QuietNext(turns, 5);
      LosesNext(turns, 5);
      LosesNext(turns, 6);
      baseline := h.AuthorityStatus();
      read := h.w;
      if baseline.Some? {
        LiveMeansEqual(read.store, d.candidate);
        out, atStage := ApplyTo(h, d, baseline.value, replaceLive, recover, op);
      }
    }
  }

  /** No lost update, over every continuation: even a commit that arrives after the client has gone
      displaces exactly the record its review was computed from. It displaces it in the serving class
      that was reviewed exactly when the record was served at the staging as it was at the reading. */
  lemma NoLostUpdate(w: World, baseline: Snapshot, read: World, atStage: World, steps: seq<Step>, k: nat)
    requires Valid(w) && Traced(w, baseline, read, atStage) && BoundTo(w, baseline)
    requires k < |Run(w, steps).flips| && Run(w, steps).flips[k].token == w.mine.value
    ensures BaseRecord(Run(w, steps).flips[k].displaced) == SnapshotRecord(baseline)
    ensures ClassOf(Run(w, steps).flips[k].displaced) == ClassOf(ExactBaseline(read.store))
      <==> (IsServed(atStage.store) <==> baseline.SnapServed?)
  {
    hide Run, Valid, TakeSnapshot, SnapshotRecord, ExactBaseline, BaseRecord, ClassOf, IsServed, Extends;
    TracedIsBound(w, baseline, read, atStage);
    SnapshotShows(read.store);
    ClassDisplaced(read, atStage, w, steps, w.mine.value, k);
  }

  /** So without `--replace-live`, every text an apply ever displaces is the one its marker names, and an
      unmarked document never displaces any. */
  lemma DisplacesNamed(
    w: World, baseline: Snapshot, read: World, atStage: World, steps: seq<Step>, k: nat, marker: Marker)
    requires Valid(w) && Traced(w, baseline, read, atStage) && BoundTo(w, baseline)
    requires k < |Run(w, steps).flips| && Run(w, steps).flips[k].token == w.mine.value
    requires baseline.SnapServed? ==> marker == Pin(baseline.digest)
    requires baseline.SnapAbsent? ==> marker == NoMarker
    ensures var displaced := BaseRecord(Run(w, steps).flips[k].displaced);
      && (baseline.SnapServed? ==>
            displaced.Some? && displaced.value.Authored? && marker == Pin(Digest(displaced.value.text)))
      && (baseline.SnapAbsent? ==> displaced == None)
  {
    NoLostUpdate(w, baseline, read, atStage, steps, k);
    hide Run, Valid, Extends, ExactBaseline, BaseRecord;
  }

  // ---- the body ceremony -----------------------------------------------------------------------

  /** What the body ceremony asks for before it commits. */
  ghost predicate BodyCleared(live: Snapshot, recover: bool, op: Operator) {
    && (live.SnapUnserved? || live.SnapCorrupt? ==> recover) && (live.SnapServed? ==> op.preparable)
    && op.interactive && op.accepts && op.present
  }

  /** `run_body_apply` up to its commit: it stages after reading the baseline and never reads again. */
  method StageBody(h: Host, text: string, recover: bool, op: Operator)
    returns (go: bool, baseline: Option<Snapshot>, ghost read: World, ghost atStage: World)
    requires Valid(h.w) && h.w.mine == None
    modifies h
    ensures Valid(h.w) && h.w.sent == 0 && h.w.inflight == 0 && NeverCommits(h.w)
    ensures go ==> baseline.Some? && Traced(h.w, baseline.value, read, atStage) && atStage == h.w
    ensures go ==> BodyCleared(baseline.value, recover, op)
    ensures QuietFor(old(h.turns), 2) && BodyCleared(TakeSnapshot(old(h.w).store), recover, op) ==>
      go && h.turns == Rest(old(h.turns), 2) && h.w == StagedWorld(old(h.w), text)
  {
    hide StagedWorld, WellIssued, Chained, CountFlips, Rank, TakeSnapshot;
    go := false;
    assert QuietFor(h.turns, 2) ==> TurnAt(h.turns, 0) == TurnAt(h.turns, 1) == QUIET;
    assert TurnAt(h.turns, 1) == TurnAt(Rest(h.turns, 1), 0) && Rest(Rest(h.turns, 1), 1) == Rest(h.turns, 2);
    RunNothing(h.w);
    baseline := h.AuthorityStatus();
    read, atStage := h.w, h.w;
    if baseline.Some? {
      var live := baseline.value;
      if (live.SnapUnserved? || live.SnapCorrupt? ==> recover) && (live.SnapServed? ==> op.preparable) {
        var token := h.StageText(text);
        atStage := h.w;
        go := token.Ok? && op.interactive && op.accepts && op.present;
      }
    }
  }

  /** `run_body_apply`, up to the check of the stored profile. */
  method RunBodyApply(h: Host, c: Candidate, recover: bool, op: Operator)
    returns (out: Outcome, baseline: Option<Snapshot>, ghost read: World, ghost atStage: World)
    requires Valid(h.w) && h.w.mine == None && Honest(c)
    modifies h
    ensures Valid(h.w) && h.w.sent <= 4
    ensures h.w.sent > 0 ==> baseline.Some? && Traced(h.w, baseline.value, read, atStage)
    ensures h.w.sent > 0 ==> BodyCleared(baseline.value, recover, op)
    ensures out.Applied? ==> CommittedOnce(h.w, c)
    ensures out.StaleStage? ==> h.w.sent == 1 && NeverCommits(h.w)
    ensures out.Refusing? ==> h.w.sent == 0 && NeverCommits(h.w)
    ensures out.Applied? || out.StaleStage? || out.Refusing? || out.OutcomeUnknown?
    ensures out.OutcomeUnknown? ==> h.w.sent == 4
    ensures BodyCleared(TakeSnapshot(old(h.w).store), recover, op) && QuietFor(old(h.turns), 2) ==>
      (out.StaleStage? <==> Refuses(StagedWorld(old(h.w), c.text), Rest(old(h.turns), 2)))
    ensures Ready(old(h.w), c) && BodyCleared(TakeSnapshot(old(h.w).store), recover, op)
            && LosesAfter(old(h.turns), 2) ==>
      out == LossOutcome(Rest(old(h.turns), 2))
    ensures Ready(old(h.w), c) && BodyCleared(TakeSnapshot(old(h.w).store), recover, op)
            && LosesAfter(old(h.turns), 3) ==>
      out == Applied(PlainlyCommitted) && h.w == CommittedWorld(old(h.w), c.text)
  {
    hide StagedWorld, CommittedWorld, WellIssued, Chained, CountFlips, Rank, CommittedOnce, Traced, TakeSnapshot, Send;
    hide Valid, Extends, Standing, Landed, LandedBy, LostCommit, IsExactOccurrence, AllMute, Lands, LossOutcome, Run;
    hide BodyCleared, Refuses;
    ghost var before := h.w;
    ghost var losing :=
      Ready(before, c) && LosesAfter(h.turns, 2) && BodyCleared(TakeSnapshot(before.store), recover, op);
    LosesAt(h.turns, 2);
    out := Refusing;
    var go;
    go, baseline, read, atStage := StageBody(h, c.text, recover, op);
    if go {
      ghost var staged := h.w;
      TracedIsMine(staged, baseline.value, read, atStage);
      ghost var turns := h.turns;
      if Ready(before, c) {
        UndisturbedCommit(before, c);
        CommittedIsMine(before, c.text);
        StagedStands(before, c);
      }
      FirstCall(staged, turns, c);
      var first := h.CommitToken();
      ghost var sent := h.w;
      var terminal := ReconcileApplyCommit(h, c, first);
      ExtendsTransitive(staged, sent, h.w);
      TracedStays(staged, h.w, baseline.value, read, atStage);
      out := match terminal
        case TerminalRefused => StaleStage
        case TerminalUnknown(_) => OutcomeUnknown
        case TerminalCommitted(resolution, _) => Applied(resolution);
      if losing {
        LossConcludes(staged, turns, sent, h.w, terminal, c);
        LossIsKnown(turns);
      }
    }
  }

  lemma LossIsKnown(turns: seq<Turn>)
    ensures LossOutcome(turns).Applied? || LossOutcome(turns).OutcomeUnknown?
  {
  }

  /** Whatever the body ceremony's commit displaces, in any continuation of its run, is the record its
      review showed exactly when nothing was committed between its reading and its staging. */
  lemma BodyDisplacesReviewed(w: World, baseline: Snapshot, read: World, atStage: World, steps: seq<Step>, k: nat)
    requires Valid(w) && Traced(w, baseline, read, atStage)
    requires k < |Run(w, steps).flips| && Run(w, steps).flips[k].token == w.mine.value
    ensures BaseRecord(Run(w, steps).flips[k].displaced) == SnapshotRecord(baseline) <==> atStage.flips == read.flips
  {
    hide Run, Valid, TakeSnapshot, SnapshotRecord, ExactBaseline, BaseRecord;
    DisplacesStaged(w, steps, w.mine.value, k);
    TracedIsBound(w, baseline, read, atStage);
  }

  /** A run in which the body ceremony displaces a generation its review never showed. */
  lemma BodyReviewCanBeStale()
    ensures exists read: World, between: seq<Step> ::
      && Valid(read) && read.mine == None
      && var atStage := Run(read, between);
         var staged := atStage.(store := Stage(atStage.store, "body\n").0, mine := Some(|atStage.store.stagings|));
         var handled := Handle(staged, staged.mine.value, NoFault);
         && handled.1.Committed?
         && BaseRecord(handled.0.flips[|handled.0.flips| - 1].displaced) != SnapshotRecord(TakeSnapshot(read.store))
  {
    var read := World(Store(None, [Staged("theirs\n", NoRecord, 0)], {0}, None, 0), 1, [], None, 0, 0);
    assert Valid(read);
    var between: seq<Step> := [CommitOther(0, NoFault)];
    var atStage := StepWorld(read, CommitOther(0, NoFault));
    assert Run(read, between) == Run(atStage, []) by { assert between[1..] == []; }
    assert atStage.store.record == Some(Authored("theirs\n", 0));
    var staged := atStage.(store := Stage(atStage.store, "body\n").0, mine := Some(|atStage.store.stagings|));
    assert staged.store.stagings[1] == Staged("body\n", ExactBaseline(atStage.store), 0);
    var handled := Handle(staged, 1, NoFault);
    assert handled.1.Committed?;
  }
}
