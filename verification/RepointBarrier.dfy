/** The quiesce barrier of `cermet mcp install`: the daemon's side, what a disciplined run looks like,
    and what such a run guarantees. Times are in milliseconds. */
module RepointBarrier {
  import opened Basics

  // ---- the lease constants ---------------------------------------------------------------------

  const REPOINT_TTL_SECS := 120
  const DRAIN_POLL := 500
  const DRAIN_TIMEOUT_SECS := 60
  const STEP_MUTATION_TIMEOUT_SECS := 20
  const MUTATION_MARGIN_SECS := 10
  const MUTATION_BUDGET_SECS := 2 * STEP_MUTATION_TIMEOUT_SECS + MUTATION_MARGIN_SECS

  /** Whole seconds, as both sides read their clocks. */
  function Seconds(ms: nat): nat { ms / 1000 }

  /** `lease_covers_mutation`. */
  predicate LeaseCovers(expires: nat, now: nat) { expires - Seconds(now) >= MUTATION_BUDGET_SECS }

  /** The daemon holds a barrier through the whole second in which it expires. */
  predicate InForce(expires: nat, now: nat) { Seconds(now) <= expires }

  // ---- the daemon ------------------------------------------------------------------------------

  datatype Barrier = Barrier(token: nat, expires: nat)

  datatype Status = Quiescent | Active | OrphanAmbiguous | Integrity
  datatype Report = Report(instance: nat, status: Status)

  datatype Step = Remove | Add | WriteConfig

  /** What a run leaves behind: our calls, each with its time, and the claims the daemon admitted. */
  datatype Event =
    | Begun(at: nat, token: nat, instance: nat, expires: nat)
    | Polled(at: nat, token: nat, reply: Option<Report>)
    | Ended(at: nat, token: nat)
    | Leased(at: nat)
    | Mutated(at: nat, step: Step, from: nat)
    | Claimed(at: nat)

  /** What happens to the daemon meanwhile. */
  datatype Act = Wait(ms: nat) | Claim | Restart | OtherBegin(ttl: nat) | OtherEnd | Housekeep

  datatype Drop = Nothing | Request | Reply
  datatype Run = Exited(code: int) | TimedOut | Failed

  /** Before each call the environment acts. Then the call's messages may be lost, and the rest says
      what the daemon finds or how the child process ends. */
  datatype Turn = Turn(acts: seq<Act>, drop: Drop, status: Status, run: Run)

  datatype Host = Host(
    now: nat, instance: nat, barrier: Option<Barrier>, minted: nat, mine: set<nat>,
    turns: seq<Turn>, log: seq<Event>)

  predicate Live(h: Host) { h.barrier.Some? && InForce(h.barrier.value.expires, h.now) }

  predicate Validates(h: Host, token: nat) { Live(h) && h.barrier.value.token == token }

  function Happen(h: Host, act: Act): Host {
    match act
    case Wait(ms) => h.(now := h.now + ms)
    case Claim => if Live(h) then h else h.(barrier := None, log := h.log + [Claimed(h.now)])
    case Restart => h.(instance := h.instance + 1)
    case OtherBegin(ttl) =>
      if Live(h) then h
      else h.(barrier := Some(Barrier(h.minted, Seconds(h.now) + Max(5, Min(ttl, 1800)))), minted := h.minted + 1)
    case OtherEnd => if Live(h) && h.barrier.value.token !in h.mine then h.(barrier := None) else h
    case Housekeep => if Live(h) then h else h.(barrier := None)
  }

  // ---- disciplined runs ------------------------------------------------------------------------

  /** Where a run stands. `confirmed`: the last thing we did was a recheck that passed. `leased`: when
      the lease was last found long enough. `changes`: how many changes were made since then, and
      `budgeted`: the time they took, each up to the timeout that stops it. */
  datatype Phase =
    | Idle
    | Held(token: nat, instance: nat, expires: nat, confirmed: bool, leased: Option<nat>, changes: nat, budgeted: nat)
    | Over(token: nat, confirmed: bool)
    | Undisciplined

  /** What a recheck accepts. */
  predicate Confirms(reply: Option<Report>, instance: nat, force: bool) {
    reply.Some? && reply.value.instance == instance && (force || reply.value.status == Quiescent)
  }

  /** The part of a change's time that its timeout accounts for. */
  function Budgeted(from: nat, at: nat): nat { Min(SaturatingSub(at, from), 1000 * STEP_MUTATION_TIMEOUT_SECS) }

  /** The discipline. A barrier is begun once and ended once, by its token. While it is held, every
      change directly follows a recheck that passed, at most two changes follow one look at the lease that
      found it long enough, and no claim is admitted while the lease is in force. Without a barrier,
      changes need `--force`. */
  function Advance(p: Phase, e: Event, force: bool): Phase {
    match e
    case Begun(_, token, instance, expires) =>
      if p.Idle? then Held(token, instance, expires, false, None, 0, 0) else Undisciplined
    case Polled(_, token, reply) =>
      if p.Held? && token == p.token
      then Held(token, p.instance, p.expires, Confirms(reply, p.instance, force), p.leased, p.changes, p.budgeted)
      else Undisciplined
    case Leased(at) =>
      if p.Held? && LeaseCovers(p.expires, at)
      then Held(p.token, p.instance, p.expires, false, Some(at), 0, 0)
      else Undisciplined
    case Mutated(at, _, from) =>
      if p.Held? && p.confirmed && p.leased.Some? && p.changes < 2
      then Held(p.token, p.instance, p.expires, false, p.leased, p.changes + 1, p.budgeted + Budgeted(from, at))
      else if !p.Held? && force then p
      else Undisciplined
    case Ended(_, token) =>
      if p.Held? && token == p.token then Over(token, p.confirmed) else Undisciplined
    case Claimed(at) =>
      if p.Held? && InForce(p.expires, at) then Undisciplined else p
  }

  function PhaseOf(log: seq<Event>, force: bool): Phase {
    if log == [] then Idle else Advance(PhaseOf(log[..|log| - 1], force), log[|log| - 1], force)
  }

  lemma PhasePush(log: seq<Event>, e: Event, force: bool)
    ensures PhaseOf(log + [e], force) == Advance(PhaseOf(log, force), e, force)
  {
    assert (log + [e])[..|log|] == log;
  }

  function Polls(log: seq<Event>): nat {
    if log == [] then 0 else Polls(log[..|log| - 1]) + if log[|log| - 1].Polled? then 1 else 0
  }

  /** The changes made, in order. */
  function Mutations(log: seq<Event>): seq<Step> {
    if log == [] then []
    else
      var e := log[|log| - 1];
      Mutations(log[..|log| - 1]) + if e.Mutated? then [e.step] else []
  }

  lemma CountPush(log: seq<Event>, e: Event)
    ensures Polls(log + [e]) == Polls(log) + if e.Polled? then 1 else 0
    ensures Mutations(log + [e]) == Mutations(log) + if e.Mutated? then [e.step] else []
  {
    assert (log + [e])[..|log|] == log;
  }

  /** The times of a log never go back, and end by `now`. */
  ghost predicate Ordered(log: seq<Event>, now: nat) {
    log != [] ==> log[|log| - 1].at <= now && Ordered(log[..|log| - 1], log[|log| - 1].at)
  }

  /** While we hold a barrier that is in force, it is the daemon's. */
  ghost predicate Sound(h: Host, force: bool) {
    && Ordered(h.log, h.now)
    && (forall t :: t in h.mine ==> t < h.minted)
    && (h.barrier.Some? ==> h.barrier.value.token < h.minted)
    && var p := PhaseOf(h.log, force);
       (p.Held? ==> p.token in h.mine && (InForce(p.expires, h.now) ==> h.barrier == Some(Barrier(p.token, p.expires))))
  }

  /** Nothing we did: the phase and the counts stay, time may pass. */
  ghost predicate Passive(a: Host, b: Host, force: bool) {
    && Sound(b, force) && PhaseOf(b.log, force) == PhaseOf(a.log, force)
    && Polls(b.log) == Polls(a.log) && Mutations(b.log) == Mutations(a.log)
    && a.now <= b.now
  }

  /** A claim that is admitted leaves the run where it was: no barrier of ours is in force. */
  lemma ClaimPassive(h: Host, force: bool)
    requires Sound(h, force) && !Live(h)
    ensures Passive(h, Happen(h, Claim), force)
  {
    var e := Claimed(h.now);
    PhasePush(h.log, e, force);
    CountPush(h.log, e);
    OrderedPush(h.log, e);
    hide PhaseOf, Polls, Mutations, Ordered;
  }

  /** Whatever happens, a barrier we hold stays the daemon's while it is in force, and no claim is
      admitted past it. */
  lemma HappenPassive(h: Host, act: Act, force: bool)
    requires Sound(h, force)
    ensures Passive(h, Happen(h, act), force)
  {
    if act.Claim? && !Live(h) {
      ClaimPassive(h, force);
    } else {
      OrderedLater(h.log, h.now, Happen(h, act).now);
      hide PhaseOf, Polls, Mutations, Ordered;
    }
  }

  lemma OrderedLater(log: seq<Event>, now: nat, later: nat)
    requires Ordered(log, now) && now <= later
    ensures Ordered(log, later)
  {
  }

  lemma OrderedPush(log: seq<Event>, e: Event)
    requires Ordered(log, e.at)
    ensures Ordered(log + [e], e.at)
  {
    assert (log + [e])[..|log|] == log;
  }

  lemma PassiveTransitive(a: Host, b: Host, c: Host, force: bool)
    requires Passive(a, b, force) && Passive(b, c, force)
    ensures Passive(a, c, force)
  {
  }

  // ---- what discipline means -------------------------------------------------------------------

  function Begins(log: seq<Event>): seq<nat> {
    if log == [] then []
    else
      var e := log[|log| - 1];
      Begins(log[..|log| - 1]) + if e.Begun? then [e.token] else []
  }

  function Ends(log: seq<Event>): seq<nat> {
    if log == [] then []
    else
      var e := log[|log| - 1];
      Ends(log[..|log| - 1]) + if e.Ended? then [e.token] else []
  }

  /** What has begun and ended by a phase. */
  predicate Paired(p: Phase, begins: seq<nat>, ends: seq<nat>) {
    && (p.Idle? ==> begins == [] && ends == [])
    && (p.Held? ==> begins == [p.token] && ends == [])
    && (p.Over? ==> begins == [p.token] && ends == [p.token])
  }

  lemma PairedStep(p: Phase, e: Event, force: bool, begins: seq<nat>, ends: seq<nat>)
    requires !Advance(p, e, force).Undisciplined?
    ensures !p.Undisciplined?
    ensures Paired(p, begins, ends) ==>
      Paired(
        Advance(p, e, force), begins + if e.Begun? then [e.token] else [], ends + if e.Ended? then [e.token] else [])
  {
    hide InForce, LeaseCovers, Confirms, Budgeted;
  }

  /** Every begin is matched by exactly one end of the same token. */
  lemma {:induction false} BeginsMatchEnds(log: seq<Event>, force: bool)
    requires !PhaseOf(log, force).Undisciplined?
    ensures Paired(PhaseOf(log, force), Begins(log), Ends(log))
  {
    if log != [] {
      hide Advance, Paired;
      var before, e := log[..|log| - 1], log[|log| - 1];
      PairedStep(PhaseOf(before, force), e, force, Begins(before), Ends(before));
      BeginsMatchEnds(before, force);
    }
  }

  lemma {:induction false} PrefixIsDisciplined(log: seq<Event>, k: nat, force: bool)
    requires k <= |log| && !PhaseOf(log, force).Undisciplined?
    ensures !PhaseOf(log[..k], force).Undisciplined?
    decreases |log|
  {
    if k < |log| {
      PrefixIsDisciplined(log[..|log| - 1], k, force);
      assert log[..|log| - 1][..k] == log[..k];
    } else {
      assert log[..k] == log;
    }
  }

  /** Only admitted claims since index `from`. */
  ghost predicate OnlyClaims(log: seq<Event>, from: nat) {
    forall j :: from <= j < |log| ==> log[j].Claimed?
  }

  /** A phase that is confirmed was confirmed by our last call. */
  lemma {:induction false} ConfirmedBy(log: seq<Event>, force: bool) returns (c: nat)
    requires var p := PhaseOf(log, force); p.Held? && p.confirmed
    ensures var p := PhaseOf(log, force);
      && c < |log| && log[c].Polled? && log[c].token == p.token && Confirms(log[c].reply, p.instance, force)
      && OnlyClaims(log, c + 1)
  {
    c := |log| - 1;
    if log[c].Claimed? {
      var k := ConfirmedBy(log[..c], force);
      c := k;
    }
  }

  /** A phase that holds a barrier began it, and never ended it. Within the lease no claim was
      admitted since. */
  lemma {:induction false} HeldSince(log: seq<Event>, force: bool) returns (b: nat)
    requires PhaseOf(log, force).Held?
    ensures var p := PhaseOf(log, force);
      && b < |log| && log[b] == Begun(log[b].at, p.token, p.instance, p.expires)
      && (forall j :: b < j < |log| ==> !log[j].Begun? && !log[j].Ended?)
      && (forall j :: b < j < |log| && log[j].Claimed? ==> !InForce(p.expires, log[j].at))
  {
    b := |log| - 1;
    if !log[b].Begun? {
      var k := HeldSince(log[..b], force);
      b := k;
    }
  }

  lemma {:induction false} OrderedUpTo(log: seq<Event>, now: nat, j: nat)
    requires Ordered(log, now) && j < |log|
    ensures log[j].at <= now
  {
    if j < |log| - 1 {
      OrderedUpTo(log[..|log| - 1], log[|log| - 1].at, j);
    }
  }

  lemma {:induction false} OrderedPrefix(log: seq<Event>, now: nat, k: nat)
    requires Ordered(log, now) && k < |log|
    ensures Ordered(log[..k], log[k].at)
    decreases |log|
  {
    if k < |log| - 1 {
      OrderedPrefix(log[..|log| - 1], log[|log| - 1].at, k);
      assert log[..|log| - 1][..k] == log[..k];
    }
  }

  /** Without `--force`, every change to the registration falls between the begin and the end of one
      barrier, right after a report of the same daemon instance that it is quiescent. */
  lemma ChangesAreGuarded(log: seq<Event>, k: nat) returns (b: nat, c: nat)
    requires !PhaseOf(log, false).Undisciplined? && k < |log| && log[k].Mutated?
    ensures b < c < k && log[b].Begun?
    ensures log[c].Polled? && log[c].token == log[b].token && log[c].reply == Some(Report(log[b].instance, Quiescent))
    ensures OnlyClaims(log[..k], c + 1)
    ensures forall j :: b < j < k ==> !log[j].Begun? && !log[j].Ended?
  {
    PrefixIsDisciplined(log, k + 1, false);
    assert log[..k + 1] == log[..k] + [log[k]];
    PhasePush(log[..k], log[k], false);
    b := HeldSince(log[..k], false);
    c := ConfirmedBy(log[..k], false);
  }

  /** The check of the lease, made when whole seconds of it remain, covers exactly the budget as the
      daemon reads its clock. */
  lemma LeaseHolds(expires: nat, checked: nat, until: nat)
    requires LeaseCovers(expires, checked) && until <= checked + 1000 * MUTATION_BUDGET_SECS
    ensures InForce(expires, until)
  {
    assert Seconds(checked + 1000 * MUTATION_BUDGET_SECS) == Seconds(checked) + MUTATION_BUDGET_SECS;
  }

  /** Measured in milliseconds against the instant the lease names, the budget can be missed by less
      than one second: it is met exactly when the check fell on a whole second or found more than the
      budget. */
  lemma LeaseInstant(expires: nat, checked: nat)
    requires LeaseCovers(expires, checked)
    ensures checked + 1000 * MUTATION_BUDGET_SECS < 1000 * expires + 1000
    ensures checked + 1000 * MUTATION_BUDGET_SECS <= 1000 * expires
      <==> checked % 1000 == 0 || expires - Seconds(checked) > MUTATION_BUDGET_SECS
  {
    assert checked == 1000 * Seconds(checked) + checked % 1000;
  }

  /** A check in the middle of a second that finds exactly the budget: using all of it ends half a second
      after the instant of expiry. */
  lemma LeaseInstantMissed()
    ensures LeaseCovers(50, 500) && 500 + 1000 * MUTATION_BUDGET_SECS == 1000 * 50 + 500
    ensures InForce(50, 500 + 1000 * MUTATION_BUDGET_SECS)
  {
  }

  /** Under the lifetime asked for, the budget is left exactly when at most seventy whole seconds of
      the clock pass before the check; seventy seconds of draining always leave it. */
  lemma DrainLeavesBudget(begun: nat, checked: nat)
    requires begun <= checked
    ensures LeaseCovers(Seconds(begun) + REPOINT_TTL_SECS, checked) <==> Seconds(checked) - Seconds(begun) <= 70
    ensures checked <= begun + 1000 * (DRAIN_TIMEOUT_SECS + MUTATION_MARGIN_SECS)
      ==> LeaseCovers(Seconds(begun) + REPOINT_TTL_SECS, checked)
  {
    assert Seconds(begun + 70000) == Seconds(begun) + 70;
  }

  /** At most two changes follow a look at the lease, and their timeouts account for at most forty
      seconds. */
  lemma {:induction false} ChangesAreBudgeted(log: seq<Event>, force: bool)
    requires PhaseOf(log, force).Held?
    ensures var p := PhaseOf(log, force);
      p.changes <= 2 && p.budgeted <= 1000 * STEP_MUTATION_TIMEOUT_SECS * p.changes
  {
    if !log[|log| - 1].Begun? && !log[|log| - 1].Leased? {
      ChangesAreBudgeted(log[..|log| - 1], force);
    }
  }

  /** What passes between the look at the lease and the end of change `k` besides the changes
      themselves, each counted up to its timeout: rechecks, overruns and scheduling. */
  function Jitter(log: seq<Event>, k: nat, force: bool): int
    requires k < |log|
  {
    var p := PhaseOf(log[..k + 1], force);
    if p.Held? && p.leased.Some? then log[k].at - p.leased.value - p.budgeted else 0
  }

  /** The change at `k` is made under a barrier. */
  predicate ChangesUnder(log: seq<Event>, k: nat, force: bool) {
    k < |log| && log[k].Mutated? && PhaseOf(log[..k], force).Held?
  }

  /** The lease bound. When everything between the look at the lease and the end of a change, beyond the
      steps' own timeouts, keeps to the margin, the change is done while the daemon holds the barrier,
      and no claim has been admitted since the begin. */
  lemma ChangeStaysInLease(log: seq<Event>, now: nat, k: nat, force: bool) returns (b: nat)
    requires !PhaseOf(log, force).Undisciplined? && Ordered(log, now) && ChangesUnder(log, k, force)
    requires Jitter(log, k, force) <= 1000 * MUTATION_MARGIN_SECS
    ensures b < k && log[b] == Begun(log[b].at, PhaseOf(log[..k], force).token, PhaseOf(log[..k], force).instance,
                                 PhaseOf(log[..k], force).expires)
    ensures InForce(log[b].expires, log[k].at)
    ensures forall j :: b < j < k ==> !log[j].Claimed? && !log[j].Ended?
  {
    var before := log[..k];
    var p := PhaseOf(before, force);
    PrefixIsDisciplined(log, k, force);
    PrefixIsDisciplined(log, k + 1, force);
    assert log[..k + 1] == before + [log[k]];
    PhasePush(before, log[k], force);
    ChangesAreBudgeted(log[..k + 1], force);
    LeasedCovers(before, force);
    LeaseHolds(p.expires, p.leased.value, log[k].at);
    b := HeldSince(before, force);
    OrderedPrefix(log, now, k);
    forall j | b < j < k ensures !log[j].Claimed? {
      OrderedUpTo(before, log[k].at, j);
      assert before[j] == log[j];
    }
  }

  /** Without `--force`, all of a run's changes are made under its barrier; so if each keeps to the margin,
      no claim is admitted from the begin to the last of them. */
  lemma RunStaysInLease(log: seq<Event>, now: nat, k: nat) returns (b: nat)
    requires !PhaseOf(log, false).Undisciplined? && Ordered(log, now) && k < |log| && log[k].Mutated?
    requires Jitter(log, k, false) <= 1000 * MUTATION_MARGIN_SECS
    ensures b < k && log[b].Begun? && InForce(log[b].expires, log[k].at)
    ensures forall j :: b < j < k ==> !log[j].Claimed? && !log[j].Ended?
  {
    PrefixIsDisciplined(log, k + 1, false);
    assert log[..k + 1] == log[..k] + [log[k]];
    PhasePush(log[..k], log[k], false);
    b := ChangeStaysInLease(log, now, k, false);
  }

  lemma {:induction false} LeasedCovers(log: seq<Event>, force: bool)
    requires var p := PhaseOf(log, force); p.Held? && p.leased.Some?
    ensures var p := PhaseOf(log, force); LeaseCovers(p.expires, p.leased.value)
  {
    if !log[|log| - 1].Leased? {
      LeasedCovers(log[..|log| - 1], force);
    }
  }
}
