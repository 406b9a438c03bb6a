/** `cermet mcp install`, client side: the drain, the rechecks, and the two registrations. */
module RepointInstall {
  import opened Basics
  import opened RepointBarrier
  import opened RepointSchedule

  /** Whether to go on with the change, and with which barrier held. */
  datatype Gate = Refuse | Proceed(guard: Option<Guard>, warned: bool)

  datatype Client = Claude | OpenCode

  /** A refusal, an output that reports failure, or a registration that stands. */
  datatype Registration = Refused | Manual | Registered

  /** The phase of a run that holds this guard. */
  predicate Guarded(p: Phase, g: Guard) {
    p.Held? && p.token == g.token && p.instance == g.instance && p.expires == g.expires
  }

  /** The phase a registration works in: the guard's barrier held, or none and `--force`. */
  predicate InPhase(p: Phase, guard: Option<Guard>, force: bool) {
    match guard
    case Some(g) => Guarded(p, g)
    case None => force && (p.Idle? || p.Over?)
  }

  lemma LoggedPhase(h: Host, e: Event, force: bool)
    requires Sound(h, force) && e.at == h.now
    ensures PhaseOf(Logged(h, e).log, force) == Advance(PhaseOf(h.log, force), e, force)
    ensures Ordered(Logged(h, e).log, h.now)
    ensures Polls(Logged(h, e).log) == Polls(h.log) + if e.Polled? then 1 else 0
    ensures Mutations(Logged(h, e).log) == Mutations(h.log) + if e.Mutated? then [e.step] else []
  {
    PhasePush(h.log, e, force);
    CountPush(h.log, e);
    OrderedPush(h.log, e);
  }

  lemma PassiveReflexive(h: Host, force: bool)
    requires Sound(h, force)
    ensures Passive(h, h, force)
  {
  }

  /** Nobody else acts and nothing is lost; only what the child process does is open. */
  ghost predicate Obliging(turns: seq<Turn>) {
    forall turn :: turn in turns ==> turn.acts == [] && turn.drop == Nothing && turn.status == Quiescent
  }

  /** From now on all calls are obliged, and the daemon holds this guard's barrier with its budget left. */
  ghost predicate Calm(h: Host, g: Guard) {
    && Obliging(h.turns) && h.instance == g.instance
    && h.barrier == Some(Barrier(g.token, g.expires)) && LeaseCovers(g.expires, h.now)
  }

  lemma CalmPasses(h: Host, g: Guard)
    requires Calm(h, g)
    ensures Passed(h) == h.(turns := Rest(h.turns, 1)) && Calm(Passed(h), g)
    ensures TurnAt(h.turns, 0).drop == Nothing && TurnAt(h.turns, 0).status == Quiescent
  {
    assert h.turns != [] ==> h.turns[0] in h.turns;
  }

  /** A poll that lets a drain go on: claims are still open, and there is time. */
  predicate Waiting(e: Event, guard: Guard, start: nat) {
    e.Polled? && e.reply == Some(Report(guard.instance, Active)) && e.at - start <= 1000 * DRAIN_TIMEOUT_SECS
  }

  /** What a drain that began at `start` decides on its last poll. */
  ghost function Verdict(e: Event, guard: Guard, force: bool): Gate
    requires e.Polled?
  {
    if e.reply == Some(Report(guard.instance, Quiescent)) then Proceed(Some(guard), false)
    else if !force then Refuse
    else Proceed(if e.reply.Some? && e.reply.value.instance == guard.instance then Some(guard) else None, true)
  }

  /** The polls of a drain: it goes on through the waiting ones and no further, and asks every time. */
  ghost predicate Drained(h: Host, guard: Guard, polls: seq<Event>, gate: Gate, force: bool) {
    && polls != [] && (forall i {:trigger polls[i]} :: 0 <= i < |polls| ==>
         polls[i] == PollOf(BeforePoll(h, guard.token, i), guard.token)
         && (Waiting(polls[i], guard, h.now) <==> i < |polls| - 1))
    && gate == Verdict(polls[|polls| - 1], guard, force)
  }

  lemma InTime(turns: seq<Turn>, now: nat, g: Guard, n: nat, i: nat)
    requires Drains(turns, now, g, n)
    ensures i < n ==> PollTime(turns, now, i) - now <= 1000 * DRAIN_TIMEOUT_SECS
  {
    if i < n {
      PollTimesGrow(turns, now, i, n - 1);
    }
  }

  lemma WaitsOn(h: Host, guard: Guard, n: nat, i: nat)
    requires Holding(h, guard) && Drains(h.turns, h.now, guard, n) && i <= n
    ensures var e := PollOf(BeforePoll(h, guard.token, i), guard.token);
      && (Waiting(e, guard, h.now) <==> i < n)
      && (i == n ==> e.reply == Some(Report(guard.instance, Quiescent)))
  {
    hide BeforePoll, PollOf, PollTime, Drains, AtPoll, Holding;
    DrainsOn(h, guard, n, i);
    InTime(h.turns, h.now, guard, n, i);
  }

  /** Where the daemon reports claims for `n` polls, all in time, and then none, it proceeds unforced. */
  lemma DrainsWell(h: Host, guard: Guard, polls: seq<Event>, gate: Gate, force: bool, n: nat)
    requires Drained(h, guard, polls, gate, force) && Holding(h, guard) && Drains(h.turns, h.now, guard, n)
    ensures |polls| == n + 1 && gate == Proceed(Some(guard), false)
  {
    hide Drains, BeforePoll, PollOf, Holding, Waiting;
    var k := Min(n, |polls| - 1);
    assert polls[k] == PollOf(BeforePoll(h, guard.token, k), guard.token);
    WaitsOn(h, guard, n, k);
  }

  /** The guard of a barrier begun now, and the daemon once it is. */
  function GuardOf(h: Host): Guard { Guard(h.minted, h.instance, Seconds(h.now) + REPOINT_TTL_SECS) }

  function Began(h: Host): Host {
    var g := GuardOf(h);
    Logged(
      h.(barrier := Some(Barrier(g.token, g.expires)), minted := g.token + 1, mine := h.mine + {g.token}),
      Begun(h.now, g.token, g.instance, g.expires))
  }

  lemma CalmPolls(h: Host, g: Guard)
    requires Calm(h, g)
    ensures Answer(h, g.token) == Some(Report(g.instance, Quiescent))
    ensures Calm(AfterPoll(h, g.token), g) && AfterPoll(h, g.token).turns == Rest(h.turns, 1)
  {
    CalmPasses(h, g);
    hide Passed;
  }

  /** A drained run finds the barrier held and the rest of the schedule still to come. */
  lemma DrainEnds(h: Host, g: Guard, n: nat)
    requires Holding(h, g) && Drains(h.turns, h.now, g, n)
    ensures Polling(AfterPoll(BeforePoll(h, g.token, n), g.token), g, h.turns, h.now, n)
  {
    hide *;
    DrainsOn(h, g, n, n);
    DrainPoll(BeforePoll(h, g.token, n), g, h.turns, h.now, n, n);
  }

  /** What the child processes of `claude mcp remove` and `claude mcp add` lead to. */
  ghost function ClaudeResult(removed: Run, added: Run): Registration {
    if removed == TimedOut then Refused else if added == Exited(0) then Registered else Manual
  }

  /** What writing the configuration leads to. */
  ghost function OpenCodeResult(written: Run): Registration {
    if written == Exited(0) then Registered else if written.Exited? then Manual else Refused
  }

  /** A schedule on which the daemon lets a barrier begin, has claims open for `n` polls and then none, and
      everything from then on is obliged, with the budget left on the lease. */
  ghost predicate Installs(h: Host, n: nat) {
    var p := Passed(h);
    && TurnAt(h.turns, 0).drop == Nothing && !Live(p)
    && Drains(p.turns, p.now, GuardOf(p), n)
    && LeaseCovers(GuardOf(p).expires, PollTime(p.turns, p.now, n)) && Obliging(Rest(p.turns, 2 * n + 1))
  }

  /** A daemon whose claims are open for `n` polls half a second apart, and that nothing else happens to. */
  function ActiveFor(n: nat): seq<Turn> { [CALM] + seq(2 * n, _ => Turn([], Nothing, Active, Exited(0))) }

  lemma {:induction false} ActiveTimes(n: nat, now: nat, i: nat)
    requires i <= n
    ensures PollTime(ActiveFor(n)[1..], now, i) == now + DRAIN_POLL * i
  {
    if i > 0 {
      ActiveTimes(n, now, i - 1);
    }
  }

  /** So the drain of such a daemon succeeds for as long as a minute of polls. */
  lemma ActiveDrains(h: Host, n: nat)
    requires !Live(h) && n <= 121 && h.turns == ActiveFor(n)
    ensures Installs(h, n)
  {
    var turns := ActiveFor(n)[1..];
    assert Passed(h) == h.(turns := turns) && |turns| == 2 * n && Rest(turns, 2 * n + 1) == [];
    ActiveTimes(n, h.now, n);
    if n > 0 {
      ActiveTimes(n, h.now, n - 1);
    }
    hide PollTime;
    assert forall i :: 0 <= i < 2 * n ==> turns[i] == Turn([], Nothing, Active, Exited(0));
  }

  ghost function InstallResult(client: Client, turns: seq<Turn>, n: nat): Registration {
    if client == OpenCode then OpenCodeResult(TurnAt(turns, 2 * n + 4).run)
    else ClaudeResult(TurnAt(turns, 2 * n + 4).run, TurnAt(turns, 2 * n + 6).run)
  }

  lemma InstallsBegins(h: Host, n: nat)
    requires Installs(h, n)
    ensures TurnAt(h.turns, 0).drop == Nothing && !Live(Passed(h))
  {
  }

  /** Where a barrier that installs has begun, it is held, and the rest of the schedule drains it. */
  lemma InstallBegun(h: Host, n: nat)
    requires Installs(h, n)
    ensures var p := Passed(h);
      var g, began := GuardOf(p), Began(p);
      && Holding(began, g) && Drains(began.turns, began.now, g, n) && began.turns == Rest(h.turns, 1)
      && LeaseCovers(g.expires, PollTime(began.turns, began.now, n)) && Obliging(Rest(began.turns, 2 * n + 1))
  {
    PassedTurns(h);
    hide Passed, Drains, PollTime, Obliging, LeaseCovers, Live, Rest;
  }

  lemma DrainedCalm(h: Host, g: Guard, turns: seq<Turn>, now: nat, n: nat)
    requires Polling(h, g, turns, now, n)
    requires LeaseCovers(g.expires, PollTime(turns, now, n)) && Obliging(Rest(turns, 2 * n + 1))
    ensures Calm(h, g) && h.turns == Rest(turns, 2 * n + 1)
  {
    hide PollTime, Obliging, Rest;
  }

  lemma InstallDrains(h: Host, polls: seq<Event>, gate: Gate, force: bool, n: nat)
    requires Installs(h, n)
    requires var p := Passed(h); Drained(Began(p), GuardOf(p), polls, gate, force)
    ensures var g := GuardOf(Passed(h)); var b := BeforePoll(Began(Passed(h)), g.token, |polls| - 1);
      && gate == Proceed(Some(g), false) && Calm(AfterPoll(b, g.token), g)
      && AfterPoll(b, g.token).turns == Rest(h.turns, 2 * n + 2)
  {
    hide *;
    var p := Passed(h);
    var g, began := GuardOf(p), Began(p);
    InstallBegun(h, n);
    DrainsWell(began, g, polls, gate, force, n);
    DrainEnds(began, g, n);
    DrainedCalm(AfterPoll(BeforePoll(began, g.token, n), g.token), g, began.turns, began.now, n);
    RestOfRest(h.turns, 1, 2 * n + 1);
  }

  lemma CalmEnds(h: Host, g: Guard)
    requires Calm(h, g)
    ensures Validates(Passed(h), g.token) && TurnAt(h.turns, 0).drop == Nothing
  {
    CalmPasses(h, g);
    hide Passed;
  }

  /** What was added is the beginning of `steps`. */
  ghost predicate MadeOf(before: seq<Step>, after: seq<Step>, steps: seq<Step>) {
    exists k {:trigger steps[..k]} :: 0 <= k <= |steps| && after == before + steps[..k]
  }

  lemma MadeParts(before: seq<Step>, a: Step, b: Step)
    ensures MadeOf(before, before, [a]) && MadeOf(before, before + [a], [a])
    ensures MadeOf(before, before, [a, b]) && MadeOf(before, before + [a], [a, b])
    ensures before + [a] + [b] == before + [a, b] && MadeOf(before, before + [a, b], [a, b])
  {
    assert before + [a][..0] == before && [a][..1] == [a];
    assert before + [a, b][..0] == before && [a, b][..1] == [a] && [a, b][..2] == [a, b];
  }

  class Installer {
    const force: bool
    var host: Host

    constructor (h: Host, force: bool)
      requires Sound(h, force) && PhaseOf(h.log, force) == Idle
      ensures host == h && this.force == force
    {
      host := h;
      this.force := force;
    }

    /** The environment acts. */
    method Pass() returns (turn: Turn)
      requires Sound(host, force)
      modifies this`host
      ensures Passive(old(host), host, force)
      ensures host == Passed(old(host)) && turn == TurnAt(old(host).turns, 0)
    {
      hide Happen;
      turn := CALM;
      PassiveReflexive(host, force);
      if host.turns != [] {
        turn := host.turns[0];
        host := host.(turns := host.turns[1..]);
        ghost var start := host;
        assert turn.acts[..0] == [];
        hide Passive;
        hide Sound;
        for i := 0 to |turn.acts|
          invariant Sound(host, force) && Passive(old(host), host, force) && host == HappenAll(start, turn.acts[..i])
        {
          assert turn.acts[..i + 1][..i] == turn.acts[..i];
          ghost var before := host;
          HappenPassive(host, turn.acts[i], force);
          host := Happen(host, turn.acts[i]);
          PassiveTransitive(old(host), before, host, force);
          PassiveSound(before, host, force);
        }
        assert turn.acts[..|turn.acts|] == turn.acts;
      }
    }

    /** `begin`: the daemon makes the barrier durable before it answers, and the answer may be lost. */
    method Begin() returns (guard: Option<Guard>)
      requires Sound(host, force) && PhaseOf(host.log, force) == Idle
      modifies this`host
      ensures Sound(host, force)
      ensures Polls(host.log) == Polls(old(host).log) && Mutations(host.log) == Mutations(old(host).log)
      ensures if guard.Some? then Guarded(PhaseOf(host.log, force), guard.value) else PhaseOf(host.log, force) == Idle
      ensures guard.Some? ==> host == Began(Passed(old(host)))
      ensures guard == if TurnAt(old(host).turns, 0).drop == Nothing && !Live(Passed(old(host)))
        then Some(GuardOf(Passed(old(host)))) else None
    {
      hide Passed;
      var turn := Pass();
      guard := None;
      if turn.drop != Request && !Live(host) {
        var token, expires := host.minted, Seconds(host.now) + REPOINT_TTL_SECS;
        host := host.(barrier := Some(Barrier(token, expires)), minted := token + 1, mine := host.mine + {token});
        if turn.drop != Reply {
          guard := Some(Guard(token, host.instance, expires));
          LoggedPhase(host, Begun(host.now, token, host.instance, expires), force);
          host := Logged(host, Begun(host.now, token, host.instance, expires));
        }
      }
    }

    /** `status`: validated by the token, refused when the lease has lapsed. */
    method Poll(token: nat) returns (reply: Option<Report>)
      requires Sound(host, force) && PhaseOf(host.log, force).Held? && PhaseOf(host.log, force).token == token
      modifies this`host
      ensures Sound(host, force) && old(host).now <= host.now
      ensures var p := PhaseOf(old(host).log, force);
        PhaseOf(host.log, force)
        == Held(token, p.instance, p.expires, Confirms(reply, p.instance, force), p.leased, p.changes, p.budgeted)
      ensures Polls(host.log) == Polls(old(host).log) + 1 && Mutations(host.log) == Mutations(old(host).log)
      ensures reply.Some? ==> Validates(host, token) && reply.value.instance == host.instance
      ensures reply == Answer(old(host), token) && host == AfterPoll(old(host), token)
    {
      hide Passed;
      var turn := Pass();
      reply :=
        if turn.drop == Nothing && Validates(host, token) then Some(Report(host.instance, turn.status)) else None;
      LoggedPhase(host, Polled(host.now, token, reply), force);
      host := Logged(host, Polled(host.now, token, reply));
    }

    /** `end`, best effort. */
    method End(token: nat)
      requires Sound(host, force) && PhaseOf(host.log, force).Held? && PhaseOf(host.log, force).token == token
      modifies this`host
      ensures Sound(host, force)
      ensures PhaseOf(host.log, force) == Over(token, PhaseOf(old(host).log, force).confirmed)
      ensures TurnAt(old(host).turns, 0).drop != Request && Validates(Passed(old(host)), token) ==> host.barrier == None
      ensures Polls(host.log) == Polls(old(host).log) && Mutations(host.log) == Mutations(old(host).log)
    {
      hide Passed;
      var turn := Pass();
      LoggedPhase(host, Ended(host.now, token), force);
      host := Logged(host, Ended(host.now, token));
      if turn.drop != Request && Validates(host, token) {
        host := host.(barrier := None);
      }
    }

    /** Sleeps at least `DRAIN_POLL`. */
    method Sleep()
      requires Sound(host, force)
      modifies this`host
      ensures Passive(old(host), host, force) && host.now >= old(host).now + DRAIN_POLL
      ensures host == AfterSleep(old(host))
    {
      hide Passed;
      var start := host.now;
      var _ := Pass();
      var rest := SaturatingSub(start + DRAIN_POLL, host.now);
      ghost var before := host;
      HappenPassive(host, Wait(rest), force);
      host := Happen(host, Wait(rest));
      PassiveTransitive(old(host), before, host, force);
    }

    /** `refuse_forceable`. */
    method RefuseForceable(guard: Guard) returns (gate: Gate)
      requires Sound(host, force) && Guarded(PhaseOf(host.log, force), guard)
      modifies this`host
      ensures Sound(host, force)
      ensures Polls(host.log) == Polls(old(host).log) && Mutations(host.log) == Mutations(old(host).log)
      ensures Decided(gate) && gate == if force then Proceed(Some(guard), true) else Refuse
    {
      hide Sound;
      if force {
        gate := Proceed(Some(guard), true);
      } else {
        End(guard.token);
        gate := Refuse;
      }
    }

    /** The daemon is lost or restarted: end the barrier, and go on without one only if forced. */
    method LoseBarrier(guard: Guard) returns (gate: Gate)
      requires Sound(host, force) && Guarded(PhaseOf(host.log, force), guard)
      modifies this`host
      ensures Sound(host, force)
      ensures Polls(host.log) == Polls(old(host).log) && Mutations(host.log) == Mutations(old(host).log)
      ensures Decided(gate) && gate == if force then Proceed(None, true) else Refuse
    {
      hide Sound;
      End(guard.token);
      gate := if force then Proceed(None, true) else Refuse;
    }

    /** What a gate means: refusing leaves nothing held; going on is in the phase of its guard, and
        unless it is forced the daemon has just reported to be quiescent. */
    ghost predicate Decided(gate: Gate)
      reads this
    {
      var p := PhaseOf(host.log, force);
      match gate
      case Refuse => !force && (p.Idle? || p.Over?)
      case Proceed(guard, warned) =>
        InPhase(p, guard, force) && (warned ==> force) && (!warned ==> p.Held? && p.confirmed)
    }

    /** `begin_and_drain`. It asks at most 122 times, changes nothing, and decides as above. */
    method BeginAndDrain() returns (gate: Gate, ghost polls: seq<Event>)
      requires Sound(host, force) && PhaseOf(host.log, force) == Idle
      modifies this`host
      ensures Sound(host, force)
      ensures |polls| <= 122 && Polls(host.log) == Polls(old(host).log) + |polls|
      ensures Mutations(host.log) == Mutations(old(host).log)
      ensures Decided(gate)
      // It drains when the barrier is begun, and otherwise goes on only if forced.
      ensures var p := Passed(old(host));
        if TurnAt(old(host).turns, 0).drop == Nothing && !Live(p) then
          Drained(Began(p), GuardOf(p), polls, gate, force)
        else polls == [] && gate == if force then Proceed(None, true) else Refuse
      ensures gate.Proceed? && !gate.warned ==>
        var token := gate.guard.value.token;
        host == AfterPoll(BeforePoll(Began(Passed(old(host))), token, |polls| - 1), token)
    {
      hide Sound, Polls, Mutations, PhaseOf, Drained, BeforePoll, AfterPoll, Passed, Live, Began, GuardOf;
      polls := [];
      var begun := Begin();
      if begun.None? {
        gate := if force then Proceed(None, true) else Refuse;
      } else {
        gate, polls := Drain(begun.value);
      }
    }

    method Drain(guard: Guard) returns (gate: Gate, ghost polls: seq<Event>)
      requires Sound(host, force) && Guarded(PhaseOf(host.log, force), guard)
      modifies this`host
      ensures Sound(host, force)
      ensures |polls| <= 122 && Polls(host.log) == Polls(old(host).log) + |polls|
      ensures Mutations(host.log) == Mutations(old(host).log)
      ensures Decided(gate)
      // Whatever happens, it waits through every report of claims that comes in time, and for no other.
      ensures Drained(old(host), guard, polls, gate, force)
      ensures gate.Proceed? && !gate.warned ==>
        gate.guard == Some(guard) && host == AfterPoll(BeforePoll(old(host), guard.token, |polls| - 1), guard.token)
    {
      hide Sound, Polls, Mutations, PhaseOf, AfterPoll, AfterSleep, Answer;
      var start := host.now;
      var decided := false;
      polls := [];
      gate := Refuse;
      while !decided
        invariant Sound(host, force)
        invariant Polls(host.log) == Polls(old(host).log) + |polls| && Mutations(host.log) == Mutations(old(host).log)
        invariant decided ==> Decided(gate) && Drained(old(host), guard, polls, gate, force)
        invariant !decided ==> Guarded(PhaseOf(host.log, force), guard) && host.now >= start + DRAIN_POLL * |polls|
        invariant |polls| <= if decided then 122 else 121
        invariant !decided ==> host == BeforePoll(old(host), guard.token, |polls|)
        invariant !decided ==> forall i {:trigger polls[i]} :: 0 <= i < |polls| ==>
          polls[i] == PollOf(BeforePoll(old(host), guard.token, i), guard.token) && Waiting(polls[i], guard, start)
        invariant decided && gate.Proceed? && !gate.warned ==>
          gate.guard == Some(guard) && host == AfterPoll(BeforePoll(old(host), guard.token, |polls| - 1), guard.token)
        decreases !decided, 122 - |polls|
      {
        ghost var before := host;
        var reply := Poll(guard.token);
        PolledAt(before, guard.token);
        polls := polls + [PollOf(before, guard.token)];
        decided := true;
        if reply.None? || reply.value.instance != guard.instance {
          gate := LoseBarrier(guard);
        } else if reply.value.status == Quiescent {
          gate := Proceed(Some(guard), false);
        } else if reply.value.status == Active && host.now - start <= 1000 * DRAIN_TIMEOUT_SECS {
          ghost var polled := host;
          Sleep();
          PassiveSound(polled, host, force);
          decided := false;
        } else {
          gate := RefuseForceable(guard);
        }
      }
    }

    /** `RepointGuard::recheck`. */
    method Recheck(guard: Guard) returns (ok: bool)
      requires Sound(host, force) && Guarded(PhaseOf(host.log, force), guard)
      modifies this`host
      ensures Sound(host, force)
      ensures Guarded(PhaseOf(host.log, force), guard) && PhaseOf(host.log, force).confirmed == ok
      ensures PhaseOf(host.log, force).leased == PhaseOf(old(host).log, force).leased
      ensures PhaseOf(host.log, force).changes == PhaseOf(old(host).log, force).changes
      ensures Mutations(host.log) == Mutations(old(host).log)
      ensures ok == Confirms(Answer(old(host), guard.token), guard.instance, force)
      ensures Calm(old(host), guard) ==> ok && Calm(host, guard) && host.turns == Rest(old(host).turns, 1)
    {
      hide Sound, Polls, Mutations, PhaseOf, Calm, Answer, AfterPoll;
      if Calm(host, guard) {
        CalmPolls(host, guard);
      }
      var reply := Poll(guard.token);
      ok := Confirms(reply, guard.instance, force);
    }

    /** `lease_covers_mutation`, by the clock at the time. */
    method CheckLease(guard: Guard) returns (ok: bool)
      requires Sound(host, force) && Guarded(PhaseOf(host.log, force), guard)
      modifies this`host
      ensures Sound(host, force) && Guarded(PhaseOf(host.log, force), guard)
      ensures ok ==> PhaseOf(host.log, force).leased.Some? && PhaseOf(host.log, force).changes == 0
      ensures Mutations(host.log) == Mutations(old(host).log)
      ensures ok == LeaseCovers(guard.expires, Passed(old(host)).now)
      ensures Calm(old(host), guard) ==> ok && Calm(host, guard) && host.turns == Rest(old(host).turns, 1)
    {
      hide Passed;
      if Calm(host, guard) {
        CalmPasses(host, guard);
      }
      var _ := Pass();
      ok := LeaseCovers(guard.expires, host.now);
      if ok {
        LoggedPhase(host, Leased(host.now), force);
        host := Logged(host, Leased(host.now));
      }
    }

    /** The two checks before the first change: the lease, then the barrier. Without a guard there is
        nothing to check. */
    method Admit(guard: Option<Guard>) returns (ok: bool)
      requires Sound(host, force) && InPhase(PhaseOf(host.log, force), guard, force)
      modifies this`host
      ensures Sound(host, force) && InPhase(PhaseOf(host.log, force), guard, force)
      ensures Mutations(host.log) == Mutations(old(host).log)
      ensures ok ==> MayChange(guard, 0)
      ensures guard.None? ==> ok && host == old(host)
      ensures guard.Some? && Calm(old(host), guard.value) ==>
        ok && Calm(host, guard.value) && host.turns == Rest(old(host).turns, 2)
    {
      hide Sound, Polls, Mutations, PhaseOf, Calm, Passed, Answer;
      RestOfRest(host.turns, 1, 1);
      ok := true;
      if guard.Some? {
        ok := CheckLease(guard.value);
        if ok {
          ok := Recheck(guard.value);
        }
      }
    }

    /** The next change may be made, after `made` others. */
    ghost predicate MayChange(guard: Option<Guard>, made: nat)
      reads this
    {
      var p := PhaseOf(host.log, force);
      InPhase(p, guard, force) && (guard.Some? ==> p.confirmed && p.leased.Some? && p.changes == made)
    }

    /** A recheck between two changes, or after the last one. */
    method Again(guard: Option<Guard>, ghost made: nat) returns (ok: bool)
      requires Sound(host, force) && InPhase(PhaseOf(host.log, force), guard, force)
      requires guard.Some? ==> PhaseOf(host.log, force).leased.Some? && PhaseOf(host.log, force).changes == made
      modifies this`host
      ensures Sound(host, force) && InPhase(PhaseOf(host.log, force), guard, force)
      ensures Mutations(host.log) == Mutations(old(host).log)
      ensures ok ==> MayChange(guard, made)
      ensures guard.None? ==> ok && host == old(host)
      ensures guard.Some? && Calm(old(host), guard.value) ==>
        ok && Calm(host, guard.value) && host.turns == Rest(old(host).turns, 1)
    {
      hide Sound, Polls, Mutations, PhaseOf, Calm, Answer;
      ok := true;
      if guard.Some? {
        ok := Recheck(guard.value);
      }
    }

    /** A change to the registration takes as long as it takes; the log records when it was done. */
    method Change(step: Step, guard: Option<Guard>, ghost made: nat) returns (run: Run)
      requires Sound(host, force) && MayChange(guard, made) && made < 2
      modifies this`host
      ensures Sound(host, force) && InPhase(PhaseOf(host.log, force), guard, force)
      ensures guard.Some? ==> PhaseOf(host.log, force).leased.Some? && PhaseOf(host.log, force).changes == made + 1
      ensures Mutations(host.log) == Mutations(old(host).log) + [step]
      ensures run == TurnAt(old(host).turns, 0).run && host.turns == Rest(old(host).turns, 1)
      ensures guard.Some? && Calm(old(host), guard.value) ==> Calm(host, guard.value)
    {
      hide Passed;
      PassedTurns(host);
      if guard.Some? && Calm(host, guard.value) {
        CalmPasses(host, guard.value);
      }
      var start := host.now;
      var turn := Pass();
      LoggedPhase(host, Mutated(host.now, step, start), force);
      host := Logged(host, Mutated(host.now, step, start));
      run := turn.run;
    }

    /** `register_claude`: remove what was there, then add. */
    method RegisterClaude(onPath: bool, guard: Option<Guard>) returns (r: Registration)
      requires Sound(host, force) && InPhase(PhaseOf(host.log, force), guard, force)
      modifies this`host
      ensures Sound(host, force) && InPhase(PhaseOf(host.log, force), guard, force)
      ensures r == Registered ==> MayChange(guard, 2) && Mutations(host.log) == Mutations(old(host).log) + [Remove, Add]
      ensures MadeOf(Mutations(old(host).log), Mutations(host.log), [Remove, Add])
      ensures !onPath ==> r == Manual && Mutations(host.log) == Mutations(old(host).log)
      // Obliged, it does what the two child processes allow.
      ensures onPath && guard.Some? && Calm(old(host), guard.value) ==>
        && Calm(host, guard.value)
        && r == ClaudeResult(TurnAt(old(host).turns, 2).run, TurnAt(old(host).turns, 4).run)
      ensures onPath && guard.None? ==>
        r == ClaudeResult(TurnAt(old(host).turns, 0).run, TurnAt(old(host).turns, 1).run)
    {
      hide Sound, Polls, Mutations, PhaseOf, Calm, Passed;
      ghost var turns := host.turns;
      RestOfRest(turns, 2, 0);
      RestOfRest(turns, 2, 1);
      RestOfRest(turns, 3, 1);
      RestOfRest(turns, 4, 0);
      MadeParts(Mutations(host.log), Remove, Add);
      if !onPath {
        r := Manual;
      } else {
        r := Refused;
        var ok := Admit(guard);
        if ok {
          var removed := Change(Remove, guard, 0);
          if removed != TimedOut {
            ok := Again(guard, 1);
            if ok {
              r := AddClaude(guard);
            }
          }
        }
      }
    }

    method AddClaude(guard: Option<Guard>) returns (r: Registration)
      requires Sound(host, force) && MayChange(guard, 1)
      modifies this`host
      ensures Sound(host, force) && InPhase(PhaseOf(host.log, force), guard, force)
      ensures r == Registered ==> MayChange(guard, 2)
      ensures Mutations(host.log) == Mutations(old(host).log) + [Add]
      ensures r == Manual <==> TurnAt(old(host).turns, 0).run != Exited(0)
      ensures guard.None? ==> r != Refused
      ensures guard.Some? && Calm(old(host), guard.value) ==> r != Refused && Calm(host, guard.value)
    {
      hide Sound, Polls, Mutations, PhaseOf, Calm, Passed;
      var added := Change(Add, guard, 1);
      if added != Exited(0) {
        r := Manual;
      } else {
        var ok := Again(guard, 2);
        r := if ok then Registered else Refused;
      }
    }

    /** `register_opencode`: one write of the configuration file. A failed write returns at once, a
        file that does not parse is reported only after the recheck. */
    method RegisterOpenCode(guard: Option<Guard>) returns (r: Registration)
      requires Sound(host, force) && InPhase(PhaseOf(host.log, force), guard, force)
      modifies this`host
      ensures Sound(host, force) && InPhase(PhaseOf(host.log, force), guard, force)
      ensures r == Registered ==> MayChange(guard, 1)
      ensures r == Registered ==> Mutations(host.log) == Mutations(old(host).log) + [WriteConfig]
      ensures MadeOf(Mutations(old(host).log), Mutations(host.log), [WriteConfig])
      // Obliged, it does what the write allows.
      ensures guard.Some? && Calm(old(host), guard.value) ==>
        Calm(host, guard.value) && r == OpenCodeResult(TurnAt(old(host).turns, 2).run)
      ensures guard.None? ==> r == OpenCodeResult(TurnAt(old(host).turns, 0).run)
    {
      hide Sound, Polls, Mutations, PhaseOf, Calm, Passed;
      ghost var turns := host.turns;
      RestOfRest(turns, 2, 0);
      MadeParts(Mutations(host.log), WriteConfig, WriteConfig);
      r := Refused;
      var ok := Admit(guard);
      if ok {
        var written := Change(WriteConfig, guard, 0);
        if written.Exited? {
          ok := Again(guard, 1);
          if ok {
            r := if written == Exited(0) then Registered else Manual;
          }
        }
      }
    }

    /** `run_mcp_install`, from the point where the binary and socket are known. The whole run keeps the
        discipline, whatever the daemon, the network, other clients and the clock do. It holds nothing
        afterwards, and a registration reported without `--force` was confirmed after its last change. */
    method RunInstall(client: Client, connected: bool, onPath: bool) returns (r: Registration)
      requires Sound(host, force) && PhaseOf(host.log, force) == Idle
      modifies this`host
      ensures Sound(host, force)
      ensures var p := PhaseOf(host.log, force);
        (p.Idle? || p.Over?) && (r == Registered && !force ==> p.Over? && p.confirmed)
      // It makes these changes, in this order, or fewer; all of them if it registers.
      ensures MadeOf(
        Mutations(old(host).log), Mutations(host.log), if client == Claude then [Remove, Add] else [WriteConfig])
      ensures r == Registered ==>
        Mutations(host.log) == Mutations(old(host).log) + if client == Claude then [Remove, Add] else [WriteConfig]
      ensures !connected && !force ==> r == Refused && host == old(host)
      ensures !connected && force && (client == Claude ==> onPath) ==>
        r == if client == OpenCode then OpenCodeResult(TurnAt(old(host).turns, 0).run)
             else ClaudeResult(TurnAt(old(host).turns, 0).run, TurnAt(old(host).turns, 1).run)
      // Where the daemon can be drained and the rest is obliged, it registers as the child processes
      // allow, and releases the barrier.
      ensures forall n: nat :: connected && (client == Claude ==> onPath) && Installs(old(host), n) ==>
        r == InstallResult(client, old(host).turns, n) && host.barrier == None
    {
      hide Sound, Polls, Mutations, PhaseOf, Calm, Drained, Passed, Began, GuardOf, BeforePoll, AfterPoll, Live;
      hide Installs, Obliging;
      ghost var start := host;
      MadeParts(Mutations(host.log), Remove, Add);
      MadeParts(Mutations(host.log), WriteConfig, WriteConfig);
      var gate := Refuse;
      ghost var polls: seq<Event> := [];
      if connected {
        gate, polls := BeginAndDrain();
        forall n: nat | Installs(start, n)
          ensures gate == Proceed(Some(GuardOf(Passed(start))), false) && Calm(host, GuardOf(Passed(start)))
          ensures host.turns == Rest(start.turns, 2 * n + 2)
        {
          InstallsBegins(start, n);
          InstallDrains(start, polls, gate, force, n);
        }
      } else if force {
        gate := Proceed(None, true);
      }
      r := Refused;
      if gate.Proceed? {
        ghost var turns := host.turns;
        if client == Claude {
          r := RegisterClaude(onPath, gate.guard);
        } else {
          r := RegisterOpenCode(gate.guard);
        }
        forall n: nat | connected && (client == Claude ==> onPath) && Installs(start, n)
          ensures r == InstallResult(client, start.turns, n)
        {
          RestOfRest(start.turns, 2 * n + 2, 2);
          RestOfRest(start.turns, 2 * n + 2, 4);
        }
        if gate.guard.Some? {
          if Calm(host, gate.guard.value) {
            CalmEnds(host, gate.guard.value);
          }
          End(gate.guard.value.token);
        }
      }
    }
  }

  lemma PolledAt(h: Host, token: nat)
    ensures PollOf(h, token) == Polled(AfterPoll(h, token).now, token, Answer(h, token))
  {
  }

  lemma PassiveSound(a: Host, b: Host, force: bool)
    requires Passive(a, b, force)
    ensures Sound(b, force) && a.now <= b.now && PhaseOf(b.log, force) == PhaseOf(a.log, force)
    ensures Polls(b.log) == Polls(a.log) && Mutations(b.log) == Mutations(a.log)
  {
  }
}
