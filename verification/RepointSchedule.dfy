/** What a run of `cermet mcp install` sees of a schedule that is fixed in advance: the answers to its
    polls, and when a drain ends well. */
module RepointSchedule {
  import opened Basics
  import opened RepointBarrier

  datatype Guard = Guard(token: nat, instance: nat, expires: nat)

  /** A call when nobody else acts, nothing is lost, and the daemon is idle. */
  const CALM := Turn([], Nothing, Quiescent, Exited(0))

  /** The turn of the `i`th call to come, and the schedule after `n` calls. */
  function TurnAt(turns: seq<Turn>, i: nat): Turn { if i < |turns| then turns[i] else CALM }

  function Rest(turns: seq<Turn>, n: nat): seq<Turn> { if n <= |turns| then turns[n..] else [] }

  lemma RestOfRest(turns: seq<Turn>, m: nat, n: nat)
    ensures Rest(Rest(turns, m), n) == Rest(turns, m + n)
    ensures TurnAt(Rest(turns, m), n) == TurnAt(turns, m + n)
  {
  }

  /** One event of ours. */
  function Logged(h: Host, e: Event): Host { h.(log := h.log + [e]) }

  function HappenAll(h: Host, acts: seq<Act>): Host {
    if acts == [] then h else Happen(HappenAll(h, acts[..|acts| - 1]), acts[|acts| - 1])
  }

  /** The environment has acted. */
  function Passed(h: Host): Host { HappenAll(h.(turns := Rest(h.turns, 1)), TurnAt(h.turns, 0).acts) }

  /** Only our own calls use up the schedule. */
  lemma {:induction false} ActsKeepTurns(h: Host, acts: seq<Act>)
    ensures HappenAll(h, acts).turns == h.turns
  {
    if acts != [] {
      ActsKeepTurns(h, acts[..|acts| - 1]);
    }
  }

  lemma PassedTurns(h: Host)
    ensures Passed(h).turns == Rest(h.turns, 1)
  {
    ActsKeepTurns(h.(turns := Rest(h.turns, 1)), TurnAt(h.turns, 0).acts);
  }

  /** The answer to a status request made now. */
  function Answer(h: Host, token: nat): Option<Report> {
    var turn, p := TurnAt(h.turns, 0), Passed(h);
    if turn.drop == Nothing && Validates(p, token) then Some(Report(p.instance, turn.status)) else None
  }

  function PollOf(h: Host, token: nat): Event { Polled(Passed(h).now, token, Answer(h, token)) }

  function AfterPoll(h: Host, token: nat): Host { Logged(Passed(h), PollOf(h, token)) }

  /** A sleep takes `DRAIN_POLL`, or longer. */
  function AfterSleep(h: Host): Host {
    var p := Passed(h);
    p.(now := Max(p.now, h.now + DRAIN_POLL))
  }

  /** Where a drain stands before its `i`th poll. */
  function BeforePoll(h: Host, token: nat, i: nat): Host {
    if i == 0 then h else AfterSleep(AfterPoll(BeforePoll(h, token, i - 1), token))
  }

  // ---- when a drain ends well ------------------------------------------------------------------

  /** How long the environment takes. */
  function Waits(acts: seq<Act>): nat {
    if acts == [] then 0
    else Waits(acts[..|acts| - 1]) + if acts[|acts| - 1].Wait? then acts[|acts| - 1].ms else 0
  }

  /** When a drain that starts at `now` makes its `i`th poll: polls and sleeps take turns. */
  function PollTime(turns: seq<Turn>, now: nat, i: nat): nat {
    (if i == 0 then now else PollTime(turns, now, i - 1) + Max(DRAIN_POLL, Waits(TurnAt(turns, 2 * i - 1).acts)))
    + Waits(TurnAt(turns, 2 * i).acts)
  }

  /** The daemon holds the guard's barrier. */
  ghost predicate Holding(h: Host, g: Guard) {
    h.instance == g.instance && h.barrier == Some(Barrier(g.token, g.expires)) && g.token in h.mine
  }

  /** The daemon reports claims for `n` polls, all of them in time, and then none, within the lease; it does
      not restart, and no message is lost. */
  ghost predicate Drains(turns: seq<Turn>, now: nat, g: Guard, n: nat) {
    && (forall i :: 0 <= i <= 2 * n ==> Restart !in TurnAt(turns, i).acts)
    && (forall i :: 0 <= i <= n ==>
          var turn := TurnAt(turns, 2 * i);
          turn.drop == Nothing && turn.status == if i < n then Active else Quiescent)
    && (n > 0 ==> PollTime(turns, now, n - 1) - now <= 1000 * DRAIN_TIMEOUT_SECS)
    && InForce(g.expires, PollTime(turns, now, n))
  }

  /** Whoever acts on a barrier in force, other than by a restart, only lets time pass. */
  lemma {:induction false} ActsOnlyWait(h: Host, acts: seq<Act>, g: Guard)
    requires Holding(h, g) && Restart !in acts && InForce(g.expires, h.now + Waits(acts))
    ensures HappenAll(h, acts) == h.(now := h.now + Waits(acts))
  {
    if acts != [] {
      var n := |acts| - 1;
      assert acts[n] in acts && forall a :: a in acts[..n] ==> a in acts;
      LaterInForce(g.expires, h.now + Waits(acts[..n]), h.now + Waits(acts));
      ActsOnlyWait(h, acts[..n], g);
    }
  }

  lemma LaterInForce(expires: nat, a: nat, b: nat)
    requires a <= b && InForce(expires, b)
    ensures InForce(expires, a)
  {
  }

  lemma {:induction false} PollTimesGrow(turns: seq<Turn>, now: nat, i: nat, j: nat)
    requires i <= j
    ensures PollTime(turns, now, i) <= PollTime(turns, now, j)
    ensures i < j ==>
      PollTime(turns, now, i) + Max(DRAIN_POLL, Waits(TurnAt(turns, 2 * i + 1).acts)) <= PollTime(turns, now, j)
    decreases j
  {
    if i < j {
      PollTimesGrow(turns, now, i, j - 1);
      assert 2 * (i + 1) - 1 == 2 * i + 1;
      if i < j - 1 {
        assert PollTime(turns, now, j - 1) <= PollTime(turns, now, j);
      }
    }
  }

  /** The next poll of the drain is its `i`th. */
  ghost predicate AtPoll(h: Host, g: Guard, turns: seq<Turn>, now: nat, i: nat) {
    && Holding(h, g) && h.turns == Rest(turns, 2 * i)
    && h.now + Waits(TurnAt(turns, 2 * i).acts) == PollTime(turns, now, i)
  }

  /** It was just made. */
  ghost predicate Polling(h: Host, g: Guard, turns: seq<Turn>, now: nat, i: nat) {
    Holding(h, g) && h.turns == Rest(turns, 2 * i + 1) && h.now == PollTime(turns, now, i)
  }

  /** What a draining daemon answers to its `i`th poll, and when. */
  function DrainAnswer(g: Guard, turns: seq<Turn>, now: nat, n: nat, i: nat): Event {
    Polled(PollTime(turns, now, i), g.token, Some(Report(g.instance, if i < n then Active else Quiescent)))
  }

  lemma DrainTurn(turns: seq<Turn>, now: nat, g: Guard, n: nat, i: nat)
    requires Drains(turns, now, g, n) && i <= n
    ensures var turn := TurnAt(turns, 2 * i);
      turn.drop == Nothing && Restart !in turn.acts && turn.status == if i < n then Active else Quiescent
    ensures InForce(g.expires, PollTime(turns, now, i))
  {
    PollTimesGrow(turns, now, i, n);
    LaterInForce(g.expires, PollTime(turns, now, i), PollTime(turns, now, n));
    hide PollTime, InForce;
  }

  /** A poll in a turn that only lets time pass, within the lease, is answered. */
  lemma PollAnswered(h: Host, g: Guard)
    requires Holding(h, g)
    requires TurnAt(h.turns, 0).drop == Nothing && Restart !in TurnAt(h.turns, 0).acts
    requires InForce(g.expires, h.now + Waits(TurnAt(h.turns, 0).acts))
    ensures var turn, v := TurnAt(h.turns, 0), AfterPoll(h, g.token);
      && Holding(v, g) && v.turns == Rest(h.turns, 1) && v.now == h.now + Waits(turn.acts)
      && PollOf(h, g.token) == Polled(v.now, g.token, Some(Report(g.instance, turn.status)))
  {
    hide Waits, HappenAll, InForce, Rest;
    ActsOnlyWait(h.(turns := Rest(h.turns, 1)), TurnAt(h.turns, 0).acts, g);
  }

  lemma DrainPoll(h: Host, g: Guard, turns: seq<Turn>, now: nat, n: nat, i: nat)
    requires Drains(turns, now, g, n) && i <= n && AtPoll(h, g, turns, now, i)
    ensures Polling(AfterPoll(h, g.token), g, turns, now, i) && PollOf(h, g.token) == DrainAnswer(g, turns, now, n, i)
  {
    DrainTurn(turns, now, g, n, i);
    RestOfRest(turns, 2 * i, 0);
    RestOfRest(turns, 2 * i, 1);
    hide PollTime, Waits, InForce, Rest, Drains, TurnAt, AfterPoll, PollOf, Holding;
    PollAnswered(h, g);
  }

  lemma DrainSleep(h: Host, g: Guard, turns: seq<Turn>, now: nat, n: nat, i: nat)
    requires Drains(turns, now, g, n) && i < n && Polling(h, g, turns, now, i)
    ensures AtPoll(AfterSleep(h), g, turns, now, i + 1)
  {
    PollTimesGrow(turns, now, i, n);
    assert 2 * (i + 1) - 1 == 2 * i + 1;
    RestOfRest(turns, 2 * i + 1, 0);
    RestOfRest(turns, 2 * i + 1, 1);
    var turn := TurnAt(turns, 2 * i + 1);
    LaterInForce(g.expires, h.now + Waits(turn.acts), PollTime(turns, now, n));
    hide Waits, HappenAll, InForce, Rest;
    assert Restart !in turn.acts;
    ActsOnlyWait(h.(turns := Rest(h.turns, 1)), turn.acts, g);
  }

  lemma DrainStarts(h: Host, g: Guard)
    requires Holding(h, g)
    ensures AtPoll(h, g, h.turns, h.now, 0)
  {
  }

  lemma BeforeNext(h: Host, token: nat, i: nat)
    requires i > 0
    ensures BeforePoll(h, token, i) == AfterSleep(AfterPoll(BeforePoll(h, token, i - 1), token))
    ensures BeforePoll(h, token, 0) == h
  {
  }

  /** So every poll up to the last is answered that way. */
  lemma {:induction false} DrainsOn(h: Host, g: Guard, n: nat, i: nat)
    requires Holding(h, g) && Drains(h.turns, h.now, g, n) && i <= n
    ensures AtPoll(BeforePoll(h, g.token, i), g, h.turns, h.now, i)
    ensures PollOf(BeforePoll(h, g.token, i), g.token) == DrainAnswer(g, h.turns, h.now, n, i)
    decreases i
  {
    hide *;
    BeforeNext(h, g.token, i + 1);
    if i == 0 {
      DrainStarts(h, g);
    } else {
      DrainsOn(h, g, n, i - 1);
      var b := BeforePoll(h, g.token, i - 1);
      DrainPoll(b, g, h.turns, h.now, n, i - 1);
      DrainSleep(AfterPoll(b, g.token), g, h.turns, h.now, n, i - 1);
      BeforeNext(h, g.token, i);
    }
    DrainPoll(BeforePoll(h, g.token, i), g, h.turns, h.now, n, i);
  }
}
