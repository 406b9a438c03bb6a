/** The repository root as a directory of names over inodes, shared with an arbitrary environment. */
module FileSystem {
  datatype Kind = Regular | SymbolicLink | Special

  /** `cookie` is the change time. Every change to an inode stamps it with a new one. */
  datatype Inode = Inode(kind: Kind, bytes: string, mode: nat, cookie: nat)

  datatype Disk = Disk(inodes: map<nat, Inode>, names: map<string, nat>, next: nat, clock: nat)

  /** One change, whoever makes it. Writing and changing modes go through held files, so they name
      the inode. */
  datatype Event =
    | Make(name: string, kind: Kind, bytes: string, mode: nat)
    | Write(ino: nat, bytes: string)
    | Chmod(ino: nat, mode: nat)
    | Unlink(name: string)
    | HardLink(source: string, target: string)
    | Rename(source: string, target: string)

  const DOCUMENT := "CERMET.md"

  ghost predicate Wf(d: Disk) {
    && (forall i :: i in d.inodes ==> i < d.next && d.inodes[i].cookie < d.clock)
    && (forall n :: n in d.names ==> d.names[n] in d.inodes)
  }

  /** Replaces an inode by a changed version of itself, with a new change time. */
  function Stamp(d: Disk, ino: nat, node: Inode): Disk {
    d.(inodes := d.inodes[ino := node.(cookie := d.clock)], clock := d.clock + 1)
  }

  function Node(d: Disk, ino: nat): Inode {
    if ino in d.inodes then d.inodes[ino] else Inode(Special, [], 0, 0)
  }

  /** A change to an existing inode that leaves its contents alone, such as to its links. */
  function Touch(d: Disk, ino: nat): Disk { Stamp(d, ino, Node(d, ino)) }

  function Happen(d: Disk, e: Event): Disk {
    match e
    case Make(name, kind, bytes, mode) =>
      if name in d.names then d
      else Stamp(d, d.next, Inode(kind, bytes, mode, 0)).(names := d.names[name := d.next], next := d.next + 1)
    case Write(ino, bytes) =>
      if ino in d.inodes then Stamp(d, ino, d.inodes[ino].(bytes := bytes)) else d
    case Chmod(ino, mode) =>
      if ino in d.inodes then Stamp(d, ino, d.inodes[ino].(mode := mode)) else d
    case Unlink(name) =>
      if name in d.names then Touch(d, d.names[name]).(names := d.names - {name}) else d
    case HardLink(source, target) =>
      if source in d.names && target !in d.names
      then Touch(d, d.names[source]).(names := d.names[target := d.names[source]])
      else d
    case Rename(source, target) =>
      if source !in d.names || (target in d.names && d.names[target] == d.names[source]) then d
      else
        var moved := Touch(d, d.names[source]);
        var displaced := if target in d.names then Touch(moved, d.names[target]) else moved;
        displaced.(names := (d.names - {source})[target := d.names[source]])
  }

  /** Change times only grow, and one that is the same means the inode is the same. */
  ghost predicate Later(a: Disk, b: Disk) {
    && a.next <= b.next && a.clock <= b.clock
    && forall i {:trigger i in b.inodes} {:trigger i in a.inodes} :: i in a.inodes ==>
      && i in b.inodes
      && (a.inodes[i].cookie == b.inodes[i].cookie ==> a.inodes[i] == b.inodes[i])
      && (a.inodes[i].cookie == b.inodes[i].cookie || a.clock <= b.inodes[i].cookie)
  }

  lemma StampLater(d: Disk, ino: nat, node: Inode)
    requires Wf(d) && ino in d.inodes
    ensures Wf(Stamp(d, ino, node)) && Later(d, Stamp(d, ino, node))
  {
  }

  lemma LaterTransitive(a: Disk, b: Disk, c: Disk)
    requires Wf(a) && Later(a, b) && Later(b, c)
    ensures Later(a, c)
  {
    forall i | i in a.inodes
      ensures && i in c.inodes
              && (a.inodes[i].cookie == c.inodes[i].cookie ==> a.inodes[i] == c.inodes[i])
              && (a.inodes[i].cookie == c.inodes[i].cookie || a.clock <= c.inodes[i].cookie)
    {
      assert i in b.inodes;
    }
  }

  lemma RenameLater(d: Disk, e: Event)
    requires Wf(d) && e.Rename? && Happen(d, e) != d
    ensures Wf(Happen(d, e)) && Later(d, Happen(d, e))
  {
    var moved := Touch(d, d.names[e.source]);
    StampLater(d, d.names[e.source], Node(d, d.names[e.source]));
    if e.target in d.names {
      var displaced := Touch(moved, d.names[e.target]);
      StampLater(moved, d.names[e.target], Node(moved, d.names[e.target]));
      LaterTransitive(d, moved, displaced);
    }
  }

  /** Whatever happens, change times are kept truthful. */
  lemma HappenLater(d: Disk, e: Event)
    requires Wf(d)
    ensures Wf(Happen(d, e)) && Later(d, Happen(d, e))
  {
    if e.Rename? && Happen(d, e) != d {
      RenameLater(d, e);
    }
  }

  // ---- runs ------------------------------------------------------------------------------------

  /** What the environment does before one of our system calls, whether that call then fails, and
      what the call draws at random. */
  datatype Turn = Turn(events: seq<Event>, fails: bool, draw: string)

  /** The disk, the turns still to come, every disk there has been, and our own changes. */
  datatype World = World(disk: Disk, turns: seq<Turn>, trace: seq<Disk>, log: seq<Event>)

  ghost predicate Recorded(trace: seq<Disk>) {
    && trace != [] && Wf(trace[|trace| - 1])
    && (|trace| > 1 ==> Recorded(trace[..|trace| - 1]) && Later(trace[|trace| - 2], trace[|trace| - 1]))
  }

  ghost predicate Valid(w: World) {
    Recorded(w.trace) && w.trace[|w.trace| - 1] == w.disk
  }

  /** `b` is reached from `a`. */
  ghost predicate After(a: World, b: World) {
    Valid(b) && a.trace <= b.trace && a.log <= b.log
  }

  lemma AfterTransitive(a: World, b: World, c: World)
    requires After(a, b) && After(b, c)
    ensures After(a, c)
  {
  }

  lemma AfterReflexive(w: World)
    requires Valid(w)
    ensures After(w, w)
  {
  }

  /** Any moment of a run is followed by truthful change times. */
  lemma {:induction false} RecordedLater(trace: seq<Disk>, i: nat, j: nat)
    requires Recorded(trace) && i <= j < |trace|
    ensures Wf(trace[i]) && Wf(trace[j]) && Later(trace[i], trace[j])
    decreases |trace|
  {
    var before := trace[..|trace| - 1];
    if j < |trace| - 1 {
      RecordedLater(before, i, j);
      assert before[i] == trace[i] && before[j] == trace[j];
    } else if i < j {
      RecordedLater(before, i, j - 1);
      assert before[i] == trace[i] && before[j - 1] == trace[j - 1];
      LaterTransitive(trace[i], trace[j - 1], trace[j]);
    }
  }

  /** An inode with the same change time at two moments did not change in between. */
  lemma Steady(trace: seq<Disk>, i: nat, k: nat, j: nat, ino: nat)
    requires Recorded(trace) && i <= k <= j < |trace| && ino in trace[i].inodes
    requires Node(trace[i], ino).cookie == Node(trace[j], ino).cookie
    ensures Node(trace[k], ino) == Node(trace[i], ino) && ino in trace[k].inodes
  {
    RecordedLater(trace, i, k);
    RecordedLater(trace, k, j);
    RecordedLater(trace, i, i);
    assert ino in trace[k].inodes && ino in trace[j].inodes;
  }

  lemma AfterKeeps(a: World, b: World, ino: nat)
    requires Valid(a) && After(a, b) && ino in a.disk.inodes
    ensures ino in b.disk.inodes
    ensures Node(a.disk, ino).cookie == Node(b.disk, ino).cookie ==> Node(a.disk, ino) == Node(b.disk, ino)
  {
    RecordedLater(b.trace, |a.trace| - 1, |b.trace| - 1);
    assert a.trace[|a.trace| - 1] == b.trace[|a.trace| - 1];
    assert ino in b.disk.inodes;
  }

  function Act(w: World, e: Event): World {
    var d := Happen(w.disk, e);
    w.(disk := d, trace := w.trace + [d])
  }

  lemma ActAfter(w: World, e: Event)
    requires Valid(w)
    ensures After(w, Act(w, e))
  {
    HappenLater(w.disk, e);
    var t := Act(w, e).trace;
    assert t[..|t| - 1] == w.trace;
  }

  /** A change of ours is also logged. */
  function Own(w: World, e: Event): World { Act(w, e).(log := w.log + [e]) }

  lemma OwnAfter(w: World, e: Event)
    requires Valid(w)
    ensures After(w, Own(w, e))
  {
    ActAfter(w, e);
  }

  /** Changes to what the document's name stands for. */
  predicate Names(e: Event) {
    match e
    case Make(name, _, _, _) => name == DOCUMENT
    case Unlink(name) => name == DOCUMENT
    case HardLink(_, target) => target == DOCUMENT
    case Rename(source, target) => source == DOCUMENT || target == DOCUMENT
    case _ => false
  }

  /** Pointing the document's name at another file. */
  predicate Relinks(e: Event) {
    (e.HardLink? || (e.Rename? && e.source != DOCUMENT)) && e.target == DOCUMENT
  }

  /** How often we pointed the document's name at a file. */
  function Relinked(log: seq<Event>): nat {
    if log == [] then 0
    else Relinked(log[..|log| - 1]) + if Relinks(log[|log| - 1]) then 1 else 0
  }

  /** How often we changed what the document's name stands for, in whatever way. */
  function Named(log: seq<Event>): nat {
    if log == [] then 0
    else Named(log[..|log| - 1]) + if Names(log[|log| - 1]) then 1 else 0
  }

  lemma LogPush(log: seq<Event>, e: Event)
    ensures Relinked(log + [e]) == Relinked(log) + if Relinks(e) then 1 else 0
    ensures Named(log + [e]) == Named(log) + if Names(e) then 1 else 0
  {
    assert (log + [e])[..|log|] == log;
  }

  // ---- schedules -------------------------------------------------------------------------------

  /** A turn in which nothing happens and the call goes through. */
  const REST := Turn([], false, "")

  function TurnOf(w: World): Turn { if w.turns == [] then REST else w.turns[0] }

  function Played(w: World, events: seq<Event>): World {
    if events == [] then w else Act(Played(w, events[..|events| - 1]), events[|events| - 1])
  }

  /** The world after the environment has moved once. */
  function Next(w: World): World {
    if w.turns == [] then w else Played(w.(turns := w.turns[1..]), w.turns[0].events)
  }

  /** The next `n` turns are at rest. */
  ghost predicate Idle(w: World, n: nat) {
    forall k {:trigger w.turns[k]} :: 0 <= k < n && k < |w.turns| ==> w.turns[k] == REST
  }

  /** The same world, `n` turns later. */
  function Skip(w: World, n: nat): World {
    w.(turns := if n <= |w.turns| then w.turns[n..] else [])
  }

  lemma IdleSplit(w: World, m: nat, n: nat)
    ensures Idle(w, m + n) ==> Idle(w, m) && Idle(Skip(w, m), n)
    ensures Skip(Skip(w, m), n) == Skip(w, m + n)
  {
    if Idle(w, m + n) {
      forall k {:trigger Skip(w, m).turns[k]} | 0 <= k < n && k < |Skip(w, m).turns|
        ensures Skip(w, m).turns[k] == REST
      {
        assert Skip(w, m).turns[k] == w.turns[m + k];
      }
    }
  }

  lemma IdleNext(w: World)
    ensures Idle(w, 1) ==> Next(w) == Skip(w, 1) && TurnOf(w) == REST
  {
  }

  lemma SkipOwn(w: World, e: Event, n: nat)
    ensures Skip(Own(w, e), n) == Own(Skip(w, n), e) && Skip(w, n).disk == w.disk
    ensures Idle(w, n) ==> Idle(Own(w, e), n)
  {
  }

  /** When no turns are left, all are at rest. */
  lemma EmptyIsIdle(w: World, n: nat)
    ensures w.turns == [] ==> Idle(w, n) && Skip(w, n) == w && Next(w) == w && TurnOf(w) == REST
  {
  }

  /** A turn in which nothing happens and the call fails. */
  const FAULT := Turn([], true, "")

  /** Nobody interferes, and one call fails: the one for which the last turn left is. */
  ghost predicate OneFault(w: World) {
    w.turns != [] && Idle(w, |w.turns| - 1) && w.turns[|w.turns| - 1] == FAULT
  }

  lemma FaultLater(w: World, n: nat)
    requires OneFault(w) && n < |w.turns|
    ensures Idle(w, n) && OneFault(Skip(w, n)) && |Skip(w, n).turns| == |w.turns| - n
  {
    IdleSplit(w, n, |w.turns| - 1 - n);
  }

  lemma FaultNext(w: World)
    ensures OneFault(w) ==> w.turns != [] && Next(w) == Skip(w, 1) && Next(w).disk == w.disk
    ensures OneFault(w) && |w.turns| == 1 ==> TurnOf(w).fails && Next(w).turns == []
    ensures OneFault(w) && |w.turns| > 1 ==>
      TurnOf(w) == REST && OneFault(Next(w)) && |Next(w).turns| == |w.turns| - 1
  {
    if OneFault(w) && |w.turns| > 1 {
      FaultLater(w, 1);
    }
  }

  lemma FaultOwn(w: World, e: Event)
    ensures Own(w, e).turns == w.turns && (OneFault(Own(w, e)) <==> OneFault(w))
  {
  }

  // ---- counting calls --------------------------------------------------------------------------

  /** `n` system calls were made from `a` to `b`: each uses up one turn of the schedule. */
  ghost predicate Called(a: World, b: World, n: nat) { b.turns == Skip(a, n).turns }

  /** The call that comes after `i` others fails. */
  predicate CallFails(w: World, i: nat) { TurnOf(Skip(w, i)).fails }

  lemma {:induction false} PlayedTurns(w: World, events: seq<Event>)
    ensures Played(w, events).turns == w.turns && Played(w, events).log == w.log
  {
    if events != [] {
      PlayedTurns(w, events[..|events| - 1]);
    }
  }

  lemma NextCalled(w: World)
    ensures Called(w, Next(w), 1) && Next(w).log == w.log && TurnOf(w).fails == CallFails(w, 0)
  {
    if w.turns != [] {
      PlayedTurns(w.(turns := w.turns[1..]), w.turns[0].events);
    }
  }

  lemma CalledOn(a: World, b: World, c: World, m: nat, n: nat)
    requires Called(a, b, m) && Called(b, c, n)
    ensures Called(a, c, m + n)
  {
  }

  lemma FailsOn(a: World, b: World, m: nat, i: nat)
    requires Called(a, b, m)
    ensures CallFails(b, i) <==> CallFails(a, m + i)
  {
  }
}
