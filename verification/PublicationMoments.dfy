/** The moments of a publication, and what one world of a run has to do with another. */
module PublicationMoments {
  import opened Basics
  import opened FileSystem
  import opened PublicationReport
  import opened ManagedBlock

  datatype Temp = Temp(name: string, ino: nat)

  /** The inode state a read stands for. */
  function StateOf(r: DocumentRead): Inode { Inode(Regular, r.bytes, r.pre.mode, r.pre.cookie) }

  function ReadOf(ino: nat, bytes: string, before: Inode): DocumentRead {
    DocumentRead(bytes, Preimage(ino, bytes, before.mode, before.cookie))
  }

  function TempName(draw: string): string { ".cermet-document." + draw }

  lemma TempIsNotDocument(draw: string)
    ensures TempName(draw) != DOCUMENT && ".cermet-document." <= TempName(draw)
  {
    assert TempName(draw)[0] == '.' && DOCUMENT[0] == 'C';
  }

  ghost predicate Exists(w: World, ino: nat) { ino in w.disk.inodes }

  /** Reached without a change of ours. */
  ghost predicate Quiet(a: World, b: World) { After(a, b) && a.log == b.log }

  lemma QuietTransitive(a: World, b: World, c: World)
    requires Quiet(a, b) && Quiet(b, c)
    ensures Quiet(a, c)
  {
  }

  lemma ActQuiet(a: World, b: World, e: Event)
    requires Quiet(a, b)
    ensures Quiet(a, Act(b, e))
  {
    ActAfter(b, e);
  }

  lemma NamesExist(w: World, name: string)
    requires Valid(w) && name in w.disk.names
    ensures Exists(w, w.disk.names[name])
  {
  }

  /** A file whose change time is the same before and after was read in one state. */
  lemma StableRead(a: World, b: World, c: World, ino: nat)
    requires Valid(a) && After(a, b) && After(b, c) && Exists(a, ino)
    requires Node(a.disk, ino).cookie == Node(c.disk, ino).cookie
    ensures Node(b.disk, ino) == Node(a.disk, ino) == Node(c.disk, ino)
  {
    var i, k, j := |a.trace| - 1, |b.trace| - 1, |c.trace| - 1;
    assert c.trace[i] == a.disk && c.trace[k] == b.disk;
    Steady(c.trace, i, k, j, ino);
    Steady(c.trace, i, j, j, ino);
  }

  lemma QuietKeeps(a: World, b: World, ino: nat)
    requires Valid(a) && Quiet(a, b) && Exists(a, ino)
    ensures Valid(b) && After(a, b) && Exists(b, ino)
  {
    AfterKeeps(a, b, ino);
  }

  lemma FreshIno(a: World, b: World)
    requires Valid(a) && After(a, b)
    ensures b.disk.next !in a.disk.inodes
  {
    RecordedLater(b.trace, |a.trace| - 1, |b.trace| - 1);
    assert a.trace[|a.trace| - 1] == b.trace[|a.trace| - 1];
  }

  const MODE_600 := 384
  const MODE_644 := 420

  /** Writing from the start of a file leaves what it already held past the end of the new bytes. */
  function Overwritten(before: string, bytes: string): (r: string)
    ensures |r| == Max(|before|, |bytes|) && bytes <= r && forall k :: |bytes| <= k < |r| ==> r[k] == before[k]
  {
    bytes + if |before| > |bytes| then before[|bytes|..] else []
  }

  lemma FreshOverwrite(bytes: string)
    ensures Overwritten([], bytes) == bytes
  {
  }

  /** The name drawn next is taken. */
  ghost predicate Collides(w: World) { !TurnOf(w).fails && TempName(TurnOf(w).draw) in Next(w).disk.names }

  /** A free name is drawn, or none, and one of the two calls that make the file fails. */
  ghost predicate TempFails(w: World) { TurnOf(w).fails || (!Collides(w) && TurnOf(Next(w)).fails) }

  /** The world after `n` names were drawn and found taken. */
  ghost function Drawn(w: World, n: nat): World { if n == 0 then w else Next(Drawn(w, n - 1)) }

  /** No temporary file can be made: a call fails, or sixteen names in a row are taken. */
  ghost predicate NoTemp(w: World) {
    exists n: nat {:trigger Drawn(w, n)} ::
      n <= 16 && AllTaken(w, n) && (n == 16 || TempFails(Drawn(w, n)))
  }

  ghost predicate AllTaken(w: World, n: nat) {
    forall i: nat {:trigger Drawn(w, i)} :: i < n ==> Collides(Drawn(w, i))
  }

  lemma FirstFree(w: World, n: nat)
    requires n <= 16 && AllTaken(w, n) && (n < 16 ==> !Collides(Drawn(w, n)))
    ensures NoTemp(w) <==> n == 16 || TempFails(Drawn(w, n))
  {
    hide Drawn;
    assert Drawn(w, n) == Drawn(w, n);
  }

  ghost predicate IsTemp(start: World, now: World, temp: Temp) {
    && ".cermet-document." <= temp.name && temp.name != DOCUMENT
    && !Exists(start, temp.ino) && Exists(now, temp.ino)
  }

  /** Pointed the document's name at another file this many times, and changed it in no other way. */
  ghost predicate Steps(a: World, b: World, relinks: nat) {
    After(a, b) && Relinked(b.log) == Relinked(a.log) + relinks && Named(b.log) == Named(a.log) + relinks
  }

  lemma StepsTransitive(a: World, b: World, c: World, m: nat, n: nat)
    requires Steps(a, b, m) && Steps(b, c, n)
    ensures Steps(a, c, m + n)
  {
  }

  lemma QuietSteps(a: World, b: World, c: World, n: nat)
    requires Steps(a, b, n) && Quiet(b, c)
    ensures Steps(a, c, n)
  {
  }

  lemma StepsKeep(a: World, b: World, n: nat, ino: nat)
    requires Valid(a) && Steps(a, b, n) && Exists(a, ino)
    ensures Valid(b) && After(a, b) && Exists(b, ino)
  {
    AfterKeeps(a, b, ino);
  }

  lemma QuietValid(a: World, b: World)
    requires Quiet(a, b)
    ensures Valid(b) && Steps(a, b, 0) && After(a, b)
  {
  }

  lemma StepsValid(a: World, b: World, n: nat)
    requires Steps(a, b, n)
    ensures Valid(b) && After(a, b)
  {
  }

  lemma StepsReflexive(w: World)
    requires Valid(w)
    ensures Steps(w, w, 0)
  {
  }

  lemma MadeExists(w: World, name: string)
    requires name !in w.disk.names
    ensures Exists(Own(w, Make(name, Regular, "", MODE_600)), w.disk.next)
  {
  }

  lemma MadeNames(w: World, name: string)
    requires name !in w.disk.names
    ensures var v := Own(w, Make(name, Regular, "", MODE_600));
      v.disk.names == w.disk.names[name := w.disk.next] && v.disk.names != w.disk.names
  {
    assert name in w.disk.names[name := w.disk.next];
  }

  lemma TempMade(a: World, w1: World, w2: World, b: World, name: string)
    requires Valid(a) && Quiet(a, w1) && name !in w1.disk.names && name != DOCUMENT
    requires ".cermet-document." <= name
    requires w2 == Own(w1, Make(name, Regular, "", MODE_600)) && Steps(w1, w2, 0) && Quiet(w2, b)
    ensures IsTemp(a, b, Temp(name, w1.disk.next)) && Steps(a, b, 0)
  {
    hide Own, Valid, After, Node;
    QuietValid(a, w1);
    FreshIno(a, w1);
    MadeExists(w1, name);
    StepsTransitive(a, w1, w2, 0, 0);
    StepsValid(w1, w2, 0);
    QuietKeeps(w2, b, w1.disk.next);
    QuietSteps(a, w2, b, 0);
  }

  lemma EarlierTemp(a: World, b: World, c: World, temp: Temp)
    requires Valid(a) && After(a, b) && IsTemp(b, c, temp)
    ensures IsTemp(a, c, temp)
  {
    if Exists(a, temp.ino) {
      AfterKeeps(a, b, temp.ino);
    }
  }

  /** Our own changes for a publication, in order: the temporary file is made, with the mode 0600, and
      filled. */
  function MakeTemp(name: string): Event { Make(name, Regular, "", 384) }

  /** Writing leaves at least the bytes in front. */
  predicate Writes(e: Event, ino: nat, bytes: string) { e.Write? && e.ino == ino && bytes <= e.bytes }

  predicate Prepared(log: seq<Event>, temp: Temp, bytes: string) {
    |log| == 2 && log[0] == MakeTemp(temp.name) && Writes(log[1], temp.ino, bytes)
  }

  /** A creation links the document, removes the temporary name if that succeeds, and sets the mode 0644
      unless the destination is lost; a replacement renames instead. */
  predicate CreateLog(log: seq<Event>, temp: Temp, bytes: string, r: Report) {
    var unlinked := if r.cleanup == Complete then [Unlink(temp.name)] else [];
    && |log| >= 3 && Prepared(log[..2], temp, bytes) && log[2] == HardLink(temp.name, DOCUMENT)
    && r.cleanup != NotRequired
    && Closes(log[3..], unlinked, temp, 420, r)
  }

  predicate ReplaceLog(log: seq<Event>, temp: Temp, bytes: string, mode: nat, r: Report) {
    && |log| >= 3 && Prepared(log[..2], temp, bytes) && log[2] == Rename(temp.name, DOCUMENT)
    && r.cleanup == NotRequired
    && Closes(log[3..], [], temp, mode, r)
  }

  predicate Closes(log: seq<Event>, before: seq<Event>, temp: Temp, mode: nat, r: Report) {
    && (log == before || log == before + [Chmod(temp.ino, mode)])
    && (r.mode == Applied ==> log == before + [Chmod(temp.ino, mode)])
  }

  /** The part of a creation after the temporary file is prepared. */
  predicate LinkLog(log: seq<Event>, temp: Temp, r: Report) {
    var unlinked := if r.cleanup == Complete then [Unlink(temp.name)] else [];
    && log != [] && log[0] == HardLink(temp.name, DOCUMENT) && r.cleanup != NotRequired
    && Closes(log[1..], unlinked, temp, MODE_644, r)
  }

  predicate RenameLog(log: seq<Event>, temp: Temp, mode: nat, r: Report) {
    && log != [] && log[0] == Rename(temp.name, DOCUMENT) && r.cleanup == NotRequired
    && Closes(log[1..], [], temp, mode, r)
  }

  lemma LinkLogs(before: seq<Event>, after: seq<Event>, unlinked: bool, moded: bool, temp: Temp, r: Report)
    requires after == before + [HardLink(temp.name, DOCUMENT)] + (if unlinked then [Unlink(temp.name)] else [])
      + (if moded then [Chmod(temp.ino, MODE_644)] else [])
    requires r.cleanup == (if unlinked then Complete else CleanupFailed) && (r.mode == Applied ==> moded)
    ensures after[..|before|] == before && LinkLog(after[|before|..], temp, r)
  {
    var u := if unlinked then [Unlink(temp.name)] else [];
    var c := if moded then [Chmod(temp.ino, MODE_644)] else [];
    assert after == before + ([HardLink(temp.name, DOCUMENT)] + (u + c));
    assert after[|before|..][1..] == u + c;
  }

  lemma RenameLogs(before: seq<Event>, after: seq<Event>, moded: bool, temp: Temp, mode: nat, r: Report)
    requires after == before + [Rename(temp.name, DOCUMENT)] + (if moded then [Chmod(temp.ino, mode)] else [])
    requires r.cleanup == NotRequired && (r.mode == Applied ==> moded)
    ensures after[..|before|] == before && RenameLog(after[|before|..], temp, mode, r)
  {
    var c := if moded then [Chmod(temp.ino, mode)] else [];
    assert after == before + ([Rename(temp.name, DOCUMENT)] + c);
    assert after[|before|..][1..] == c;
  }

  lemma LogParts(before: seq<Event>, mid: seq<Event>, after: seq<Event>)
    requires before <= mid <= after && |mid| == |before| + 2
    ensures after[|before|..][..2] == mid[|before|..] && after[|before|..][2..] == after[|mid|..]
  {
    assert mid == before + mid[|before|..] && after == mid + after[|mid|..];
  }

  lemma CreateLogs(
    before: seq<Event>, mid: seq<Event>, after: seq<Event>, temp: Temp, bytes: string, r: Report)
    requires before <= mid && |mid| == |before| + 2 && Prepared(mid[|before|..], temp, bytes)
    requires |mid| <= |after| && after[..|mid|] == mid && LinkLog(after[|mid|..], temp, r)
    ensures |before| <= |after| && CreateLog(after[|before|..], temp, bytes, r)
  {
    LogParts(before, mid, after);
    var log := after[|before|..];
    assert log[2..][1..] == log[3..] && log[2] == log[2..][0];
  }

  lemma ReplaceLogs(
    before: seq<Event>, mid: seq<Event>, after: seq<Event>, temp: Temp, bytes: string, mode: nat, r: Report)
    requires before <= mid && |mid| == |before| + 2 && Prepared(mid[|before|..], temp, bytes)
    requires |mid| <= |after| && after[..|mid|] == mid && RenameLog(after[|mid|..], temp, mode, r)
    ensures |before| <= |after| && ReplaceLog(after[|before|..], temp, bytes, mode, r)
  {
    LogParts(before, mid, after);
    var log := after[|before|..];
    assert log[2..][1..] == log[3..] && log[2] == log[2..][0];
  }

  /** Moments of a publication: the lookup and the end of the recheck, just before the rename, the reread
      after it, the check of the destination, the read after its mode was set, and the last lookup of the
      document's name; and before that, where the temporary file is filled and where the destination's mode
      is set. */
  datatype Moments = Moments(
    found: World, rechecked: World, renamed: World, reread: World, bound: World, applied: World, lookup: World,
    filling: World, closing: World)

  function AllAt(w: World): Moments { Moments(w, w, w, w, w, w, w, w, w) }

  /** What the two syncs of a publication report, when its destination's mode could be set: the second call
      from there on syncs the file, and the sixth the directory. */
  function SyncErrors(w: World): seq<string> {
    (if CallFails(w, 1) then ["destination metadata fsync failed"] else [])
    + (if CallFails(w, 5) then ["repository directory fsync failed"] else [])
  }

  lemma SyncsAre(w: World, errors: seq<string>)
    requires errors ==
      (if CallFails(w, 1) then ["destination metadata fsync failed"] else [])
      + if CallFails(w, 5) then ["repository directory fsync failed"] else []
    ensures errors == SyncErrors(w)
  {
  }

  lemma NoErrors()
    ensures DurabilityStatus([]) == Durable
  {
  }

  /** The syncs of a publication: the temporary file's went through, and the report says which of the
      others failed. The calls around them are counted, so none of them was left out. */
  ghost predicate Synced(start: World, r: Report, t: Moments, calls: nat) {
    && After(start, t.filling) && After(t.filling, t.closing) && !CallFails(t.filling, 1)
    && (r.mode == Applied ==>
          && Called(t.filling, t.bound, calls) && After(t.bound, t.closing)
          && r.durability == DurabilityStatus(SyncErrors(t.closing))
          && After(t.closing, t.applied) && Called(t.closing, t.applied, 5) && Called(t.closing, t.lookup, 7))
  }

  /** The same from where the temporary file is prepared. */
  ghost predicate SyncedFrom(a: World, r: Report, t: Moments, calls: nat) {
    && After(a, t.closing)
    && (r.mode == Applied ==>
          && Called(a, t.bound, calls) && After(t.bound, t.closing)
          && r.durability == DurabilityStatus(SyncErrors(t.closing))
          && After(t.closing, t.applied) && Called(t.closing, t.applied, 5) && Called(t.closing, t.lookup, 7))
  }

  lemma SyncedAt(a: World, bound: World, closing: World, r: Report, u: Moments, t: Moments, calls: nat)
    requires After(a, closing) && After(bound, closing) && t.bound == bound && t.closing == closing
    requires t.applied == u.applied && t.lookup == u.lookup
    requires r.mode == Applied ==>
      && Called(a, bound, calls) && r.durability == DurabilityStatus(SyncErrors(closing))
      && After(closing, u.applied) && Called(closing, u.applied, 5) && Called(closing, u.lookup, 7)
    ensures SyncedFrom(a, r, t, calls)
  {
  }

  lemma SyncedSince(
    start: World, filling: World, a: World, r: Report, u: Moments, t: Moments, calls: nat, n: nat)
    requires After(start, filling) && After(filling, a) && Called(filling, a, calls) && !CallFails(filling, 1)
    requires SyncedFrom(a, r, u, n) && t.filling == filling
    requires t.bound == u.bound && t.closing == u.closing && t.applied == u.applied && t.lookup == u.lookup
    ensures Synced(start, r, t, calls + n)
  {
    AfterTransitive(filling, a, t.closing);
    if r.mode == Applied {
      CalledOn(filling, a, t.bound, calls, n);
    }
  }

  /** So a clean report means that every sync went through. */
  lemma CleanIsSynced(start: World, r: Report, t: Moments, calls: nat, intended: string)
    requires Synced(start, r, t, calls) && PublicationIsClean(r, intended)
    ensures !CallFails(t.filling, 1) && !CallFails(t.closing, 1) && !CallFails(t.closing, 5)
  {
  }

  /** The final read saw the file `ino` under the document's name, with this mode, and from the read
      after the mode was set until now nobody changed that file in any way. */
  ghost predicate Observed(start: World, now: World, r: Report, ino: nat, mode: nat, t: Moments) {
    && r.finalState.Present?
    && r.finalState.read.pre.ino == ino && r.finalState.read.pre.mode == mode
    && After(start, t.applied) && After(t.applied, t.lookup) && After(t.lookup, now)
    && LeadsTo(t.lookup, ino)
    && forall k {:trigger now.trace[k]} :: |t.applied.trace| - 1 <= k < |now.trace| ==>
      Node(now.trace[k], ino) == StateOf(r.finalState.read)
  }

  lemma ObservedFrom(
    start: World, applied: World, lookup: World, now: World, r: Report, ino: nat, mode: nat, t: Moments)
    requires Valid(start) && After(start, applied) && After(applied, lookup) && After(lookup, now)
    requires t.applied == applied && t.lookup == lookup
    requires r.finalState.Present? && r.finalState.read.pre.ino == ino && r.finalState.read.pre.mode == mode
    requires Exists(applied, ino)
    requires Node(applied.disk, ino) == StateOf(r.finalState.read) == Node(now.disk, ino)
    requires LeadsTo(lookup, ino)
    ensures Observed(start, now, r, ino, mode, t)
  {
    var i, j := |applied.trace| - 1, |now.trace| - 1;
    assert now.trace[i] == applied.disk;
    forall k {:trigger now.trace[k]} | i <= k <= j ensures Node(now.trace[k], ino) == StateOf(r.finalState.read) {
      Steady(now.trace, i, k, j, ino);
    }
  }

  lemma ObservedSince(a: World, b: World, now: World, r: Report, ino: nat, mode: nat, t: Moments)
    requires After(a, b) && Observed(b, now, r, ino, mode, t)
    ensures Observed(a, now, r, ino, mode, t)
  {
  }

  /** The destination was checked before its mode was set, and then it held these bytes. */
  ghost predicate BoundAt(start: World, ino: nat, bytes: string, t: Moments) {
    && After(start, t.bound) && After(t.bound, t.applied)
    && Node(t.bound.disk, ino).bytes == bytes
  }

  lemma BoundFrom(a: World, b: World, c: World, now: World, r: Report, ino: nat, mode: nat, u: Moments, t: Moments)
    requires After(a, b) && After(b, c) && Observed(c, now, r, ino, mode, u)
    requires t.bound == b && t.applied == u.applied
    ensures BoundAt(a, ino, Node(b.disk, ino).bytes, t)
  {
  }

  lemma BoundSince(a: World, b: World, ino: nat, bytes: string, u: Moments, t: Moments)
    requires After(a, b) && BoundAt(b, ino, bytes, u) && t.bound == u.bound && t.applied == u.applied
    ensures BoundAt(a, ino, bytes, t)
  {
  }

  /** Between the two worlds somebody changed the file's content away from these bytes, for good. */
  ghost predicate EditedBetween(a: World, b: World, ino: nat, bytes: string) {
    exists k {:trigger b.trace[k]} :: 0 < k && |a.trace| <= k < |b.trace| && EditedFrom(b.trace, k, ino, bytes)
  }

  /** The step to index `k` changed the file's content away from these bytes, and no later one changed it
      back. */
  ghost predicate EditedFrom(trace: seq<Disk>, k: nat, ino: nat, bytes: string)
    requires 0 < k
  {
    && k < |trace| && Node(trace[k - 1], ino).bytes == bytes
    && forall j {:trigger trace[j]} :: k <= j < |trace| ==> Node(trace[j], ino).bytes != bytes
  }

  /** A file that held some bytes no longer does exactly when somebody edited it in between. */
  lemma LostByEdit(a: World, b: World, ino: nat, bytes: string)
    requires Valid(a) && Valid(b) && After(a, b) && Node(a.disk, ino).bytes == bytes
    ensures Node(b.disk, ino).bytes != bytes <==> EditedBetween(a, b, ino, bytes)
  {
    assert b.trace[|a.trace| - 1] == a.disk && b.trace[|b.trace| - 1] == b.disk;
    if Node(b.disk, ino).bytes != bytes {
      var k := LastEdit(b.trace, |a.trace| - 1, ino, bytes);
      assert EditedFrom(b.trace, k, ino, bytes) && Node(b.trace[k], ino).bytes != bytes;
    }
    if EditedBetween(a, b, ino, bytes) {
      var k: nat :| 0 < k && |a.trace| <= k < |b.trace| && EditedFrom(b.trace, k, ino, bytes);
      StaysEdited(b.trace, k, |b.trace| - 1, ino, bytes);
    }
  }

  lemma StaysEdited(trace: seq<Disk>, k: nat, j: nat, ino: nat, bytes: string)
    requires 0 < k <= j < |trace| && EditedFrom(trace, k, ino, bytes)
    ensures Node(trace[j], ino).bytes != bytes
  {
  }

  lemma {:induction false} LastEdit(trace: seq<Disk>, i: nat, ino: nat, bytes: string) returns (k: nat)
    requires i < |trace| - 1 && Node(trace[i], ino).bytes == bytes
    requires Node(trace[|trace| - 1], ino).bytes != bytes
    ensures i < k < |trace| && EditedFrom(trace, k, ino, bytes)
    decreases |trace| - i
  {
    if j :| i < j < |trace| && Node(trace[j], ino).bytes == bytes {
      k := LastEdit(trace, j, ino, bytes);
    } else {
      k := i + 1;
    }
  }

  /** The one rename happens right after `t.renamed`; at `t.reread`, later, the file that was rechecked
      still had its content unless an edit is flagged. */
  ghost predicate Renames(start: World, now: World, temp: Temp, pre: Preimage, edited: bool, t: Moments) {
    && Quiet(start, t.renamed)
    && temp.name != DOCUMENT && temp.name in t.renamed.disk.names
    && After(Own(t.renamed, Rename(temp.name, DOCUMENT)), t.reread) && After(t.reread, now)
    && (!edited ==> Node(t.reread.disk, pre.ino).bytes == pre.content)
  }

  /** The name led to the file when it was looked up for the recheck, the file held exactly the expected
      state at the end of the recheck, and then came the one rename. */
  ghost predicate Rechecked(start: World, now: World, temp: Temp, pre: Preimage, edited: bool, t: Moments) {
    && Steps(start, t.found, 0) && LeadsTo(t.found, pre.ino)
    && Quiet(t.found, t.rechecked)
    && Node(t.rechecked.disk, pre.ino) == Inode(Regular, pre.content, pre.mode, pre.cookie)
    && Renames(t.rechecked, now, temp, pre, edited, t)
  }

  predicate LedTo(d: Disk, ino: nat) { DOCUMENT in d.names && d.names[DOCUMENT] == ino }

  /** The document's name stands for this file. */
  predicate LeadsTo(w: World, ino: nat) { LedTo(w.disk, ino) }

  lemma RechecksAt(
    start: World, found: World, rechecked: World, now: World, temp: Temp, pre: Preimage, edited: bool, t: Moments)
    requires Steps(start, found, 0) && LeadsTo(found, pre.ino) && Quiet(found, rechecked)
    requires Node(rechecked.disk, pre.ino) == Inode(Regular, pre.content, pre.mode, pre.cookie)
    requires t.found == found && t.rechecked == rechecked && Renames(rechecked, now, temp, pre, edited, t)
    ensures Rechecked(start, now, temp, pre, edited, t)
  {
  }

  lemma RenamesAt(
    start: World, v: World, reread: World, now: World, temp: Temp, pre: Preimage, edited: bool, t: Moments)
    requires Quiet(start, v) && temp.name != DOCUMENT && temp.name in v.disk.names
    requires Quiet(Own(v, Rename(temp.name, DOCUMENT)), reread) && After(reread, now)
    requires t.renamed == v && t.reread == reread && (!edited ==> Node(reread.disk, pre.ino).bytes == pre.content)
    ensures Renames(start, now, temp, pre, edited, t)
  {
  }

  lemma RenamesWith(start: World, now: World, temp: Temp, pre: Preimage, edited: bool, u: Moments, t: Moments)
    requires Renames(start, now, temp, pre, edited, u) && t.renamed == u.renamed && t.reread == u.reread
    ensures Renames(start, now, temp, pre, edited, t)
  {
  }

  lemma ObservedWith(a: World, now: World, r: Report, ino: nat, mode: nat, u: Moments, t: Moments)
    requires Observed(a, now, r, ino, mode, u) && u.applied == t.applied && u.lookup == t.lookup
    ensures Observed(a, now, r, ino, mode, t)
  {
  }

  /** What the parts of a replacement say of the whole. */
  lemma ReplacedWhole(
    start: World, w1: World, w2: World, now: World, temp: Temp, bytes: string, pre: Preimage, r: Report,
    u: Moments, t: Moments)
    requires After(start, t.filling) && After(t.filling, w1) && Called(t.filling, w1, 5) && !CallFails(t.filling, 1)
    requires Steps(start, t.found, 0) && LeadsTo(t.found, pre.ino) && Quiet(t.found, w2)
    requires After(w1, w2) && After(start, w2)
    requires Called(w1, w2, 4) && t == u.(filling := t.filling, found := t.found, rechecked := w2)
    requires Node(w2.disk, pre.ino) == Inode(Regular, pre.content, pre.mode, pre.cookie)
    requires Renames(w2, now, temp, pre, r.preRenameEdit, u) && SyncedFrom(w2, r, u, 8)
    requires !r.finalInterference ==>
      Observed(w2, now, r, temp.ino, pre.mode, u) && BoundAt(w2, temp.ino, bytes, u)
    ensures Rechecked(start, now, temp, pre, r.preRenameEdit, t) && Synced(start, r, t, 17)
    ensures !r.finalInterference ==>
      Observed(start, now, r, temp.ino, pre.mode, t) && BoundAt(start, temp.ino, bytes, t)
  {
    hide Called, CallFails, Renames, SyncedFrom, Synced, Observed, BoundAt, Rechecked, Node, Valid;
    CalledOn(t.filling, w1, w2, 5, 4);
    AfterTransitive(t.filling, w1, w2);
    SyncedSince(start, t.filling, w2, r, u, t, 9, 8);
    RenamesWith(w2, now, temp, pre, r.preRenameEdit, u, t);
    RechecksAt(start, t.found, w2, now, temp, pre, r.preRenameEdit, t);
    if !r.finalInterference {
      ObservedWith(w2, now, r, temp.ino, pre.mode, u, t);
      ObservedSince(start, w2, now, r, temp.ino, pre.mode, t);
      BoundSince(start, w2, temp.ino, bytes, u, t);
    }
  }

  lemma CreatedWhole(
    start: World, w1: World, now: World, temp: Temp, bytes: string, r: Report, u: Moments, t: Moments)
    requires After(start, t.filling) && After(t.filling, w1) && Called(t.filling, w1, 5) && !CallFails(t.filling, 1)
    requires After(start, w1) && t == u.(filling := t.filling) && SyncedFrom(w1, r, u, 5)
    requires !r.finalInterference ==>
      Observed(w1, now, r, temp.ino, MODE_644, u) && BoundAt(w1, temp.ino, bytes, u)
    ensures Synced(start, r, t, 10)
    ensures !r.finalInterference ==>
      Observed(start, now, r, temp.ino, MODE_644, t) && BoundAt(start, temp.ino, bytes, t)
  {
    hide Called, CallFails, SyncedFrom, Synced, Observed, BoundAt, Valid;
    SyncedSince(start, t.filling, w1, r, u, t, 5, 5);
    if !r.finalInterference {
      ObservedWith(w1, now, r, temp.ino, MODE_644, u, t);
      ObservedSince(start, w1, now, r, temp.ino, MODE_644, t);
      BoundSince(start, w1, temp.ino, bytes, u, t);
    }
  }

  /** A clean report: the file found under the document's name is the new one, and it holds exactly
      the intended bytes with the requested mode, as it did when the mode was set. */
  lemma CleanIsPublished(start: World, now: World, r: Report, ino: nat, mode: nat, t: Moments, intended: string)
    requires Observed(start, now, r, ino, mode, t) && PublicationIsClean(r, intended)
    ensures var found := Node(t.lookup.disk, t.lookup.disk.names[DOCUMENT]);
      && found.kind == Regular && found.bytes == intended && found.mode == mode
      && found == Node(t.applied.disk, ino) == Node(now.disk, ino)
  {
    var i, k, j := |t.applied.trace| - 1, |t.lookup.trace| - 1, |now.trace| - 1;
    assert now.trace[i] == t.applied.disk && now.trace[k] == t.lookup.disk && now.trace[j] == now.disk;
  }

  /** When nothing is flagged and every claim succeeded, the intended bytes were published exactly when
      the file held them at the read after its mode was set: no edit came between writing and that read. */
  lemma CleanAtApplied(start: World, now: World, r: Report, ino: nat, mode: nat, t: Moments, intended: string)
    requires Observed(start, now, r, ino, mode, t)
    requires r.outcome in {Created, Replaced} && r.durability == Durable
    requires r.mode == Applied && r.cleanup != CleanupFailed
    requires !r.sourceInterference && !r.preRenameEdit && !r.finalInterference
    ensures PublicationIsClean(r, intended) <==> Node(t.applied.disk, ino).bytes == intended
  {
    assert now.trace[|t.applied.trace| - 1] == t.applied.disk;
  }

  /** So a report that flags nothing and claims everything is not clean exactly when somebody edited the
      new file between the check of the destination and the read after its mode was set. */
  lemma NotCleanIfEdited(start: World, now: World, r: Report, ino: nat, mode: nat, t: Moments, intended: string)
    requires Valid(start) && Observed(start, now, r, ino, mode, t) && BoundAt(start, ino, intended, t)
    requires r.outcome in {Created, Replaced} && r.durability == Durable
    requires r.mode == Applied && r.cleanup != CleanupFailed
    requires !r.sourceInterference && !r.preRenameEdit && !r.finalInterference
    ensures !PublicationIsClean(r, intended) <==> EditedBetween(t.bound, t.applied, ino, intended)
  {
    CleanAtApplied(start, now, r, ino, mode, t, intended);
    hide PublicationIsClean, Observed, EditedBetween, Node;
    LostByEdit(t.bound, t.applied, ino, intended);
  }

  lemma QuietAfter(a: World, b: World)
    requires Quiet(a, b)
    ensures After(a, b)
  {
  }

  lemma ObservedIno(start: World, done: World, r: Report, ino: nat, mode: nat, t: Moments)
    requires Observed(start, done, r, ino, mode, t)
    ensures r.finalState.Present? && r.finalState.read.pre.ino == ino
  {
  }

  lemma ObservedStill(
    start: World, done: World, lookup: World, now: World, r: Report, r': Report, ino: nat, mode: nat, t: Moments)
    requires Observed(start, done, r, ino, mode, t) && After(done, lookup) && After(lookup, now)
    requires r'.finalState == r.finalState && Node(now.disk, ino) == StateOf(r.finalState.read)
    requires LeadsTo(lookup, ino)
    ensures Observed(start, now, r', ino, mode, t.(lookup := lookup))
  {
    var i, j := |t.applied.trace| - 1, |now.trace| - 1;
    assert now.trace[i] == done.trace[i];
    forall k {:trigger now.trace[k]} | i <= k <= j ensures Node(now.trace[k], ino) == StateOf(r.finalState.read) {
      Steady(now.trace, i, k, j, ino);
    }
  }

  lemma QuietReflexive(w: World)
    requires Valid(w)
    ensures Quiet(w, w)
  {
  }

  lemma TempIsNew(a: World, b: World, temp: Temp)
    requires IsTemp(a, b, temp)
    ensures !Exists(a, temp.ino) && temp.name != DOCUMENT
  {
  }

  // ---- undisturbed -----------------------------------------------------------------------------

  /** A regular file of at most the size limit. */
  predicate IsReadable(d: Disk, ino: nat) {
    Node(d, ino).kind == Regular && |Node(d, ino).bytes| <= MAX_DOCUMENT_BYTES
  }

  /** The document's name stands for a regular file of at most the size limit. */
  ghost predicate Readable(w: World, ino: nat) {
    && LeadsTo(w, ino)
    && Node(w.disk, ino).kind == Regular && |Node(w.disk, ino).bytes| <= MAX_DOCUMENT_BYTES
  }

  /** The temporary name stands for the temporary file, which holds what was read back from it. */
  ghost predicate Holds(w: World, temp: Temp, intended: DocumentRead) {
    && temp.name != DOCUMENT && temp.name in w.disk.names && w.disk.names[temp.name] == temp.ino
    && temp.ino == intended.pre.ino && intended.bytes == intended.pre.content && |intended.bytes| <= MAX_DOCUMENT_BYTES
    && Node(w.disk, temp.ino).kind == Regular && Node(w.disk, temp.ino).bytes == intended.bytes
  }

  /** One turn is left at most, and the call it comes before goes through. */
  ghost predicate LastTurn(w: World) { Next(w).turns == [] && !TurnOf(w).fails }

  /** The world once the temporary file holds the intended bytes. */
  function PreparedWorld(w: World, bytes: string): World {
    Own(Own(w, Make(TempName(""), Regular, "", MODE_600)), Write(w.disk.next, bytes))
  }

  lemma SameRead(w: World, ino: nat, e: DocumentRead)
    requires Node(w.disk, ino) == StateOf(e) && e.pre.ino == ino && e.pre.content == e.bytes
    ensures ReadOf(ino, Node(w.disk, ino).bytes, Node(w.disk, ino)) == e
  {
  }

  lemma MadeEmpty(w: World, name: string)
    requires name !in w.disk.names
    ensures Node(Own(w, Make(name, Regular, "", MODE_600)).disk, w.disk.next).bytes == []
    ensures Node(Own(w, Make(name, Regular, "", MODE_600)).disk, w.disk.next).kind == Regular
    ensures Own(w, Make(name, Regular, "", MODE_600)).turns == w.turns
  {
  }

  lemma WroteBytes(w: World, ino: nat, bytes: string)
    requires Exists(w, ino)
    ensures Node(Own(w, Write(ino, bytes)).disk, ino).bytes == bytes
    ensures Node(Own(w, Write(ino, bytes)).disk, ino).kind == Node(w.disk, ino).kind
    ensures Own(w, Write(ino, bytes)).turns == w.turns && Own(w, Write(ino, bytes)).disk.names == w.disk.names
  {
  }

  /** The temporary file has its name and its bytes, and nothing else has changed. */
  lemma PreparedDisk(w: World, bytes: string)
    requires Valid(w) && TempName("") !in w.disk.names
    ensures var p := PreparedWorld(w, bytes);
      && p.turns == w.turns && p.disk.names == w.disk.names[TempName("") := w.disk.next]
      && Node(p.disk, w.disk.next).kind == Regular && Node(p.disk, w.disk.next).bytes == bytes
      && forall i :: Exists(w, i) ==> Node(p.disk, i) == Node(w.disk, i)
  {
  }

  /** There is room for the bytes and the temporary name is free. */
  ghost predicate Unused(w: World, bytes: string) {
    TempName("") !in w.disk.names && |bytes| <= MAX_DOCUMENT_BYTES
  }

  lemma PreparedHolds(w: World, bytes: string)
    requires Valid(w) && Unused(w, bytes)
    ensures var p := PreparedWorld(w, bytes);
      var ino := w.disk.next;
      && p.turns == w.turns && p.disk.names == w.disk.names[TempName("") := ino]
      && TempName("") != DOCUMENT
      && Holds(p, Temp(TempName(""), ino), ReadOf(ino, bytes, Node(p.disk, ino)))
      && forall i :: Exists(w, i) ==> i != ino && Node(p.disk, i) == Node(w.disk, i)
  {
    hide Own;
    PreparedDisk(w, bytes);
    TempIsNotDocument("");
    StepsReflexive(w);
    FreshIno(w, w);
  }

  /** The document is a regular file in exactly the state the caller read. */
  ghost predicate AsExpected(w: World, pre: Preimage) {
    && Readable(w, pre.ino)
    && Node(w.disk, pre.ino) == Inode(Regular, pre.content, pre.mode, pre.cookie)
  }

  /** Why a document that is not as expected is refused. */
  function Unexpected(d: Disk): StoreError {
    if DOCUMENT in d.names && !IsReadable(d, d.names[DOCUMENT]) then InvalidFile else PreimageChanged
  }

  lemma StillUnexpected(w: World, bytes: string, pre: Preimage)
    requires Valid(w) && Unused(w, bytes)
    ensures var p := PreparedWorld(w, bytes);
      (AsExpected(p, pre) <==> AsExpected(w, pre)) && Unexpected(p.disk) == Unexpected(w.disk)
  {
    PreparedHolds(w, bytes);
    if DOCUMENT in w.disk.names {
      NamesExist(w, DOCUMENT);
    }
    hide PreparedWorld, Own;
  }

  lemma StillExpected(w: World, bytes: string, pre: Preimage)
    requires Valid(w) && Unused(w, bytes) && AsExpected(w, pre)
    ensures AsExpected(PreparedWorld(w, bytes), pre) && pre.ino != w.disk.next
  {
    hide Own;
    PreparedHolds(w, bytes);
    NamesExist(w, DOCUMENT);
  }

  lemma LinkedDisk(w: World, name: string, ino: nat)
    requires Valid(w) && name in w.disk.names && w.disk.names[name] == ino && DOCUMENT !in w.disk.names
    ensures var v := Own(w, HardLink(name, DOCUMENT));
      && v.turns == w.turns && v.disk.names == w.disk.names[DOCUMENT := ino]
      && Node(v.disk, ino).kind == Node(w.disk, ino).kind && Node(v.disk, ino).bytes == Node(w.disk, ino).bytes
  {
  }

  /** The temporary name stands for the temporary file. */
  ghost predicate Held(w: World, temp: Temp) {
    temp.name in w.disk.names && w.disk.names[temp.name] == temp.ino && Node(w.disk, temp.ino).kind == Regular
  }

  lemma HeldTemp(w: World, bytes: string)
    requires Valid(w) && Unused(w, bytes)
    ensures var p := PreparedWorld(w, bytes);
      Held(p, PlainTemp(w)) && p.disk.names - {TempName("")} == w.disk.names
  {
    PreparedHolds(w, bytes);
    hide PreparedWorld;
    assert w.disk.names[TempName("") := w.disk.next] - {TempName("")} == w.disk.names;
  }

  lemma DropHeld(w: World, temp: Temp)
    requires w.turns == [] && Held(w, temp)
    ensures Idle(w, 3) && Skip(w, 3) == w && Own(w, Unlink(temp.name)).disk.names == w.disk.names - {temp.name}
  {
  }

  /** Preparing and then removing the temporary file leaves every name as it was. */
  lemma RemovedTemp(w: World, bytes: string)
    requires Valid(w) && Unused(w, bytes)
    ensures var v := Own(PreparedWorld(w, bytes), Unlink(TempName("")));
      v.disk.names == w.disk.names && v.turns == w.turns
  {
    PreparedDisk(w, bytes);
    hide PreparedWorld;
    assert w.disk.names[TempName("") := w.disk.next] - {TempName("")} == w.disk.names;
  }

  lemma UnlinkedDisk(w: World, name: string, ino: nat)
    requires Valid(w) && name in w.disk.names && name != DOCUMENT && w.disk.names[name] == ino && Readable(w, ino)
    ensures var v := Own(w, Unlink(name));
      v.turns == w.turns && Readable(v, ino) && Node(v.disk, ino).bytes == Node(w.disk, ino).bytes
  {
  }

  lemma ChangedMode(w: World, ino: nat, mode: nat)
    requires Exists(w, ino)
    ensures var v := Own(w, Chmod(ino, mode));
      && v.turns == w.turns && v.disk.names == w.disk.names
      && Node(v.disk, ino).kind == Node(w.disk, ino).kind && Node(v.disk, ino).bytes == Node(w.disk, ino).bytes
      && Node(v.disk, ino).mode == mode
  {
  }

  // ---- schedules at rest -----------------------------------------------------------------------

  lemma PlayedNothing(w: World)
    ensures Played(w, []) == w
  {
  }

  lemma PlayedMore(w: World, events: seq<Event>, i: nat)
    requires i < |events|
    ensures Played(w, events[..i + 1]) == Act(Played(w, events[..i]), events[i])
  {
    assert events[..i + 1][..i] == events[..i];
  }

  lemma IdleCall(w: World)
    ensures Idle(w, 1) ==> Next(w) == Skip(w, 1) && !TurnOf(w).fails && Skip(w, 1).disk == w.disk
  {
    IdleNext(w);
  }

  /** Three calls. */
  lemma IdleRead(w: World)
    ensures Skip(w, 1).disk == Skip(w, 2).disk == Skip(w, 3).disk == w.disk
    ensures Idle(w, 3) ==>
      && Next(w) == Skip(w, 1) && TurnOf(w) == REST
      && Next(Skip(w, 1)) == Skip(w, 2) && TurnOf(Skip(w, 1)) == REST
      && Next(Skip(w, 2)) == Skip(w, 3) && TurnOf(Skip(w, 2)) == REST
  {
    IdleSplit(w, 1, 2);
    IdleSplit(w, 2, 1);
    IdleSplit(w, 1, 1);
    IdleNext(w);
    IdleNext(Skip(w, 1));
    IdleNext(Skip(w, 2));
  }

  /** A call, and another after a change of ours. */
  lemma IdlePair(w: World, e: Event)
    ensures Skip(w, 1).disk == w.disk
    ensures Idle(w, 2) ==>
      && Next(w) == Skip(w, 1) && TurnOf(w) == REST
      && Next(Own(Skip(w, 1), e)) == Own(Skip(w, 2), e) && TurnOf(Own(Skip(w, 1), e)) == REST
  {
    IdleSplit(w, 1, 1);
    IdleNext(w);
    SkipOwn(Skip(w, 1), e, 1);
    IdleNext(Own(Skip(w, 1), e));
  }

  /** One call, then three. */
  lemma IdleOpen(w: World)
    ensures Skip(w, 1).disk == Skip(w, 4).disk == w.disk
    ensures Idle(w, 4) ==> Idle(w, 1) && Idle(Skip(w, 1), 3) && Skip(Skip(w, 1), 3) == Skip(w, 4)
  {
    IdleSplit(w, 1, 3);
  }

  /** A call, a change of ours, another call, then three. */
  lemma IdleFill(w: World, ino: nat, bytes: string)
    requires Exists(w, ino)
    ensures Skip(w, 1).disk == w.disk
    ensures var e := Write(ino, bytes); Idle(w, 5) ==>
      && Next(w) == Skip(w, 1) && !TurnOf(w).fails
      && Next(Own(Skip(w, 1), e)) == Own(Skip(w, 2), e) && !TurnOf(Own(Skip(w, 1), e)).fails
      && Idle(Own(Skip(w, 2), e), 3) && Skip(Own(Skip(w, 2), e), 3) == Own(Skip(w, 5), e)
      && Node(Own(Skip(w, 2), e).disk, ino).bytes == bytes
      && Node(Own(Skip(w, 2), e).disk, ino).kind == Node(w.disk, ino).kind
  {
    var e := Write(ino, bytes);
    IdleSplit(w, 2, 3);
    IdlePair(w, e);
    SkipOwn(Skip(w, 2), e, 3);
    WroteBytes(Skip(w, 2), ino, bytes);
  }

  lemma IdlePrepare(w: World, bytes: string)
    ensures var m := Own(Skip(w, 2), Make(TempName(""), Regular, "", MODE_600));
      Idle(w, 7) && Unused(w, bytes) ==>
        && Idle(w, 2) && Idle(m, 5)
        && Node(m.disk, w.disk.next).kind == Regular && Node(m.disk, w.disk.next).bytes == []
        && Own(Skip(m, 5), Write(w.disk.next, bytes)) == PreparedWorld(Skip(w, 7), bytes)
  {
    var e := Make(TempName(""), Regular, "", MODE_600);
    IdleSplit(w, 2, 5);
    SkipOwn(Skip(w, 2), e, 5);
    if Unused(w, bytes) {
      MadeEmpty(Skip(w, 2), TempName(""));
    }
  }

  // ---- one call fails --------------------------------------------------------------------------

  /** Where one of the calls that prepare the temporary file failed: the first makes nothing, the second
      leaves a file that is forgotten, and the others leave one that is known. */
  ghost predicate Begun(a: World, b: World, temp: Option<Temp>) {
    var left := a.disk.names[TempName("") := a.disk.next];
    if |a.turns| <= 2 then temp == None && (b.disk.names == a.disk.names <==> |a.turns| == 1)
    else
      && temp == Some(Temp(TempName(""), a.disk.next)) && b.disk.names == left
      && Node(b.disk, a.disk.next).kind == Regular
  }

  lemma FaultPrepare(w: World, bytes: string)
    ensures var m := Own(Skip(w, 2), Make(TempName(""), Regular, "", MODE_600));
      OneFault(w) && |w.turns| > 2 && Unused(w, bytes) ==>
        && Idle(w, 2) && OneFault(m) && |m.turns| == |w.turns| - 2
        && m.disk.names == w.disk.names[TempName("") := w.disk.next]
        && Node(m.disk, w.disk.next).kind == Regular && Node(m.disk, w.disk.next).bytes == []
  {
    if OneFault(w) && |w.turns| > 2 && Unused(w, bytes) {
      FaultLater(w, 2);
      FaultOwn(Skip(w, 2), Make(TempName(""), Regular, "", MODE_600));
      MadeEmpty(Skip(w, 2), TempName(""));
    }
  }

  lemma BegunNothing(a: World, b: World)
    requires OneFault(a)
    ensures Begun(a, b, None) ==> 0 < |a.turns| <= 2 && (b.disk.names == a.disk.names <==> |a.turns| == 1)
  {
  }

  /** Removing the temporary file, when it is known, leaves the names as they were. */
  lemma BegunRemoved(a: World, b: World, temp: Temp)
    requires Valid(a) && TempName("") !in a.disk.names && Begun(a, b, Some(temp)) && b.turns == []
    ensures |a.turns| > 2 && Held(b, temp) && b.disk.names - {temp.name} == a.disk.names
  {
    assert a.disk.names[temp.name := temp.ino] - {temp.name} == a.disk.names;
  }

  /** The one call that links or renames the temporary file fails, and the file is removed. */
  lemma FaultCall(w: World, temp: Temp, intended: DocumentRead)
    requires Holds(w, temp, intended)
    ensures OneFault(w) && |w.turns| == 1 ==>
      var v := Next(w);
      && TurnOf(w).fails && Idle(v, 3) && temp.name in v.disk.names && v.disk.names[temp.name] == temp.ino
      && Node(v.disk, temp.ino).kind == Regular
      && Own(Skip(v, 3), Unlink(temp.name)).disk.names == w.disk.names - {temp.name}
    ensures OneFault(w) && |w.turns| > 1 ==> !TurnOf(w).fails && Next(w).disk == w.disk && OneFault(Next(w))
    ensures OneFault(w) ==> |w.turns| >= 1
  {
    FaultNext(w);
  }

  /** The fault comes after the temporary file is prepared. */
  lemma FaultAfterPrepare(w: World, bytes: string)
    requires Valid(w) && Unused(w, bytes) && OneFault(w) && |w.turns| > 7
    ensures var p, ino := PreparedWorld(Skip(w, 7), bytes), w.disk.next;
      && Idle(w, 7) && OneFault(p) && |p.turns| == |w.turns| - 7
      && Holds(p, Temp(TempName(""), ino), ReadOf(ino, bytes, Node(p.disk, ino)))
      && p.disk.names - {TempName("")} == w.disk.names && (DOCUMENT in p.disk.names <==> DOCUMENT in w.disk.names)
      && p.disk == PreparedWorld(w, bytes).disk
  {
    FaultLater(w, 7);
    var v := Skip(w, 7);
    FaultOwn(v, Make(TempName(""), Regular, "", MODE_600));
    FaultOwn(Own(v, Make(TempName(""), Regular, "", MODE_600)), Write(v.disk.next, bytes));
    SkippedIsValid(w, 7);
    PreparedHolds(v, bytes);
    PreparedDisk(w, bytes);
    assert w.disk.names[TempName("") := w.disk.next] - {TempName("")} == w.disk.names;
    hide Own, Holds, OneFault;
  }

  lemma SameDisk(a: World, b: World, pre: Preimage)
    requires a.disk == b.disk && AsExpected(a, pre)
    ensures AsExpected(b, pre)
  {
  }

  /** The fault comes after the temporary file of a replacement is prepared: in its recheck, or later. */
  lemma FaultReplace(w: World, bytes: string, pre: Preimage)
    requires Valid(w) && Unused(w, bytes) && AsExpected(w, pre) && OneFault(w) && |w.turns| > 7
    ensures var p, temp := PreparedWorld(Skip(w, 7), bytes), Temp(TempName(""), w.disk.next);
      && Idle(w, 7) && AsExpected(p, pre) && OneFault(p) && |p.turns| == |w.turns| - 7
      && (forall v: World :: v.disk == p.disk ==> Begun(w, v, Some(temp)))
      && (|p.turns| > 4 ==>
            var q := Skip(p, 4);
            && Idle(p, 4) && OneFault(q) && |q.turns| == |w.turns| - 11
            && Holds(q, temp, ReadOf(temp.ino, bytes, Node(p.disk, temp.ino)))
            && q.disk.names - {temp.name} == w.disk.names)
  {
    var p, temp := PreparedWorld(Skip(w, 7), bytes), Temp(TempName(""), w.disk.next);
    FaultAfterPrepare(w, bytes);
    StillExpected(w, bytes, pre);
    PreparedDisk(w, bytes);
    SameDisk(PreparedWorld(w, bytes), p, pre);
    hide PreparedWorld, AsExpected, Unused, Valid;
    if |p.turns| > 4 {
      FaultLater(p, 4);
    }
  }

  // ---- the two operations, at rest up to one turn ----------------------------------------------

  /** The world after `create` has linked the document and cleaned up, before it sets the mode. */
  function CreatedWorld(w: World, temp: Temp): World {
    Own(Own(w, HardLink(temp.name, DOCUMENT)), Unlink(temp.name))
  }

  lemma IdleCreate(w: World, temp: Temp, intended: DocumentRead)
    requires Valid(w) && Holds(w, temp, intended) && DOCUMENT !in w.disk.names
    ensures Skip(w, 1).disk == w.disk && Valid(Skip(w, 1))
    ensures var l := Own(Skip(w, 1), HardLink(temp.name, DOCUMENT)); Idle(w, 8) ==>
      && Idle(w, 1) && Idle(l, 4) && Readable(l, temp.ino) && Node(l.disk, temp.ino).bytes == intended.bytes
      && Skip(l, 4).disk == l.disk && temp.name in l.disk.names && l.disk.names[temp.name] == temp.ino
      && Idle(Skip(l, 4), 3) && Own(Skip(Skip(l, 4), 3), Unlink(temp.name)) == CreatedWorld(Skip(w, 8), temp)
  {
    IdleSplit(w, 1, 7);
    IdleSplit(Skip(w, 1), 4, 3);
    IdleSplit(w, 5, 3);
    var e := HardLink(temp.name, DOCUMENT);
    SkipOwn(Skip(w, 1), e, 4);
    SkipOwn(Skip(w, 1), e, 7);
    SkipOwn(Skip(w, 5), e, 3);
    assert Skip(Skip(w, 1), 4) == Skip(w, 5) by { IdleSplit(w, 1, 4); }
    SkippedIsValid(w, 1);
    LinkedDisk(Skip(w, 1), temp.name, temp.ino);
  }

  lemma SkippedIsValid(w: World, n: nat)
    requires Valid(w)
    ensures Valid(Skip(w, n)) && Skip(w, n).disk == w.disk
  {
  }

  /** What the rename window leaves intact, for an undisturbed rest of `replace`. */
  ghost predicate Undamaged(v: World, temp: Temp, intended: DocumentRead, pre: Preimage) {
    && Holds(v, temp, intended) && pre.ino != temp.ino && Exists(v, pre.ino)
    && !LeadsTo(v, temp.ino)
    && Node(v.disk, pre.ino).kind == Regular && Node(v.disk, pre.ino).bytes == pre.content
    && |pre.content| <= MAX_DOCUMENT_BYTES
  }

  lemma UndamagedRename(v: World, temp: Temp, intended: DocumentRead, pre: Preimage)
    requires Valid(v) && Undamaged(v, temp, intended, pre)
    ensures var r := Own(v, Rename(temp.name, DOCUMENT));
      && r.turns == v.turns && Readable(r, temp.ino) && Node(r.disk, temp.ino).bytes == intended.bytes
      && Node(r.disk, pre.ino).kind == Regular && Node(r.disk, pre.ino).bytes == pre.content
  {
  }

  // ---- what a rename displaces -----------------------------------------------------------------

  /** The file that loses the document's name between two disks. */
  function Displaced(before: Disk, after: Disk): Option<nat> {
    if DOCUMENT in before.names && !(DOCUMENT in after.names && after.names[DOCUMENT] == before.names[DOCUMENT])
    then Some(before.names[DOCUMENT])
    else None
  }

  /** A rename of the temporary name displaces a file exactly when the document's name led to it just
      before, unless the temporary name had been made a name of that very file. */
  lemma RenameDisplaces(w: World, temp: Temp, ino: nat)
    requires temp.name != DOCUMENT && temp.name in w.disk.names
    ensures Displaced(w.disk, Own(w, Rename(temp.name, DOCUMENT)).disk) == Some(ino)
      <==> LeadsTo(w, ino) && w.disk.names[temp.name] != ino
  {
  }

  /** Some step between the two worlds took the name away from the file. */
  ghost predicate TakenBetween(a: World, b: World, ino: nat) {
    exists k {:trigger b.trace[k]} ::
      0 < k && |a.trace| <= k < |b.trace| && LedTo(b.trace[k - 1], ino) && !LedTo(b.trace[k], ino)
  }

  lemma TakenAway(a: World, b: World, ino: nat)
    requires Valid(a) && Valid(b) && After(a, b) && LeadsTo(a, ino) && !LeadsTo(b, ino)
    ensures TakenBetween(a, b, ino)
  {
    assert b.trace[|a.trace| - 1] == a.disk;
    var k := LastLeading(b.trace, |a.trace| - 1, |b.trace| - 1, ino);
    assert b.trace[k + 1 - 1] == b.trace[k];
  }

  lemma {:induction false} LastLeading(trace: seq<Disk>, i: nat, j: nat, ino: nat) returns (k: nat)
    requires i < j < |trace| && LedTo(trace[i], ino) && !LedTo(trace[j], ino)
    ensures i <= k < j && LedTo(trace[k], ino) && !LedTo(trace[k + 1], ino)
    decreases j - i
  {
    k := i;
    if LedTo(trace[i + 1], ino) {
      k := LastLeading(trace, i + 1, j, ino);
    }
  }

  /** What the recheck does and does not protect, in every run of `replace` that succeeds. The rename
      displaces the file that was rechecked exactly when, just before it, the document's name still led
      there and the temporary name had not been made another name of it. */
  lemma DisplacesRechecked(start: World, now: World, temp: Temp, pre: Preimage, edited: bool, t: Moments)
    requires Rechecked(start, now, temp, pre, edited, t)
    ensures Displaced(t.renamed.disk, Own(t.renamed, Rename(temp.name, DOCUMENT)).disk) == Some(pre.ino)
      <==> LeadsTo(t.renamed, pre.ino) && t.renamed.disk.names[temp.name] != pre.ino
    ensures !LeadsTo(t.renamed, pre.ino) ==> TakenBetween(t.found, t.renamed, pre.ino)
  {
    hide Own, Valid, Node, TakenBetween, LedTo;
    RenameDisplaces(t.renamed, temp, pre.ino);
    QuietTransitive(t.found, t.rechecked, t.renamed);
    QuietValid(t.found, t.renamed);
    if !LeadsTo(t.renamed, pre.ino) {
      TakenAway(t.found, t.renamed, pre.ino);
    }
  }

  // ---- particular schedules --------------------------------------------------------------------

  /** The temporary file of a call that draws nothing special. */
  function PlainTemp(w: World): Temp { Temp(TempName(""), w.disk.next) }

  lemma IdlePrepared(w: World, bytes: string, n: nat)
    ensures Skip(PreparedWorld(Skip(w, 7), bytes), n) == PreparedWorld(Skip(w, 7 + n), bytes)
    ensures Idle(w, 7 + n) ==> Idle(w, 7) && Idle(PreparedWorld(Skip(w, 7), bytes), n)
  {
    var m, e := Make(TempName(""), Regular, "", MODE_600), Write(w.disk.next, bytes);
    IdleSplit(w, 7, n);
    SkipOwn(Skip(w, 7), m, n);
    SkipOwn(Own(Skip(w, 7), m), e, n);
  }

  /** After the destination was bound, and before its mode is set, somebody writes to the new file. */
  ghost predicate EditedLate(w: World, bytes: string, edited: string) {
    && Unused(w, bytes) && DOCUMENT !in w.disk.names && |edited| <= MAX_DOCUMENT_BYTES
    && |w.turns| == 16 && Idle(w, 15) && w.turns[15] == Turn([Write(w.disk.next, edited)], false, "")
  }

  /** Before its mode is set, the environment has the last word on the file, and leaves these bytes. */
  ghost predicate EndsWith(c: World, ino: nat, bytes: string) {
    LastTurn(c) && Readable(Next(c), ino) && Node(Next(c).disk, ino).bytes == bytes
  }

  /** Between the recheck and the rename, somebody renames another file onto the document's name. */
  ghost predicate SwappedInWindow(w: World, bytes: string, other: string, pre: Preimage) {
    && Unused(w, bytes) && AsExpected(w, pre)
    && |w.turns| == 12 && Idle(w, 11) && w.turns[11] == Turn([Rename(other, DOCUMENT)], false, "")
    && other in w.disk.names && other != DOCUMENT && w.disk.names[other] != pre.ino
  }

  function RestThen(n: nat, turn: Turn): seq<Turn> { seq(n, _ => REST) + [turn] }

  /** Every starting point admits both schedules. */
  lemma SchedulesExist(w: World, bytes: string, edited: string, other: string, pre: Preimage)
    requires Valid(w) && Unused(w, bytes)
    ensures DOCUMENT !in w.disk.names && |edited| <= MAX_DOCUMENT_BYTES ==>
      var v := w.(turns := RestThen(15, Turn([Write(w.disk.next, edited)], false, "")));
      Valid(v) && EditedLate(v, bytes, edited)
    ensures AsExpected(w, pre) && other in w.disk.names && other != DOCUMENT && w.disk.names[other] != pre.ino ==>
      var v := w.(turns := RestThen(11, Turn([Rename(other, DOCUMENT)], false, "")));
      Valid(v) && SwappedInWindow(v, bytes, other, pre)
  {
  }

  lemma PlayOne(w: World, e: Event, draw: string)
    requires w.turns == [Turn([e], false, draw)]
    ensures LastTurn(w) && Next(w) == Act(w.(turns := []), e)
  {
    assert w.turns[1..] == [] && w.turns[0].events == [e];
    assert [e][..0] == [];
    assert Played(w.(turns := []), [e]) == Act(Played(w.(turns := []), []), e);
  }

  /** Where `create` stands before it sets the mode. */
  lemma CreatedDisk(w: World, bytes: string)
    requires Valid(w) && Unused(w, bytes) && DOCUMENT !in w.disk.names
    ensures var c := CreatedWorld(PreparedWorld(w, bytes), PlainTemp(w));
      c.turns == w.turns && Readable(c, w.disk.next) && Node(c.disk, w.disk.next).bytes == bytes
  {
    hide Own;
    var p, temp := PreparedWorld(w, bytes), PlainTemp(w);
    PreparedHolds(w, bytes);
    PreparedIsValid(w, bytes);
    LinkedDisk(p, temp.name, temp.ino);
    OwnAfter(p, HardLink(temp.name, DOCUMENT));
    UnlinkedDisk(Own(p, HardLink(temp.name, DOCUMENT)), temp.name, temp.ino);
  }

  lemma PreparedIsValid(w: World, bytes: string)
    requires Valid(w)
    ensures Valid(PreparedWorld(w, bytes)) && PreparedWorld(w, bytes).turns == w.turns
  {
    OwnAfter(w, Make(TempName(""), Regular, "", MODE_600));
    OwnAfter(Own(w, Make(TempName(""), Regular, "", MODE_600)), Write(w.disk.next, bytes));
  }

  /** So an undisturbed create ends with the intended bytes. */
  lemma CreateAtRest(w: World, bytes: string)
    requires Valid(w) && Unused(w, bytes) && DOCUMENT !in w.disk.names && w.turns == []
    ensures var c := CreatedWorld(PreparedWorld(Skip(w, 15), bytes), PlainTemp(w));
      Idle(w, 15) && EndsWith(c, w.disk.next, bytes)
  {
    hide Own, CreatedWorld, PreparedWorld;
    EmptyIsIdle(w, 15);
    CreatedDisk(w, bytes);
    EmptyIsIdle(CreatedWorld(PreparedWorld(w, bytes), PlainTemp(w)), 0);
  }

  /** And one edited late ends with the edit. */
  lemma CreateEdited(w: World, bytes: string, edited: string)
    requires Valid(w) && EditedLate(w, bytes, edited)
    ensures var c := CreatedWorld(PreparedWorld(Skip(w, 15), bytes), PlainTemp(w));
      EndsWith(c, w.disk.next, edited)
  {
    hide Own, CreatedWorld, PreparedWorld;
    SkippedIsValid(w, 15);
    CreatedDisk(Skip(w, 15), bytes);
    var c := CreatedWorld(PreparedWorld(Skip(w, 15), bytes), PlainTemp(w));
    assert Skip(w, 15).turns == [w.turns[15]];
    PlayOne(c, Write(w.disk.next, edited), "");
  }

  /** An undisturbed replace reaches its rename with everything in place. */
  lemma ReplaceAtRest(w: World, bytes: string, pre: Preimage)
    requires Valid(w) && Unused(w, bytes) && AsExpected(w, pre) && w.turns == []
    ensures var p := PreparedWorld(Skip(w, 11), bytes);
      && Idle(w, 11) && LastTurn(p)
      && Undamaged(Next(p), PlainTemp(w), ReadOf(w.disk.next, bytes, Node(p.disk, w.disk.next)), pre)
  {
    hide Own, PreparedWorld;
    EmptyIsIdle(w, 11);
    PreparedHolds(w, bytes);
    NamesExist(w, DOCUMENT);
    EmptyIsIdle(PreparedWorld(w, bytes), 0);
    PreparedKeeps(w, bytes, pre.ino);
  }

  lemma PreparedKeeps(w: World, bytes: string, ino: nat)
    requires Valid(w) && Exists(w, ino)
    ensures Exists(PreparedWorld(w, bytes), ino)
  {
  }

  /** With another file swapped in inside the window, everything replace checks is still in place. */
  lemma ReplaceSwapped(w: World, bytes: string, pre: Preimage, other: string)
    requires Valid(w) && SwappedInWindow(w, bytes, other, pre)
    ensures var p := PreparedWorld(Skip(w, 11), bytes);
      && LastTurn(p) && LeadsTo(Next(p), w.disk.names[other])
      && Undamaged(Next(p), PlainTemp(w), ReadOf(w.disk.next, bytes, Node(p.disk, w.disk.next)), pre)
      && w.disk.names[other] != Next(p).disk.names[TempName("")]
  {
    var v := Skip(w, 11);
    var p := PreparedWorld(v, bytes);
    hide Own, PreparedWorld;
    SkippedIsValid(w, 11);
    PreparedHolds(v, bytes);
    PreparedIsValid(v, bytes);
    NamesExist(w, DOCUMENT);
    NamesExist(w, other);
    assert v.turns == [w.turns[11]];
    PlayOne(p, Rename(other, DOCUMENT), "");
    SwapKeeps(p, other, PlainTemp(w), pre);
  }

  lemma SwapKeeps(p: World, other: string, temp: Temp, pre: Preimage)
    requires other in p.disk.names && other != DOCUMENT && other != temp.name && temp.name != DOCUMENT
    requires LeadsTo(p, pre.ino) && p.disk.names[other] != pre.ino
    requires temp.name in p.disk.names && p.disk.names[temp.name] == temp.ino
    requires p.disk.names[other] != temp.ino && pre.ino != temp.ino && Exists(p, temp.ino)
    ensures var v := Act(p.(turns := []), Rename(other, DOCUMENT));
      && LeadsTo(v, p.disk.names[other])
      && temp.name in v.disk.names && v.disk.names[temp.name] == temp.ino
      && Node(v.disk, temp.ino) == Node(p.disk, temp.ino)
      && Exists(v, pre.ino)
      && Node(v.disk, pre.ino).kind == Node(p.disk, pre.ino).kind
      && Node(v.disk, pre.ino).bytes == Node(p.disk, pre.ino).bytes
  {
  }

  lemma ConcludeAtRest(w: World, ino: nat, mode: nat)
    requires Valid(w) && Exists(w, ino)
    ensures LastTurn(w) && Readable(Next(w), ino) ==>
      var v := Own(Next(w), Chmod(ino, mode));
      v.turns == [] && Readable(v, ino) && Node(v.disk, ino).bytes == Node(Next(w).disk, ino).bytes
  {
    hide Own, Next, TurnOf;
    if Exists(Next(w), ino) {
      ChangedMode(Next(w), ino, mode);
    }
  }

  /** Where `create` stands before it sets the mode, at rest so far. */
  lemma CreateSoFar(w: World, bytes: string)
    requires Valid(w) && Unused(w, bytes) && DOCUMENT !in w.disk.names && Idle(w, 15)
    ensures var p := PreparedWorld(Skip(w, 7), bytes);
      && Idle(w, 7) && Idle(p, 8) && DOCUMENT !in p.disk.names
      && Holds(p, PlainTemp(w), ReadOf(w.disk.next, bytes, Node(p.disk, w.disk.next)))
  {
    hide Own, PreparedWorld, Skip, Idle;
    IdlePrepared(w, bytes, 8);
    SkippedIsValid(w, 7);
    PreparedHolds(Skip(w, 7), bytes);
  }

  /** The two schedules of `create`. */
  lemma CreateOutcomes(w: World, bytes: string)
    requires Valid(w)
    ensures var c := CreatedWorld(Skip(PreparedWorld(Skip(w, 7), bytes), 8), PlainTemp(w));
      && (w.turns == [] && Unused(w, bytes) && DOCUMENT !in w.disk.names ==>
            Idle(w, 15) && EndsWith(c, w.disk.next, bytes))
      && forall edited: string :: EditedLate(w, bytes, edited) ==>
        Idle(w, 15) && Unused(w, bytes) && DOCUMENT !in w.disk.names && EndsWith(c, w.disk.next, edited)
  {
    hide Own, PreparedWorld, CreatedWorld, Next, TurnOf, Skip, Idle, EndsWith;
    IdlePrepared(w, bytes, 8);
    if w.turns == [] && Unused(w, bytes) && DOCUMENT !in w.disk.names {
      CreateAtRest(w, bytes);
    }
    forall edited: string | EditedLate(w, bytes, edited)
      ensures EndsWith(CreatedWorld(PreparedWorld(Skip(w, 15), bytes), PlainTemp(w)), w.disk.next, edited)
    {
      CreateEdited(w, bytes, edited);
    }
  }

  /** Where `replace` stands before its recheck, at rest so far. */
  lemma ReplaceSoFar(w: World, bytes: string, pre: Preimage)
    requires Valid(w) && Unused(w, bytes) && AsExpected(w, pre) && Idle(w, 11)
    ensures var p := PreparedWorld(Skip(w, 7), bytes); Idle(w, 7) && Idle(p, 4) && AsExpected(p, pre)
  {
    hide Own, PreparedWorld, Skip, Idle, AsExpected;
    IdlePrepared(w, bytes, 4);
    SkippedIsValid(w, 7);
    SameDisk(w, Skip(w, 7), pre);
    StillExpected(Skip(w, 7), bytes, pre);
  }

  /** The next turn leaves everything in place that the rest of `replace` looks at. */
  ghost predicate Passes(w: World, q: World, bytes: string, pre: Preimage) {
    LastTurn(q) && Undamaged(Next(q), PlainTemp(w), ReadOf(w.disk.next, bytes, Node(q.disk, w.disk.next)), pre)
  }

  /** What a rename right after the next turn displaces. */
  function NextDisplaced(q: World): Option<nat> {
    Displaced(Next(q).disk, Own(Next(q), Rename(TempName(""), DOCUMENT)).disk)
  }

  /** The two schedules of `replace`. */
  lemma ReplaceOutcomes(w: World, bytes: string, pre: Preimage)
    requires Valid(w)
    ensures var q := Skip(PreparedWorld(Skip(w, 7), bytes), 4);
      && q.disk == PreparedWorld(Skip(w, 7), bytes).disk
      && (w.turns == [] && Unused(w, bytes) && AsExpected(w, pre) ==> Idle(w, 11) && Passes(w, q, bytes, pre))
      && forall other: string :: SwappedInWindow(w, bytes, other, pre) ==>
        Idle(w, 11) && Passes(w, q, bytes, pre) && NextDisplaced(q) == Some(w.disk.names[other])
  {
    hide Own, PreparedWorld, Next, TurnOf, Skip, Idle, AsExpected, Displaced;
    IdlePrepared(w, bytes, 4);
    SkippedIsValid(w, 7);
    SkippedIsValid(PreparedWorld(Skip(w, 7), bytes), 4) by { PreparedIsValid(Skip(w, 7), bytes); }
    if w.turns == [] && Unused(w, bytes) && AsExpected(w, pre) {
      ReplaceAtRest(w, bytes, pre);
    }
    forall other: string | SwappedInWindow(w, bytes, other, pre)
      ensures var q := PreparedWorld(Skip(w, 11), bytes);
        Passes(w, q, bytes, pre) && NextDisplaced(q) == Some(w.disk.names[other])
    {
      ReplaceSwapped(w, bytes, pre, other);
      RenameDisplaces(Next(PreparedWorld(Skip(w, 11), bytes)), PlainTemp(w), w.disk.names[other]);
    }
  }
}
