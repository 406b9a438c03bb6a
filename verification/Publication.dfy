/** `DocumentStore::create` and `replace` against an environment that acts before every system call. */
module Publication {
  import opened Basics
  import opened FileSystem
  import opened PublicationReport
  import opened PublicationMoments
  import opened ManagedBlock

  class Store {
    var world: World

    constructor (w: World)
      requires Valid(w)
      ensures world == w
    {
      world := w;
    }

    /** The environment moves, and says whether the system call now made fails. */
    method Pass() returns (turn: Turn)
      requires Valid(world)
      modifies this
      ensures Quiet(old(world), world)
      ensures world == Next(old(world)) && turn == TurnOf(old(world))
      ensures Called(old(world), world, 1) && |old(world).turns| <= |world.turns| + 1
    {
      NextCalled(world);
      hide Happen, Wf, Recorded;
      turn := REST;
      if world.turns != [] {
        turn := world.turns[0];
        world := world.(turns := world.turns[1..]);
        ghost var start := world;
        hide After, Valid, Quiet, Act, Played;
        PlayedNothing(world);
        assert turn.events[..0] == [];
        for i := 0 to |turn.events|
          invariant Quiet(old(world), world) && world == Played(start, turn.events[..i])
          invariant world.turns == start.turns
        {
          ActQuiet(old(world), world, turn.events[i]);
          PlayedMore(start, turn.events, i);
          world := Act(world, turn.events[i]);
        }
        assert turn.events[..|turn.events|] == turn.events;
      }
    }

    /** `open_document`: the file the document's name stands for. */
    method OpenDocument() returns (r: Result<Option<nat>, StoreError>)
      requires Valid(world)
      modifies this
      ensures Quiet(old(world), world)
      ensures r.Ok? && r.value.Some? ==> LeadsTo(world, r.value.value) && Exists(world, r.value.value)
      ensures world == Next(old(world)) && Called(old(world), world, 1) && world.log == old(world).log
      ensures r == if TurnOf(old(world)).fails then Err(Io)
        else if DOCUMENT !in world.disk.names then Ok(None)
        else if Node(world.disk, world.disk.names[DOCUMENT]).kind == SymbolicLink then Err(InvalidFile)
        else Ok(Some(world.disk.names[DOCUMENT]))
      ensures Idle(old(world), 1) ==> world == Skip(old(world), 1) && !TurnOf(old(world)).fails
    {
      hide Next, Skip, Idle, Called;
      IdleNext(world);
      var turn := Pass();
      if turn.fails {
        r := Err(Io);
      } else if DOCUMENT !in world.disk.names {
        r := Ok(None);
      } else {
        NamesExist(world, DOCUMENT);
        var ino := world.disk.names[DOCUMENT];
        r := if Node(world.disk, ino).kind == SymbolicLink then Err(InvalidFile) else Ok(Some(ino));
      }
    }

    /** `read_regular_bounded`: look, read, look again. */
    method ReadRegular(ino: nat) returns (r: Result<DocumentRead, StoreError>)
      requires Valid(world) && Exists(world, ino)
      modifies this
      ensures Quiet(old(world), world)
      ensures r.Ok? ==>
        && r.value.pre.ino == ino && r.value.pre.content == r.value.bytes
        && Exists(world, ino) && Node(world.disk, ino) == StateOf(r.value)
      ensures world.log == old(world).log && (r.Ok? ==> Called(old(world), world, 3))
      ensures old(world).turns == [] ==>
        world == old(world) && (r.Ok? <==> IsReadable(old(world).disk, ino)) && (r.Err? ==> r.error == InvalidFile)
      ensures Idle(old(world), 3) && Node(old(world).disk, ino).kind == Regular
              && |Node(old(world).disk, ino).bytes| <= MAX_DOCUMENT_BYTES ==>
        && world == Skip(old(world), 3)
        && r == Ok(ReadOf(ino, Node(old(world).disk, ino).bytes, Node(old(world).disk, ino)))
      ensures r == Err(PreimageChanged) ==> |Node(Next(Next(old(world))).disk, ino).bytes| <= MAX_DOCUMENT_BYTES
      ensures OneFault(old(world)) && |old(world).turns| <= 3 && IsReadable(old(world).disk, ino) ==>
        r == Err(Io) && world.turns == [] && world.disk == old(world).disk
    {
      hide Valid, After, Node, Next, Skip, Idle, Called, TurnOf, OneFault;
      IdleRead(world);
      FaultNext(world);
      EmptyIsIdle(world, 3);
      var turn := Pass();
      ghost var w1 := world;
      FaultNext(w1);
      QuietKeeps(old(world), w1, ino);
      var before := Node(world.disk, ino);
      if turn.fails {
        r := Err(Io);
      } else if before.kind != Regular || |before.bytes| > MAX_DOCUMENT_BYTES {
        r := Err(InvalidFile);
      } else {
        turn := Pass();
        ghost var w2 := world;
        FaultNext(w2);
        QuietKeeps(w1, w2, ino);
        QuietTransitive(old(world), w1, w2);
        CalledOn(old(world), w1, w2, 1, 1);
        var bytes := Node(world.disk, ino).bytes;
        if turn.fails {
          r := Err(Io);
        } else if |bytes| > MAX_DOCUMENT_BYTES {
          r := Err(InvalidFile);
        } else if |bytes| != |before.bytes| {
          r := Err(PreimageChanged);
        } else {
          turn := Pass();
          ghost var w3 := world;
          QuietKeeps(w2, w3, ino);
          QuietTransitive(old(world), w2, w3);
          CalledOn(old(world), w2, w3, 2, 1);
          var after := Node(world.disk, ino);
          if turn.fails {
            r := Err(Io);
          } else if |before.bytes| != |after.bytes| || before.cookie != after.cookie {
            r := Err(PreimageChanged);
          } else {
            StableRead(w1, w2, w3, ino);
            r := Ok(ReadOf(ino, bytes, before));
          }
        }
      }
    }

    /** A change of ours. The document's name is only ever pointed at another file. */
    method Change(e: Event)
      requires Valid(world) && (Names(e) ==> Relinks(e))
      modifies this
      ensures world == Own(old(world), e) && world.log == old(world).log + [e] && Called(old(world), world, 0)
      ensures Steps(old(world), world, if Relinks(e) then 1 else 0)
    {
      OwnAfter(world, e);
      LogPush(world.log, e);
      hide Act, After, Valid;
      world := Own(world, e);
    }

    /** One attempt of `create_temp`; `None` when the name drawn is taken. */
    method TryTemp() returns (r: Option<Result<Temp, StoreError>>)
      requires Valid(world)
      modifies this
      ensures Steps(old(world), world, 0) && |old(world).turns| <= |world.turns| + 2
      ensures r.Some? && r.value.Ok? ==>
        IsTemp(old(world), world, r.value.value) && world.log == old(world).log + [MakeTemp(r.value.value.name)]
      ensures r.None? ==> world.log == old(world).log && world == Next(old(world))
      ensures r.None? <==> Collides(old(world))
      ensures r.Some? ==> (r.value.Err? <==> TempFails(old(world))) && (r.value.Err? ==> r.value.error == Io)
      ensures Idle(old(world), 2) && TempName("") !in old(world).disk.names ==>
        && r == Some(Ok(Temp(TempName(""), old(world).disk.next)))
        && world == Own(Skip(old(world), 2), Make(TempName(""), Regular, "", MODE_600))
      ensures OneFault(old(world)) && |old(world).turns| <= 2 && TempName("") !in old(world).disk.names ==>
        && r == Some(Err(Io)) && world.turns == []
        && (world.disk.names == old(world).disk.names <==> |old(world).turns| == 1)
    {
      hide Valid, After, Next, Skip, Idle, OneFault, Own, IsTemp, Steps, Exists, TempName;
      IdlePair(world, Make(TempName(""), Regular, "", MODE_600));
      FaultNext(world);
      var turn := Pass();
      ghost var w1 := world;
      QuietValid(old(world), w1);
      var name := TempName(turn.draw);
      if turn.fails {
        r := Some(Err(Io));
      } else if name in world.disk.names {
        r := None;
      } else {
        var ino := world.disk.next;
        TempIsNotDocument(turn.draw);
        Change(Make(name, Regular, "", MODE_600));
        ghost var w2 := world;
        FaultOwn(w1, Make(name, Regular, "", MODE_600));
        FaultNext(w2);
        MadeNames(w1, name);
        StepsValid(w1, w2, 0);
        turn := Pass();
        TempMade(old(world), w1, w2, world, name);
        r := Some(if turn.fails then Err(Io) else Ok(Temp(name, ino)));
      }
    }

    /** `create_temp`: at most sixteen attempts, of at most two system calls each. */
    method CreateTemp() returns (r: Result<Temp, StoreError>)
      requires Valid(world)
      modifies this
      ensures Steps(old(world), world, 0) && |old(world).turns| <= |world.turns| + 2 * 16
      ensures r.Ok? ==> IsTemp(old(world), world, r.value) && world.log == old(world).log + [MakeTemp(r.value.name)]
      ensures r.Err? <==> NoTemp(old(world))
      ensures r.Err? ==> r.error == Io
      ensures Idle(old(world), 2) && TempName("") !in old(world).disk.names ==>
        && r == Ok(Temp(TempName(""), old(world).disk.next))
        && world == Own(Skip(old(world), 2), Make(TempName(""), Regular, "", MODE_600))
      ensures OneFault(old(world)) && |old(world).turns| <= 2 && TempName("") !in old(world).disk.names ==>
        && r == Err(Io) && world.turns == []
        && (world.disk.names == old(world).disk.names <==> |old(world).turns| == 1)
    {
      hide Valid, After, Exists, Skip, Idle, Next, OneFault, Collides, TempFails;
      var attempt: Option<Result<Temp, StoreError>> := None;
      var tries := 0;
      StepsReflexive(world);
      while attempt.None? && tries < 16
        invariant tries <= 16 && Valid(world) && Steps(old(world), world, 0)
        invariant |old(world).turns| <= |world.turns| + 2 * tries
        invariant attempt.Some? && attempt.value.Ok? ==>
          IsTemp(old(world), world, attempt.value.value)
          && world.log == old(world).log + [MakeTemp(attempt.value.value.name)]
        invariant attempt.None? ==> world.log == old(world).log
        invariant tries == 0 ==> world == old(world) && attempt.None?
        invariant attempt.None? ==> world == Drawn(old(world), tries)
        invariant forall i: nat {:trigger Drawn(old(world), i)} ::
          i < (if attempt.None? then tries else tries - 1) ==> Collides(Drawn(old(world), i))
        invariant attempt.Some? ==>
          && tries > 0 && !Collides(Drawn(old(world), tries - 1))
          && (attempt.value.Err? <==> TempFails(Drawn(old(world), tries - 1)))
          && (attempt.value.Err? ==> attempt.value.error == Io)
        invariant OneFault(old(world)) && |old(world).turns| <= 2 && TempName("") !in old(world).disk.names
                  && tries > 0 ==>
          && attempt == Some(Err(Io)) && world.turns == []
          && (world.disk.names == old(world).disk.names <==> |old(world).turns| == 1)
        invariant Idle(old(world), 2) && TempName("") !in old(world).disk.names && tries > 0 ==>
          && attempt == Some(Ok(Temp(TempName(""), old(world).disk.next)))
          && world == Own(Skip(old(world), 2), Make(TempName(""), Regular, "", MODE_600))
        decreases 16 - tries
      {
        ghost var before := world;
        attempt := TryTemp();
        StepsValid(before, world, 0);
        StepsTransitive(old(world), before, world, 0, 0);
        if attempt.Some? && attempt.value.Ok? {
          EarlierTemp(old(world), before, world, attempt.value.value);
        }
        tries := tries + 1;
      }
      r := if attempt.Some? then attempt.value else Err(Io);
      FirstFree(old(world), if attempt.None? then tries else tries - 1);
    }

    /** A system call that changes nothing we model, such as `fsync`. */
    method Call() returns (ok: bool)
      requires Valid(world)
      modifies this
      ensures Quiet(old(world), world)
      ensures world == Next(old(world)) && ok == !TurnOf(old(world)).fails
      ensures Called(old(world), world, 1) && ok == !CallFails(old(world), 0) && world.log == old(world).log
    {
      NextCalled(world);
      var turn := Pass();
      ok := !turn.fails;
    }

    /** Writes, syncs and reads back the temporary file. */
    method Fill(temp: Temp, bytes: string) returns (r: Result<DocumentRead, StoreError>)
      requires Valid(world) && Exists(world, temp.ino)
      modifies this
      ensures Steps(old(world), world, 0) && Exists(world, temp.ino)
      ensures r.Ok? ==> r.value == ReadOf(temp.ino, bytes, Node(world.disk, temp.ino))
      ensures r.Ok? ==>
        && Called(old(world), world, 5) && !CallFails(old(world), 1)
        && |world.log| == |old(world).log| + 1 && old(world).log <= world.log
        && Writes(world.log[|old(world).log|], temp.ino, bytes)
      ensures Idle(old(world), 5) && Node(old(world).disk, temp.ino).kind == Regular
              && Node(old(world).disk, temp.ino).bytes == [] && |bytes| <= MAX_DOCUMENT_BYTES ==>
        r.Ok? && world == Own(Skip(old(world), 5), Write(temp.ino, bytes))
      ensures OneFault(old(world)) && |old(world).turns| <= 5 && Node(old(world).disk, temp.ino).kind == Regular
              && Node(old(world).disk, temp.ino).bytes == [] && |bytes| <= MAX_DOCUMENT_BYTES ==>
        && r == Err(Io) && world.turns == [] && world.disk.names == old(world).disk.names
        && Node(world.disk, temp.ino).kind == Regular
    {
      hide Valid, After, Node, Quiet, Steps, Own, Next, Skip, Idle, TurnOf, Called, CallFails, OneFault;
      FreshOverwrite(bytes);
      FaultNext(world);
      IdleFill(world, temp.ino, bytes);
      var ok := Call();
      ghost var w1 := world;
      QuietKeeps(old(world), w1, temp.ino);
      QuietValid(old(world), w1);
      if !ok {
        r := Err(Io);
      } else {
        Change(Write(temp.ino, Overwritten(Node(world.disk, temp.ino).bytes, bytes)));
        ghost var w2 := world;
        FaultOwn(w1, Write(temp.ino, bytes));
        FaultNext(w2);
        WroteBytes(w1, temp.ino, bytes);
        StepsTransitive(old(world), w1, w2, 0, 0);
        StepsKeep(w1, w2, 0, temp.ino);
        CalledOn(old(world), w1, w2, 1, 0);
        FailsOn(old(world), w2, 1, 0);
        ok := Call();
        ghost var w3 := world;
        CalledOn(old(world), w2, w3, 1, 1);
        QuietSteps(old(world), w2, w3, 0);
        QuietKeeps(w2, w3, temp.ino);
        if !ok {
          r := Err(Io);
        } else {
          r := ReadRegular(temp.ino);
          QuietSteps(old(world), w3, world, 0);
          QuietKeeps(w3, world, temp.ino);
          if r.Ok? {
            CalledOn(old(world), w3, world, 2, 3);
          }
          if r.Ok? && r.value.bytes != bytes {
            r := Err(PreimageChanged);
          }
        }
      }
    }

    /** `TempEntry::unlink_if_same`. The temporary name may still be reused between the check and the
        removal, but the document's name is not touched. `seen` is the world when the name was checked. */
    method UnlinkIfSame(temp: Temp) returns (ok: bool, ghost seen: World)
      requires Valid(world) && temp.name != DOCUMENT
      modifies this
      ensures Steps(old(world), world, 0)
      // It removes the name only where that stood for the temporary file, and says whether it did.
      ensures world.log == old(world).log + if ok then [Unlink(temp.name)] else []
      ensures ok ==>
        && Quiet(old(world), seen) && After(seen, world)
        && temp.name in seen.disk.names && seen.disk.names[temp.name] == temp.ino
      ensures Idle(old(world), 3) && temp.name in old(world).disk.names
              && old(world).disk.names[temp.name] == temp.ino && Node(old(world).disk, temp.ino).kind == Regular ==>
        ok && world == Own(Skip(old(world), 3), Unlink(temp.name))
    {
      hide Valid, After, Quiet, Steps, Own, Node, Next, Skip, Idle, TurnOf;
      IdleRead(world);
      ok := Call();
      ghost var w1 := world;
      seen := w1;
      QuietValid(old(world), w1);
      if !ok || temp.name !in world.disk.names || Node(world.disk, world.disk.names[temp.name]).kind == SymbolicLink {
        ok := false;
      } else {
        var ino := world.disk.names[temp.name];
        ok := Call();
        ghost var w2 := world;
        QuietValid(w1, w2);
        QuietSteps(old(world), w1, w2, 0);
        if ok && ino == temp.ino {
          ok := Call();
          ghost var w3 := world;
          QuietValid(w2, w3);
          QuietSteps(old(world), w2, w3, 0);
          if ok && temp.name in world.disk.names {
            Change(Unlink(temp.name));
            StepsTransitive(old(world), w3, world, 0, 0);
            StepsValid(w3, world, 0);
            AfterTransitive(w1, w2, w3);
            AfterTransitive(w1, w3, world);
          } else {
            ok := false;
          }
        } else {
          ok := false;
        }
      }
    }

    /** Everything before publication: an exclusive temporary file that holds the intended bytes. */
    method Prepare(bytes: string)
      returns (temp: Option<Temp>, r: Result<DocumentRead, StoreError>, ghost filling: World)
      requires Valid(world)
      modifies this
      ensures Steps(old(world), world, 0)
      ensures After(old(world), filling) && After(filling, world)
      ensures r.Ok? ==>
        && temp.Some? && Called(filling, world, 5) && !CallFails(filling, 1)
        && old(world).log <= world.log && |world.log| == |old(world).log| + 2
        && Prepared(world.log[|old(world).log|..], temp.value, bytes)
      ensures |bytes| > MAX_DOCUMENT_BYTES ==> r == Err(InvalidFile) && temp == None && world == old(world)
      ensures temp.Some? ==> IsTemp(old(world), world, temp.value)
      ensures r.Ok? ==> temp.Some? && r.value == ReadOf(temp.value.ino, bytes, Node(world.disk, temp.value.ino))
      ensures Idle(old(world), 7) && Unused(old(world), bytes) ==>
        && r.Ok? && temp == Some(Temp(TempName(""), old(world).disk.next))
        && world == PreparedWorld(Skip(old(world), 7), bytes)
      ensures OneFault(old(world)) && |old(world).turns| <= 7 && Unused(old(world), bytes) ==>
        r == Err(Io) && world.turns == [] && Begun(old(world), world, temp)
    {
      hide Valid, After, Node, Steps, Own, Skip, Idle, Called, CallFails, OneFault, NoTemp;
      IdlePrepare(world, bytes);
      FaultPrepare(world, bytes);
      temp := None;
      filling := world;
      AfterReflexive(world);
      if |bytes| > MAX_DOCUMENT_BYTES {
        StepsReflexive(world);
        r := Err(InvalidFile);
      } else {
        var made := CreateTemp();
        ghost var w1 := world;
        StepsValid(old(world), w1, 0);
        filling := w1;
        AfterReflexive(w1);
        if made.Err? {
          r := Err(made.error);
        } else {
          temp := Some(made.value);
          r := Fill(made.value, bytes);
          StepsTransitive(old(world), w1, world, 0, 0);
          StepsValid(w1, world, 0);
        }
      }
    }

    /** Dropping a `TempEntry` that is still armed. `start` is the world when the publication began. */
    method DropTemp(made: Option<Temp>, ghost start: World)
      requires Valid(world) && (made.Some? ==> made.value.name != DOCUMENT)
      modifies this
      ensures Steps(old(world), world, 0) && (made.None? ==> world == old(world))
      ensures made.Some? && old(world).turns == [] && Held(old(world), made.value) ==>
        world.disk.names == old(world).disk.names - {made.value.name}
      ensures OneFault(start) && Valid(start) && TempName("") !in start.disk.names && Begun(start, old(world), made)
              && old(world).turns == [] ==>
        (world.disk.names == start.disk.names <==> |start.turns| != 2)
    {
      hide Valid, Steps, Own, Skip, Idle, OneFault, Begun;
      StepsReflexive(world);
      ghost var begun := OneFault(start) && Valid(start) && TempName("") !in start.disk.names
        && Begun(start, world, made) && world.turns == [];
      if made.Some? {
        if begun {
          BegunRemoved(start, world, made.value);
        }
        if world.turns == [] && Held(world, made.value) {
          DropHeld(world, made.value);
        }
        var _, _ := UnlinkIfSame(made.value);
      } else if begun {
        BegunNothing(start, world);
      }
    }

    /** `linkat` of the temporary name to the document's name. */
    method LinkDocument(temp: Temp) returns (failure: Option<StoreError>)
      requires Valid(world) && temp.name != DOCUMENT
      modifies this
      ensures Steps(old(world), world, if failure.None? then 1 else 0)
      ensures Called(old(world), world, 1)
      ensures var v := Next(old(world));
        && failure == (if TurnOf(old(world)).fails || temp.name !in v.disk.names then Some(Io)
             else if DOCUMENT in v.disk.names then Some(AlreadyExists) else None)
        && world == if failure.None? then Own(v, HardLink(temp.name, DOCUMENT)) else v
      ensures world.log == old(world).log + if failure.None? then [HardLink(temp.name, DOCUMENT)] else []
      ensures Idle(old(world), 1) && temp.name in old(world).disk.names && DOCUMENT !in old(world).disk.names ==>
        failure == None && world == Own(Skip(old(world), 1), HardLink(temp.name, DOCUMENT))
    {
      hide Valid, After, Quiet, Steps, Own, Next, Skip, Idle, TurnOf, Called, CallFails;
      IdleCall(world);
      var ok := Call();
      ghost var w1 := world;
      QuietValid(old(world), w1);
      if !ok || temp.name !in world.disk.names {
        failure := Some(Io);
      } else if DOCUMENT in world.disk.names {
        failure := Some(AlreadyExists);
      } else {
        Change(HardLink(temp.name, DOCUMENT));
        StepsTransitive(old(world), w1, world, 0, 1);
        CalledOn(old(world), w1, world, 1, 0);
        failure := None;
      }
    }

    /** `renameat` of the temporary name over the document's name. */
    method RenameOver(temp: Temp) returns (failure: Option<StoreError>)
      requires Valid(world) && temp.name != DOCUMENT
      modifies this
      ensures Steps(old(world), world, if failure.None? then 1 else 0)
      ensures Quiet(old(world), Next(old(world)))
      ensures failure.None? <==> !TurnOf(old(world)).fails && temp.name in Next(old(world)).disk.names
      ensures world == if failure.None? then Own(Next(old(world)), Rename(temp.name, DOCUMENT)) else Next(old(world))
      ensures failure.Some? ==> failure == Some(Io)
      ensures Called(old(world), world, 1)
      ensures world.log == old(world).log + if failure.None? then [Rename(temp.name, DOCUMENT)] else []
    {
      hide Valid, After, Quiet, Steps, Own, Next, TurnOf, Called, CallFails;
      var ok := Call();
      ghost var w1 := world;
      QuietValid(old(world), w1);
      if !ok || temp.name !in world.disk.names {
        failure := Some(Io);
      } else {
        Change(Rename(temp.name, DOCUMENT));
        StepsTransitive(old(world), w1, world, 0, 1);
        CalledOn(old(world), w1, world, 1, 0);
        failure := None;
      }
    }

    /** `bound_destination`: the destination, if it is the file just published with its bytes. */
    method BoundDestination(intended: DocumentRead) returns (d: Option<nat>)
      requires Valid(world)
      modifies this
      ensures Quiet(old(world), world)
      ensures d.Some? ==>
        && d.value == intended.pre.ino && Exists(world, d.value)
        && Node(world.disk, d.value).bytes == intended.bytes && Called(old(world), world, 4)
      ensures world.log == old(world).log
      ensures Idle(old(world), 4) && Readable(old(world), intended.pre.ino)
              && Node(old(world).disk, intended.pre.ino).bytes == intended.bytes == intended.pre.content ==>
        d == Some(intended.pre.ino) && world == Skip(old(world), 4)
    {
      hide Valid, After, Node, Skip, Idle, Called, TurnOf, Next;
      IdleOpen(world);
      IdleNext(world);
      var lookup := OpenDocument();
      ghost var w1 := world;
      QuietValid(old(world), w1);
      d := None;
      if lookup.Ok? && lookup.value.Some? {
        var actual := ReadRegular(lookup.value.value);
        QuietTransitive(old(world), w1, world);
        if actual.Ok? {
          CalledOn(old(world), w1, world, 1, 3);
        }
        if actual.Ok? && SamePreimage(actual.value.pre, intended.pre) && actual.value.bytes == intended.bytes {
          d := lookup.value;
        }
      }
    }

    /** `apply_destination_mode`. */
    method ApplyMode(ino: nat, mode: nat)
      returns (status: ModeStatus, expected: Option<DocumentRead>, errors: seq<string>)
      requires Valid(world) && Exists(world, ino)
      modifies this
      ensures Steps(old(world), world, 0)
      ensures expected.Some? <==> status.Applied?
      ensures world.log == old(world).log + if CallFails(old(world), 0) then [] else [Chmod(ino, mode)]
      ensures errors ==
        if !CallFails(old(world), 0) && CallFails(old(world), 1) then ["destination metadata fsync failed"] else []
      ensures expected.Some? ==> !CallFails(old(world), 0) && Called(old(world), world, 5)
      ensures status != NoModeClaim
      ensures expected.Some? ==>
        && expected.value.pre.ino == ino && expected.value.pre.mode == mode
        && expected.value.pre.content == expected.value.bytes
        && Exists(world, ino) && Node(world.disk, ino) == StateOf(expected.value)
      ensures LastTurn(old(world)) && Node(Next(old(world)).disk, ino).kind == Regular
              && |Node(Next(old(world)).disk, ino).bytes| <= MAX_DOCUMENT_BYTES ==>
        && status == Applied && errors == [] && world == Own(Next(old(world)), Chmod(ino, mode))
        && expected.value.bytes == Node(Next(old(world)).disk, ino).bytes
    {
      hide Valid, After, Node, Quiet, Steps, Own, Next, Skip, Idle, TurnOf, Called, CallFails;
      status, expected, errors := ModeFailed, None, [];
      var ok := Call();
      ghost var w1 := world;
      QuietValid(old(world), w1);
      QuietKeeps(old(world), w1, ino);
      ChangedMode(w1, ino, mode);
      if ok {
        Change(Chmod(ino, mode));
        ghost var w2 := world;
        StepsKeep(w1, w2, 0, ino);
        StepsTransitive(old(world), w1, w2, 0, 0);
        EmptyIsIdle(w2, 3);
        CalledOn(old(world), w1, w2, 1, 0);
        FailsOn(old(world), w2, 1, 0);
        ok := Call();
        ghost var w3 := world;
        CalledOn(old(world), w2, w3, 1, 1);
        QuietKeeps(w2, w3, ino);
        QuietSteps(old(world), w2, w3, 0);
        if !ok {
          errors := ["destination metadata fsync failed"];
        }
        var read := ReadRegular(ino);
        QuietSteps(old(world), w3, world, 0);
        if read.Ok? {
          CalledOn(old(world), w3, world, 2, 3);
        }
        if read.Ok? && read.value.pre.mode == mode {
          status, expected := Applied, Some(read.value);
        }
      }
    }

    /** `final_destination_state`; `lookup` is the world when the name was looked up. */
    method FinalDestination() returns (final: FinalState, ghost lookup: World)
      requires Valid(world)
      modifies this
      ensures Quiet(old(world), lookup) && Quiet(lookup, world)
      ensures Called(old(world), lookup, 1) && world.log == old(world).log
      ensures final.Present? ==>
        && LeadsTo(lookup, final.read.pre.ino)
        && Exists(world, final.read.pre.ino) && Node(world.disk, final.read.pre.ino) == StateOf(final.read)
      ensures forall ino: nat :: old(world).turns == [] && Readable(old(world), ino) ==>
        world == old(world) && final == Present(ReadOf(ino, Node(world.disk, ino).bytes, Node(world.disk, ino)))
    {
      hide Valid, After, Node, Skip, Idle, Called, TurnOf, Next;
      EmptyIsIdle(world, 1);
      EmptyIsIdle(world, 3);
      var file := OpenDocument();
      lookup := world;
      QuietValid(old(world), lookup);
      if file.Err? {
        QuietReflexive(lookup);
        final := Unreadable(file.error);
      } else if file.value.None? {
        QuietReflexive(lookup);
        final := Missing;
      } else {
        var read := ReadRegular(file.value.value);
        final := if read.Ok? then Present(read.value) else Unreadable(read.error);
      }
    }

    /** Sets the mode of the destination, if there is one, and syncs the directory; `applied` is the world
        between the two. */
    method Settle(bound: Option<nat>, mode: nat)
      returns (status: ModeStatus, expected: Option<DocumentRead>, errors: seq<string>, ghost applied: World)
      requires Valid(world) && (bound.Some? ==> Exists(world, bound.value))
      modifies this
      ensures Steps(old(world), applied, 0) && Quiet(applied, world)
      ensures expected.Some? <==> status == Applied
      ensures world.log == old(world).log
        + if bound.Some? && !CallFails(old(world), 0) then [Chmod(bound.value, mode)] else []
      ensures expected.Some? ==>
        && bound.Some? && !CallFails(old(world), 0)
        && expected.value.pre.ino == bound.value && expected.value.pre.mode == mode
        && expected.value.pre.content == expected.value.bytes
        && Exists(applied, bound.value) && Node(applied.disk, bound.value) == StateOf(expected.value)
        && Called(old(world), applied, 5) && Called(old(world), world, 6) && errors == SyncErrors(old(world))
      ensures LastTurn(old(world)) && bound.Some? && Readable(Next(old(world)), bound.value) ==>
        && status == Applied && errors == [] && world == applied && world.turns == [] && Readable(world, bound.value)
        && expected.value.bytes == Node(Next(old(world)).disk, bound.value).bytes
    {
      hide Valid, After, Node, Quiet, Steps, Exists, Own, Next, TurnOf, LeadsTo, Called, CallFails;
      status, expected, errors := NoModeClaim, None, [];
      StepsReflexive(world);
      if bound.Some? {
        ConcludeAtRest(world, bound.value, mode);
        status, expected, errors := ApplyMode(bound.value, mode);
      }
      applied := world;
      StepsValid(old(world), applied, 0);
      EmptyIsIdle(applied, 0);
      if expected.Some? {
        FailsOn(old(world), applied, 5, 0);
      }
      var ok := Call();
      if !ok {
        errors := errors + ["repository directory fsync failed"];
      }
      if expected.Some? {
        CalledOn(old(world), applied, world, 5, 1);
        SyncsAre(old(world), errors);
      }
    }

    /** The common end of both operations: set the mode, sync the directory, look once more, report. */
    method Conclude(op: Operation, bound: Option<nat>, mode: nat, cleanup: Cleanup, edited: bool)
      returns (r: Report, ghost t: Moments)
      requires Valid(world) && (bound.Some? ==> Exists(world, bound.value))
      modifies this
      ensures Steps(old(world), world, 0)
      ensures r.cleanup == cleanup && r.sourceInterference == bound.None? && r.preRenameEdit == edited
      ensures r.outcome == if bound.None? || edited || r.finalInterference then Interfered(op) else CleanOutcome(op)
      ensures !r.finalInterference ==> bound.Some? && Observed(old(world), world, r, bound.value, mode, t)
      ensures world.log == old(world).log
        + if bound.Some? && !CallFails(old(world), 0) then [Chmod(bound.value, mode)] else []
      ensures r.mode == Applied ==>
        && bound.Some? && !CallFails(old(world), 0) && !edited
        && r.durability == DurabilityStatus(SyncErrors(old(world)))
        && After(old(world), t.applied) && Called(old(world), t.applied, 5) && Called(old(world), t.lookup, 7)
      ensures LastTurn(old(world)) && bound.Some? && Readable(Next(old(world)), bound.value)
              && !edited && cleanup != CleanupFailed ==>
        PublicationIsClean(r, Node(Next(old(world)).disk, bound.value).bytes)
    {
      hide Valid, After, Node, Quiet, Steps, Exists, Observed, Own, Next, TurnOf, Finish, PublicationIsClean, LeadsTo;
      hide ExactRead, CleanOutcome, Called, CallFails, DurabilityStatus, SyncErrors, LastTurn;
      var status, expected, errors;
      ghost var w1;
      status, expected, errors, w1 := Settle(bound, mode);
      ghost var w2 := world;
      StepsValid(old(world), w1, 0);
      QuietValid(w1, w2);
      QuietSteps(old(world), w1, w2, 0);
      var final;
      ghost var lookup;
      final, lookup := FinalDestination();
      if expected.Some? {
        CalledOn(old(world), w2, lookup, 6, 1);
      }
      QuietValid(w2, lookup);
      QuietValid(lookup, world);
      QuietSteps(old(world), w2, lookup, 0);
      QuietSteps(old(world), lookup, world, 0);
      AfterTransitive(w1, w2, lookup);
      NoErrors();
      var claims := Claims(op, DurabilityStatus(errors), status, cleanup, bound.None?, edited);
      if expected.Some? && w1 == w2 && Readable(w2, bound.value) {
        SameRead(w1, bound.value, expected.value);
        CleanMeans(claims, final, expected, expected.value.bytes);
      }
      r := Finish(claims, final, expected);
      FinishTells(claims, final, expected);
      t := AllAt(w1).(lookup := lookup);
      if !r.finalInterference {
        ObservedFrom(old(world), w1, lookup, world, r, bound.value, mode, t);
      }
    }

    /** `create`. It links the document's name exactly when it succeeds, and changes it in no other way.
        When it flags no final interference, the document is the file this call made. */
    method Create(bytes: string) returns (r: Result<Report, StoreError>, ghost temp: Temp, ghost t: Moments)
      requires Valid(world)
      modifies this
      ensures Steps(old(world), world, if r.Ok? then 1 else 0)
      ensures r.Ok? ==> r.value.outcome in {Created, Interfered(Operation.Create)}
      // Its own changes, in order, and its syncs.
      ensures r.Ok? ==>
        && |old(world).log| <= |world.log| && CreateLog(world.log[|old(world).log|..], temp, bytes, r.value)
        && Synced(old(world), r.value, t, 10)
      ensures r.Ok? && !r.value.finalInterference ==>
        && !Exists(old(world), temp.ino) && Observed(old(world), world, r.value, temp.ino, 420, t)
        && BoundAt(old(world), temp.ino, bytes, t)
      // Undisturbed, and where there is no document yet, it succeeds cleanly.
      ensures old(world).turns == [] && Unused(old(world), bytes) && DOCUMENT !in old(world).disk.names ==>
        r.Ok? && PublicationIsClean(r.value, bytes)
      // Undisturbed, and where there is one, it refuses and leaves every name as it was.
      ensures old(world).turns == [] && Unused(old(world), bytes) && DOCUMENT in old(world).disk.names ==>
        r == Err(AlreadyExists) && world.disk.names == old(world).disk.names
      ensures |bytes| > MAX_DOCUMENT_BYTES ==> r == Err(InvalidFile) && world == old(world)
      // When one of the first eight system calls fails and nobody interferes, it fails and leaves every name
      // as it was, unless that was the second call, which looks at the file just made. Later it is too late
      // to fail.
      ensures OneFault(old(world)) && Unused(old(world), bytes) && DOCUMENT !in old(world).disk.names ==>
        if |old(world).turns| > 8 then r.Ok?
        else r == Err(Io) && (world.disk.names == old(world).disk.names <==> |old(world).turns| != 2)
      // With a late edit it flags nothing, although what is published is the edit.
      ensures forall edited: string :: EditedLate(old(world), bytes, edited) ==>
        r.Ok? && PublicationIsClean(r.value, edited)
    {
      hide Valid, After, Node, Quiet, Steps, Exists, Observed, IsTemp, PublicationIsClean, PreparedWorld, CreatedWorld;
      hide BoundAt, Own, Skip, Idle, Next, TurnOf, Synced, SyncedFrom, CreateLog, LinkLog, Called, CallFails;
      hide Holds, Readable, Prepared, LastTurn, OneFault, Begun, EndsWith, EditedLate, Held;
      CreateOutcomes(world, bytes);
      EmptyIsIdle(world, 7);
      ghost var faulty := OneFault(world) && Unused(world, bytes);
      if faulty && |world.turns| > 7 {
        FaultAfterPrepare(world, bytes);
      }
      if Unused(world, bytes) && DOCUMENT !in world.disk.names && Idle(world, 15) {
        CreateSoFar(world, bytes);
      }
      var made, intended;
      ghost var filling;
      made, intended, filling := Prepare(bytes);
      ghost var w1 := world;
      StepsValid(old(world), w1, 0);
      temp, t := Temp("", 0), AllAt(w1);
      if intended.Err? {
        r := Err(intended.error);
        if made.Some? {
          TempIsNew(old(world), w1, made.value);
        }
        DropTemp(made, old(world));
        StepsTransitive(old(world), w1, world, 0, 0);
      } else {
        TempIsNew(old(world), w1, made.value);
        temp := made.value;
        if old(world).turns == [] && Unused(old(world), bytes) {
          PreparedHolds(old(world), bytes);
          RemovedTemp(old(world), bytes);
        }
        r, t := CreateFrom(made.value, intended.value);
        ghost var u := t;
        t := t.(filling := filling);
        StepsTransitive(old(world), w1, world, 0, if r.Ok? then 1 else 0);
        if r.Ok? {
          CreateLogs(old(world).log, w1.log, world.log, temp, bytes, r.value);
          CreatedWhole(old(world), w1, world, temp, bytes, r.value, u, t);
        }
      }
    }

    /** Links the document, checks the destination and removes the temporary name; `checked` is the world
        once the destination was checked. */
    method LinkAndBind(temp: Temp, intended: DocumentRead)
      returns (failure: Option<StoreError>, bound: Option<nat>, cleanup: Cleanup, ghost checked: World)
      requires Valid(world) && temp.ino == intended.pre.ino && temp.name != DOCUMENT
      modifies this
      ensures Steps(old(world), world, if failure.None? then 1 else 0)
      ensures failure.None? ==>
        && Steps(old(world), checked, 1) && Steps(checked, world, 0)
        && cleanup in {Complete, CleanupFailed}
        && world.log == old(world).log + [HardLink(temp.name, DOCUMENT)]
          + if cleanup == Complete then [Unlink(temp.name)] else []
      ensures failure.None? && bound.Some? ==>
        && bound.value == temp.ino && Exists(world, temp.ino)
        && Node(checked.disk, temp.ino).bytes == intended.bytes && Called(old(world), checked, 5)
      ensures Idle(old(world), 8) && DOCUMENT !in old(world).disk.names && Holds(old(world), temp, intended) ==>
        && failure == None && bound == Some(temp.ino) && cleanup == Complete
        && world == CreatedWorld(Skip(old(world), 8), temp)
      ensures old(world).turns == [] && DOCUMENT in old(world).disk.names && Holds(old(world), temp, intended) ==>
        failure == Some(AlreadyExists) && world == Own(old(world), Unlink(temp.name))
      ensures OneFault(old(world)) && DOCUMENT !in old(world).disk.names && Holds(old(world), temp, intended) ==>
        if |old(world).turns| > 1 then failure == None
        else failure == Some(Io) && world.disk.names == old(world).disk.names - {temp.name}
    {
      hide Valid, After, Node, Quiet, Steps, Exists, Own, CreatedWorld, Skip, Idle, Next, TurnOf, Called, CallFails;
      hide OneFault;
      if Holds(world, temp, intended) {
        FaultCall(world, temp, intended);
      }
      EmptyIsIdle(world, 1);
      EmptyIsIdle(world, 3);
      if DOCUMENT !in world.disk.names && Holds(world, temp, intended) {
        IdleCreate(world, temp, intended);
      }
      bound, cleanup := None, NotRequired;
      failure := LinkDocument(temp);
      ghost var w1 := world;
      checked := w1;
      StepsValid(old(world), w1, if failure.None? then 1 else 0);
      if failure.Some? {
        var _, _ := UnlinkIfSame(temp);
        StepsTransitive(old(world), w1, world, 0, 0);
      } else {
        bound := BoundDestination(intended);
        checked := world;
        QuietSteps(old(world), w1, checked, 1);
        QuietValid(w1, checked);
        if bound.Some? {
          CalledOn(old(world), w1, checked, 1, 4);
        }
        var ok, _ := UnlinkIfSame(temp);
        StepsTransitive(old(world), checked, world, 1, 0);
        StepsValid(checked, world, 0);
        if bound.Some? {
          StepsKeep(checked, world, 0, bound.value);
        }
        cleanup := if ok then Complete else CleanupFailed;
      }
    }

    method CreateFrom(temp: Temp, intended: DocumentRead) returns (r: Result<Report, StoreError>, ghost t: Moments)
      requires Valid(world) && temp.ino == intended.pre.ino && temp.name != DOCUMENT
      modifies this
      ensures Steps(old(world), world, if r.Ok? then 1 else 0)
      ensures r.Ok? ==> r.value.outcome in {Created, Interfered(Operation.Create)}
      ensures r.Ok? ==>
        && |old(world).log| <= |world.log| && world.log[..|old(world).log|] == old(world).log
        && LinkLog(world.log[|old(world).log|..], temp, r.value) && SyncedFrom(old(world), r.value, t, 5)
      ensures r.Ok? && !r.value.finalInterference ==>
        Observed(old(world), world, r.value, temp.ino, MODE_644, t) && BoundAt(old(world), temp.ino, intended.bytes, t)
      ensures Idle(old(world), 8) && DOCUMENT !in old(world).disk.names && Holds(old(world), temp, intended) ==>
        forall edited :: EndsWith(CreatedWorld(Skip(old(world), 8), temp), temp.ino, edited) ==>
          r.Ok? && PublicationIsClean(r.value, edited)
      ensures old(world).turns == [] && DOCUMENT in old(world).disk.names && Holds(old(world), temp, intended) ==>
        r == Err(AlreadyExists) && world == Own(old(world), Unlink(temp.name))
      ensures OneFault(old(world)) && DOCUMENT !in old(world).disk.names && Holds(old(world), temp, intended) ==>
        if |old(world).turns| > 1 then r.Ok?
        else r == Err(Io) && world.disk.names == old(world).disk.names - {temp.name}
    {
      hide Valid, After, Node, Quiet, Steps, Exists, Observed, BoundAt, Own, PublicationIsClean, CreatedWorld, Holds;
      hide OneFault;
      hide Skip, Idle, Next, TurnOf, SyncedFrom, LinkLog, Called, CallFails, SyncErrors, DurabilityStatus, Readable;
      hide LastTurn;
      var failure, bound, cleanup;
      ghost var w2;
      failure, bound, cleanup, w2 := LinkAndBind(temp, intended);
      ghost var w3 := world;
      t := AllAt(w3);
      if failure.Some? {
        r := Err(failure.value);
      } else {
        StepsValid(old(world), w3, 1);
        StepsValid(w2, w3, 0);
        var report;
        report, t := Conclude(Operation.Create, bound, MODE_644, cleanup, false);
        StepsTransitive(old(world), w3, world, 1, 0);
        ghost var u := t;
        t := t.(bound := w2, closing := w3);
        LinkLogs(old(world).log, world.log, cleanup == Complete, bound.Some? && !CallFails(w3, 0), temp, report);
        SyncedAt(old(world), w2, w3, report, u, t, 5);
        if !report.finalInterference {
          StepsValid(old(world), w2, 1);
          BoundFrom(old(world), w2, w3, world, report, temp.ino, MODE_644, u, t);
          ObservedWith(w3, world, report, temp.ino, MODE_644, u, t);
          ObservedSince(old(world), w3, world, report, temp.ino, MODE_644, t);
        }
        r := Ok(report);
      }
    }

    /** `replace`. It renames over the document exactly when it succeeds, and changes the name in no other
        way. Just before the rename it has looked up and read the file expected (`Rechecked`; what that
        protects is `DisplacesRechecked`), whose content it reads again afterwards. When it flags no final
        interference, the document is the file this call made. */
    method Replace(expected: Preimage, bytes: string)
      returns (r: Result<Report, StoreError>, ghost temp: Temp, ghost t: Moments)
      requires Valid(world)
      modifies this
      ensures Steps(old(world), world, if r.Ok? then 1 else 0)
      ensures r.Ok? ==> r.value.outcome in {Replaced, Interfered(Operation.Replace)}
      ensures r.Ok? ==> Rechecked(old(world), world, temp, expected, r.value.preRenameEdit, t)
      // Its own changes, in order, and its syncs.
      ensures r.Ok? ==>
        && |old(world).log| <= |world.log|
        && ReplaceLog(world.log[|old(world).log|..], temp, bytes, expected.mode, r.value)
        && Synced(old(world), r.value, t, 17)
      ensures r.Ok? && !r.value.finalInterference ==>
        && !Exists(old(world), temp.ino) && Observed(old(world), world, r.value, temp.ino, expected.mode, t)
        && BoundAt(old(world), temp.ino, bytes, t)
      // Undisturbed, and where the document is as expected, it succeeds cleanly.
      ensures old(world).turns == [] && Unused(old(world), bytes) && AsExpected(old(world), expected) ==>
        r.Ok? && PublicationIsClean(r.value, bytes)
      // Undisturbed, and where it is not, it refuses and leaves every name as it was.
      ensures old(world).turns == [] && Unused(old(world), bytes) && !AsExpected(old(world), expected) ==>
        && r == Err(Unexpected(old(world).disk)) && world.disk.names == old(world).disk.names
      ensures |bytes| > MAX_DOCUMENT_BYTES ==> r == Err(InvalidFile) && world == old(world)
      // When one of the first twelve system calls fails and nobody interferes, it fails and leaves every name
      // as it was, unless that was the second call. Later it is too late to fail.
      ensures OneFault(old(world)) && Unused(old(world), bytes) && AsExpected(old(world), expected) ==>
        if |old(world).turns| > 12 then r.Ok?
        else r == Err(Io) && (world.disk.names == old(world).disk.names <==> |old(world).turns| != 2)
      // With another file swapped in inside the rename window it flags nothing, and displaces that file.
      ensures forall other: string :: SwappedInWindow(old(world), bytes, other, expected) ==>
        && r.Ok? && PublicationIsClean(r.value, bytes)
        && Displaced(t.renamed.disk, Own(t.renamed, Rename(temp.name, DOCUMENT)).disk)
          == Some(old(world).disk.names[other])
    {
      hide Valid, After, Node, Quiet, Steps, Exists, Observed, IsTemp, Rechecked, PublicationIsClean, PreparedWorld;
      hide BoundAt, AsExpected, Own, Skip, Idle, Next, TurnOf, Undamaged, Renames, Synced, ReplaceLog, Unexpected;
      hide Called, CallFails, SyncedFrom, RenameLog, Holds, Readable, Prepared, Displaced, LeadsTo, LastTurn;
      hide OneFault, Begun;
      ReplaceOutcomes(world, bytes, expected);
      EmptyIsIdle(world, 7);
      ghost var faulty := OneFault(world) && Unused(world, bytes) && AsExpected(world, expected);
      if faulty && |world.turns| > 7 {
        FaultReplace(world, bytes, expected);
      }
      if Unused(world, bytes) && AsExpected(world, expected) && Idle(world, 11) {
        ReplaceSoFar(world, bytes, expected);
      }
      var made, intended;
      ghost var filling;
      made, intended, filling := Prepare(bytes);
      ghost var w1 := world;
      StepsValid(old(world), w1, 0);
      temp, t := Temp("", 0), AllAt(w1);
      if intended.Err? {
        r := Err(intended.error);
        if made.Some? {
          TempIsNew(old(world), w1, made.value);
        }
        DropTemp(made, old(world));
        StepsTransitive(old(world), w1, world, 0, 0);
      } else {
        temp := made.value;
        TempIsNew(old(world), w1, temp);
        if old(world).turns == [] && Unused(old(world), bytes) {
          StillUnexpected(old(world), bytes, expected);
          PreparedHolds(old(world), bytes);
          HeldTemp(old(world), bytes);
          EmptyIsIdle(w1, 3);
        }
        var current;
        ghost var found;
        current, found := Recheck(expected);
        ghost var w2 := world;
        QuietSteps(old(world), w1, w2, 0);
        QuietValid(w1, w2);
        if current.Err? {
          r := Err(current.error);
          DropTemp(made, old(world));
          StepsTransitive(old(world), w2, world, 0, 0);
        } else {
          QuietSteps(old(world), w1, found, 0);
          r, t := ReplaceFrom(made.value, intended.value, current.value);
          StepsTransitive(old(world), w2, world, 0, if r.Ok? then 1 else 0);
          if r.Ok? {
            ghost var u := t;
            t := t.(found := found, rechecked := w2, filling := filling);
            StepsValid(old(world), w2, 0);
            ReplacedWhole(old(world), w1, w2, world, temp, bytes, expected, r.value, u, t);
            ReplaceLogs(old(world).log, w1.log, world.log, temp, bytes, expected.mode, r.value);
          }
        }
      }
    }

    /** Reads the document again and compares it with what the caller saw, mode and change time
        included; `found` is the world when its name was looked up. */
    method Recheck(expected: Preimage) returns (r: Result<DocumentRead, StoreError>, ghost found: World)
      requires Valid(world)
      modifies this
      ensures Quiet(old(world), world) && Quiet(old(world), found) && Quiet(found, world)
      ensures r.Ok? ==>
        && LeadsTo(found, expected.ino)
        && r.value == DocumentRead(expected.content, expected)
        && Exists(world, expected.ino) && Node(world.disk, expected.ino) == StateOf(r.value)
        && Called(old(world), world, 4)
      ensures world.log == old(world).log
      ensures old(world).turns == [] ==>
        && world == old(world) && (r.Ok? <==> AsExpected(old(world), expected))
        && (r.Err? ==> r.error == Unexpected(old(world).disk))
      ensures Idle(old(world), 4) && AsExpected(old(world), expected) ==> r.Ok? && world == Skip(old(world), 4)
      ensures OneFault(old(world)) && |old(world).turns| <= 4 && AsExpected(old(world), expected) ==>
        r == Err(Io) && world.turns == [] && world.disk == old(world).disk
    {
      hide Valid, After, Node, Skip, Idle, Called, Next, TurnOf, OneFault;
      FaultNext(world);
      IdleOpen(world);
      IdleNext(world);
      EmptyIsIdle(world, 1);
      EmptyIsIdle(world, 3);
      var file := OpenDocument();
      found := world;
      QuietValid(old(world), found);
      if file.Err? {
        QuietReflexive(found);
        r := Err(file.error);
      } else if file.value.None? {
        QuietReflexive(found);
        r := Err(PreimageChanged);
      } else {
        r := ReadRegular(file.value.value);
        QuietTransitive(old(world), found, world);
        if r.Ok? {
          CalledOn(old(world), found, world, 1, 3);
        }
        if r.Ok? && !ExactState(r.value.pre, expected) {
          r := Err(PreimageChanged);
        }
      }
    }

    /** Renames over the document, reads what was rechecked again and checks the destination; `reread` is
        the world between the two. */
    method RenameAndBind(temp: Temp, intended: DocumentRead, current: DocumentRead)
      returns (failure: Option<StoreError>, bound: Option<nat>, edited: bool, ghost reread: World)
      requires Valid(world) && temp.ino == intended.pre.ino && temp.name != DOCUMENT && Exists(world, current.pre.ino)
      modifies this
      ensures Steps(old(world), world, if failure.None? then 1 else 0) && Quiet(old(world), Next(old(world)))
      ensures failure.None? ==>
        && temp.name in Next(old(world)).disk.names
        && Quiet(Own(Next(old(world)), Rename(temp.name, DOCUMENT)), reread) && Quiet(reread, world)
        && (!edited ==> Node(reread.disk, current.pre.ino).bytes == current.pre.content)
        && world.log == old(world).log + [Rename(temp.name, DOCUMENT)]
      ensures failure.None? && bound.Some? ==>
        && bound.value == temp.ino && Exists(world, temp.ino) && Node(world.disk, temp.ino).bytes == intended.bytes
        && (!edited ==> Called(old(world), world, 8))
      ensures LastTurn(old(world)) && Undamaged(Next(old(world)), temp, intended, current.pre) ==>
        && failure == None && bound == Some(temp.ino) && !edited && world.turns == [] && Readable(world, temp.ino)
      ensures failure.Some? ==> failure == Some(Io)
      ensures OneFault(old(world)) && Holds(old(world), temp, intended) ==>
        if |old(world).turns| > 1 then failure == None
        else failure == Some(Io) && world.disk.names == old(world).disk.names - {temp.name}
    {
      hide Valid, After, Node, Quiet, Steps, Exists, Own, Next, Skip, Idle, TurnOf, LeadsTo, Called, CallFails;
      hide OneFault;
      if Holds(world, temp, intended) {
        FaultCall(world, temp, intended);
      }
      ghost var v := Next(world);
      bound, edited := None, false;
      failure := RenameOver(temp);
      QuietValid(old(world), v);
      if Undamaged(v, temp, intended, current.pre) {
        UndamagedRename(v, temp, intended, current.pre);
      }
      ghost var w1 := world;
      reread := w1;
      StepsValid(old(world), w1, if failure.None? then 1 else 0);
      if failure.Some? {
        var _, _ := UnlinkIfSame(temp);
        StepsTransitive(old(world), w1, world, 0, 0);
      } else {
        StepsKeep(old(world), w1, 1, current.pre.ino);
        EmptyIsIdle(w1, 3);
        EmptyIsIdle(w1, 4);
        var after := ReadRegular(current.pre.ino);
        edited := after.Err? || !SamePreimage(after.value.pre, current.pre);
        reread := world;
        QuietSteps(old(world), w1, reread, 1);
        QuietValid(w1, reread);
        if after.Ok? {
          CalledOn(old(world), w1, reread, 1, 3);
        }
        bound := BoundDestination(intended);
        QuietSteps(old(world), reread, world, 1);
        if after.Ok? && bound.Some? {
          CalledOn(old(world), reread, world, 4, 4);
        }
      }
    }

    method ReplaceFrom(temp: Temp, intended: DocumentRead, current: DocumentRead)
      returns (r: Result<Report, StoreError>, ghost t: Moments)
      requires Valid(world) && temp.ino == intended.pre.ino && temp.name != DOCUMENT && Exists(world, current.pre.ino)
      modifies this
      ensures Steps(old(world), world, if r.Ok? then 1 else 0)
      ensures r.Ok? ==> r.value.outcome in {Replaced, Interfered(Operation.Replace)}
      ensures r.Ok? ==>
        t.renamed == Next(old(world)) && Renames(old(world), world, temp, current.pre, r.value.preRenameEdit, t)
      ensures r.Ok? ==>
        && |old(world).log| <= |world.log| && world.log[..|old(world).log|] == old(world).log
        && RenameLog(world.log[|old(world).log|..], temp, current.pre.mode, r.value)
        && SyncedFrom(old(world), r.value, t, 8)
      ensures r.Ok? && !r.value.finalInterference ==>
        && Observed(old(world), world, r.value, temp.ino, current.pre.mode, t)
        && BoundAt(old(world), temp.ino, intended.bytes, t)
      ensures LastTurn(old(world)) && Undamaged(Next(old(world)), temp, intended, current.pre) ==>
        r.Ok? && PublicationIsClean(r.value, intended.bytes)
      ensures r.Err? ==> r.error == Io
      ensures OneFault(old(world)) && Holds(old(world), temp, intended) ==>
        if |old(world).turns| > 1 then r.Ok?
        else r == Err(Io) && world.disk.names == old(world).disk.names - {temp.name}
    {
      hide Valid, After, Node, Quiet, Steps, Exists, Observed, BoundAt, Own, PublicationIsClean, Renames, Readable;
      hide OneFault, Holds;
      hide Next, Skip, Idle, LeadsTo, SyncedFrom, RenameLog, Called, CallFails, SyncErrors, Undamaged, DurabilityStatus;
      ghost var v := Next(world);
      var failure, bound, edited;
      ghost var w2;
      failure, bound, edited, w2 := RenameAndBind(temp, intended, current);
      ghost var w3 := world;
      t := AllAt(w3);
      if failure.Some? {
        r := Err(failure.value);
      } else {
        QuietValid(w2, w3);
        StepsValid(old(world), w3, 1);
        AfterReflexive(w3);
        EmptyIsIdle(w3, 0);
        var report;
        report, t := Conclude(Operation.Replace, bound, current.pre.mode, NotRequired, edited);
        StepsTransitive(old(world), w3, world, 1, 0);
        ghost var u := t;
        t := t.(renamed := v, reread := w2, bound := w3, closing := w3);
        RenameLogs(old(world).log, world.log, bound.Some? && !CallFails(w3, 0), temp, current.pre.mode, report);
        SyncedAt(old(world), w3, w3, report, u, t, 8);
        StepsValid(w3, world, 0);
        AfterTransitive(w2, w3, world);
        RenamesAt(old(world), v, w2, world, temp, current.pre, edited, t);
        if !report.finalInterference {
          BoundFrom(old(world), w3, w3, world, report, temp.ino, current.pre.mode, u, t);
          ObservedWith(w3, world, report, temp.ino, current.pre.mode, u, t);
          ObservedSince(old(world), w3, world, report, temp.ino, current.pre.mode, t);
        }
        r := Ok(report);
      }
    }

    /** `refresh_publication_final_state`, some time after a publication whose report is `r`. When the
        report is clean afterwards, the file published was untouched all the while. */
    method Refresh(r: Report, intended: string, ghost start: World, ghost done: World, ghost ino: nat, ghost mode: nat,
                   ghost t: Moments)
      returns (r': Report, ghost t': Moments)
      requires Valid(world) && After(done, world)
      requires !r.finalInterference ==> Observed(start, done, r, ino, mode, t)
      modifies this
      ensures Quiet(old(world), world)
      ensures r'.outcome == r.outcome && (r.finalInterference ==> r'.finalInterference)
      ensures !r'.finalInterference ==>
        r'.finalState == r.finalState && Observed(start, world, r', ino, mode, t') && t'.applied == t.applied
    {
      hide Valid, After, Node, Quiet, Observed;
      var final;
      ghost var lookup;
      final, lookup := FinalDestination();
      QuietTransitive(old(world), lookup, world);
      r' := Refreshed(r, final, intended);
      t' := t.(lookup := lookup);
      if !r'.finalInterference {
        ObservedIno(start, done, r, ino, mode, t);
        assert final.read.pre == r.finalState.read.pre;
        QuietAfter(old(world), lookup);
        QuietAfter(lookup, world);
        AfterTransitive(done, old(world), lookup);
        ObservedStill(start, done, lookup, world, r, r', ino, mode, t);
      }
    }
  }
}
