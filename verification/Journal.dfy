/** The output journal: two tees over one bounded accumulator, and the rotating file. */
module Journal {
  import opened Basics

  const OUTPUT_CAP_BYTES := 4096
  const ROTATE_BYTES := 32 * 1024 * 1024
  const BUFFER_BYTES := 8192

  // ---- the tees --------------------------------------------------------------------------------

  datatype Who = Stdout | Stderr

  /** The bytes accumulated, each with the stream it came from. */
  type Stream = seq<(Who, char)>

  function Tagged(who: Who, bytes: string): (r: Stream)
    ensures |r| == |bytes|
  {
    seq(|bytes|, k requires 0 <= k < |bytes| => (who, bytes[k]))
  }

  function Bytes(stream: Stream): (r: string)
    ensures |r| == |stream|
  {
    seq(|stream|, k requires 0 <= k < |stream| => stream[k].1)
  }

  /** The bytes of one stream, in order. */
  function Of(stream: Stream, who: Who): string {
    if stream == [] then []
    else
      var n := |stream| - 1;
      Of(stream[..n], who) + if stream[n].0 == who then [stream[n].1] else []
  }

  lemma {:induction false} OfConcat(a: Stream, b: Stream, who: Who)
    ensures Of(a + b, who) == Of(a, who) + Of(b, who)
    decreases |b|
  {
    if b == [] {
      assert a + b == a;
    } else {
      var n := |b| - 1;
      assert (a + b)[..|a| + n] == a + b[..n];
      OfConcat(a, b[..n], who);
    }
  }

  lemma {:induction false} OfTagged(writer: Who, bytes: string, who: Who)
    ensures Of(Tagged(writer, bytes), who) == if writer == who then bytes else []
  {
    if bytes != [] {
      var n := |bytes| - 1;
      assert Tagged(writer, bytes)[..n] == Tagged(writer, bytes[..n]);
      OfTagged(writer, bytes[..n], who);
      assert bytes == bytes[..n] + [bytes[n]];
    }
  }

  lemma {:induction false} StreamsShareOut(stream: Stream)
    ensures |Of(stream, Stdout)| + |Of(stream, Stderr)| == |stream|
  {
    if stream != [] {
      StreamsShareOut(stream[..|stream| - 1]);
    }
  }

  /** One tee: what it has still to read, what it has read, what reached the real descriptor, and a
      chunk forwarded but not yet accumulated. `failed`: some write to the descriptor did not go
      through, which the tee ignores. */
  datatype Tee = Tee(source: string, taken: string, sink: string, inflight: Option<string>, failed: bool)

  function Inflight(t: Tee): string { if t.inflight.Some? then t.inflight.value else [] }

  ghost predicate Truthful(t: Tee, printed: string, stream: Stream, who: Who) {
    && t.taken + t.source == printed
    && Of(stream, who) + Inflight(t) == t.taken
    && (!t.failed ==> t.sink == t.taken)
  }

  /** A chunk accumulated by `writer` is no longer in flight there, and is not seen by the other tee. */
  lemma TakenIn(t: Tee, printed: string, stream: Stream, writer: Who, chunk: string, who: Who)
    requires Truthful(t, printed, stream, who) && (writer == who ==> t.inflight == Some(chunk))
    ensures Truthful(if writer == who then t.(inflight := None) else t, printed, stream + Tagged(writer, chunk), who)
  {
    OfConcat(stream, Tagged(writer, chunk), who);
    OfTagged(writer, chunk, who);
  }

  function Forwarded(t: Tee, read: nat, through: nat): Tee
    requires read <= |t.source|
  {
    var chunk := t.source[..read];
    Tee(
      t.source[read..], t.taken + chunk, t.sink + chunk[..Min(through, read)], Some(chunk),
      t.failed || through < read)
  }

  lemma ForwardedIs(t: Tee, printed: string, stream: Stream, who: Who, read: nat, through: nat)
    requires Truthful(t, printed, stream, who) && t.inflight.None? && read <= |t.source|
    ensures Truthful(Forwarded(t, read, through), printed, stream, who)
  {
    var chunk := t.source[..read];
    assert t.source == chunk + t.source[read..];
    assert t.taken + chunk + t.source[read..] == printed;
    assert through >= read ==> chunk[..Min(through, read)] == chunk;
  }

  /** A step of one tee: read at most `size` bytes and forward them, of which `through` get through; or
      accumulate what was forwarded. */
  datatype Move = Move(who: Who, size: nat, through: nat)

  /** The moves a tee can still need: two a byte, and one for a chunk not yet accumulated. */
  ghost function Left(t: Tee): nat { 2 * |t.source| + if t.inflight.Some? then 1 else 0 }

  /** How many moves are one tee's, with room to read. */
  ghost function Moves(moves: seq<Move>, who: Who): nat {
    if moves == [] then 0
    else
      var last := moves[|moves| - 1];
      Moves(moves[..|moves| - 1], who) + if last.who == who && last.size > 0 then 1 else 0
  }

  /** What a move does to its own tee. */
  ghost function Moved(t: Tee, m: Move): Tee {
    if t.inflight.Some? then t.(inflight := None)
    else
      var read := Min(Min(m.size, 8192), |t.source|);
      if read == 0 then t else Forwarded(t, read, m.through)
  }

  lemma MovedHasLess(t: Tee, m: Move)
    ensures Left(Moved(t, m)) <= SaturatingSub(Left(t), if m.size > 0 then 1 else 0)
  {
  }

  class Capture {
    var kept: string
    var total: nat
    var out: Tee
    var err: Tee
    ghost var stream: Stream
    ghost const printedOut: string
    ghost const printedErr: string

    ghost predicate Accumulated()
      reads this`kept, this`total, this`stream
    {
      total == |stream| && kept == Bytes(stream)[..Min(OUTPUT_CAP_BYTES, |stream|)]
    }

    ghost predicate Valid()
      reads this
    {
      && Accumulated()
      && Truthful(out, printedOut, stream, Stdout)
      && Truthful(err, printedErr, stream, Stderr)
    }

    constructor (stdout: string, stderr: string)
      ensures Valid() && stream == [] && printedOut == stdout && printedErr == stderr
    {
      kept, total, stream := [], 0, [];
      out, err := Tee(stdout, [], [], None, false), Tee(stderr, [], [], None, false);
      printedOut, printedErr := stdout, stderr;
    }

    /** `Captured::push`. */
    method Push(bytes: string, ghost who: Who)
      requires Accumulated()
      modifies this`kept, this`total, this`stream
      ensures Accumulated() && stream == old(stream) + Tagged(who, bytes)
    {
      total := total + |bytes|;
      var room := SaturatingSub(OUTPUT_CAP_BYTES, |kept|);
      ghost var all := stream + Tagged(who, bytes);
      assert Bytes(all) == Bytes(stream) + bytes;
      if room > 0 {
        kept := kept + bytes[..Min(room, |bytes|)];
      }
      stream := all;
    }

    /** One step of the loop of `tee`, on whichever of its two halves it stands. Forwarding comes first. */
    method Step(m: Move)
      requires Valid()
      modifies this
      ensures Valid()
      ensures out == if m.who == Stdout then Moved(old(out), m) else old(out)
      ensures err == if m.who == Stderr then Moved(old(err), m) else old(err)
      ensures stream == old(stream) + Tagged(m.who, Inflight(if m.who == Stdout then old(out) else old(err)))
    {
      hide Truthful, Accumulated, Of, Bytes;
      var t := if m.who == Stdout then out else err;
      if t.inflight.Some? {
        TakenIn(out, printedOut, stream, m.who, t.inflight.value, Stdout);
        TakenIn(err, printedErr, stream, m.who, t.inflight.value, Stderr);
        Push(t.inflight.value, m.who);
        t := t.(inflight := None);
      } else {
        var read := Min(Min(m.size, BUFFER_BYTES), |t.source|);
        if read > 0 {
          ForwardedIs(t, if m.who == Stdout then printedOut else printedErr, stream, m.who, read, m.through);
          t := Forwarded(t, read, m.through);
        }
      }
      if m.who == Stdout {
        out := t;
      } else {
        err := t;
      }
    }

    /** Any interleaving of the two threads. */
    method Run(moves: seq<Move>)
      requires Valid()
      modifies this
      ensures Valid() && old(stream) <= stream
      ensures Left(out) <= SaturatingSub(old(Left(out)), Moves(moves, Stdout))
      ensures Left(err) <= SaturatingSub(old(Left(err)), Moves(moves, Stderr))
    {
      for i := 0 to |moves|
        invariant Valid() && old(stream) <= stream
        invariant Left(out) <= SaturatingSub(old(Left(out)), Moves(moves[..i], Stdout))
        invariant Left(err) <= SaturatingSub(old(Left(err)), Moves(moves[..i], Stderr))
      {
        assert moves[..i + 1][..i] == moves[..i];
        MovedHasLess(if moves[i].who == Stdout then out else err, moves[i]);
        Step(moves[i]);
      }
      assert moves[..|moves|] == moves;
    }

    /** `was_truncated`. */
    predicate WasTruncated()
      reads this
    {
      total > |kept|
    }

    /** Whatever the interleaving: the entry keeps the first bytes of the accumulated stream up to the
        cap and says so exactly when there were more; each tee's bytes are in it in order; and a
        descriptor whose writes went through got exactly what was read for it. When both tees have
        drained, nothing of what was printed is missing from the count. */
    lemma Captures()
      requires Valid()
      ensures kept <= Bytes(stream) && |kept| == Min(4096, total)
      ensures WasTruncated() <==> total > 4096
      ensures Of(stream, Stdout) <= printedOut && Of(stream, Stderr) <= printedErr
      ensures !out.failed ==> out.sink <= printedOut
      ensures !err.failed ==> err.sink <= printedErr
      ensures Left(out) == Left(err) == 0 ==>
        && Of(stream, Stdout) == printedOut && Of(stream, Stderr) == printedErr
        && total == |printedOut| + |printedErr|
        && (!out.failed ==> out.sink == printedOut) && (!err.failed ==> err.sink == printedErr)
    {
      StreamsShareOut(stream);
    }
  }

  // ---- the rotating file -----------------------------------------------------------------------

  /** The journal and its one kept generation. */
  datatype Files = Files(previous: string, current: Option<string>)

  function Current(f: Files): string { if f.current.Some? then f.current.value else [] }

  function Remaining(f: Files): string { f.previous + Current(f) }

  /** Renaming the journal over the kept generation. */
  function Rotate(f: Files): Files { Files(Current(f), None) }

  /** Appending through an `O_APPEND` descriptor. */
  function Append(f: Files, bytes: string): Files { f.(current := Some(Current(f) + bytes)) }

  lemma Sizes(f: Files, bytes: string)
    ensures |Current(Append(f, bytes))| == |Current(f)| + |bytes| && Current(Rotate(f)) == []
    ensures f.current.Some? ==> Current(f) == f.current.value
    ensures f.current.None? ==> Current(f) == []
  {
  }

  ghost predicate IsSuffix(part: string, whole: string) {
    |part| <= |whole| && whole[|whole| - |part|..] == part
  }

  /** What is left is the end of the history, and either all of it or more than the threshold. */
  ghost predicate Retains(f: Files, history: string) {
    IsSuffix(Remaining(f), history) && (Remaining(f) == history || |Remaining(f)| > ROTATE_BYTES)
  }

  lemma SuffixAppend(part: string, whole: string, bytes: string)
    requires IsSuffix(part, whole)
    ensures IsSuffix(part + bytes, whole + bytes)
  {
    var n := |whole| - |part|;
    assert (whole + bytes)[n..] == whole[n..] + bytes;
  }

  lemma AppendRetains(f: Files, history: string, bytes: string)
    requires Retains(f, history)
    ensures Retains(Append(f, bytes), history + bytes)
  {
    assert Remaining(Append(f, bytes)) == Remaining(f) + bytes;
    hide Remaining, IsSuffix;
    SuffixAppend(Remaining(f), history, bytes);
  }

  /** A rotation keeps the promise exactly when the journal it renames is itself past the threshold, or
      is the whole history. */
  lemma RotateRetains(f: Files, history: string)
    requires Retains(f, history)
    ensures Retains(Rotate(f), history) <==> |Current(f)| > ROTATE_BYTES || Current(f) == history
  {
    assert Remaining(Rotate(f)) == Current(f) + [];
    var n := |Remaining(f)| - |Current(f)|;
    assert Remaining(f)[n..] == Current(f);
    assert history[|history| - |Current(f)|..] == history[|history| - |Remaining(f)|..][n..];
  }

  /** Two processes that both found the journal past the threshold: the second rename replaces the
      generation the first one kept. What is left is only what was written in between, so unless that
      is past the threshold itself, or is all there ever was, the promise is broken. */
  lemma StaleRotationLoses(f: Files, history: string, line: string)
    requires Retains(f, history)
    ensures var now := Rotate(Append(Rotate(f), line));
      && Remaining(now) == line
      && (Retains(now, history + line) <==> |line| > ROTATE_BYTES || history == [])
  {
    var now := Rotate(Append(Rotate(f), line));
    assert Remaining(now) == [] + line + [];
    assert (history + line)[|history|..] == line;
    if |line| <= ROTATE_BYTES && history != [] {
      assert |history + line| > |line|;
    }
  }

  /** How far one append gets: the first file operation that fails, if any. A failing write leaves a
      prefix of the line behind. When the look at the journal's size fails, the append goes on without
      rotating. */
  datatype Fault =
    | NoFault | Directory | StatFails | OldGeneration | RenameFails | OpenFails | WriteFails(written: nat)

  ghost predicate Oversized(f: Files) { f.current.Some? && |f.current.value| > 33554432 }

  /** The fault keeps an oversized journal from being rotated. */
  ghost predicate Stops(fault: Fault) { fault in {Directory, StatFails, OldGeneration, RenameFails} }

  /** The journal is opened for the append. */
  ghost predicate Opened(f: Files, fault: Fault) {
    fault != Directory && fault != OpenFails && (fault in {OldGeneration, RenameFails} ==> !Oversized(f))
  }

  /** How much of the line reaches the file. */
  ghost function Written(f: Files, line: string, fault: Fault): (n: nat)
    ensures n <= |line|
  {
    if !Opened(f, fault) then 0 else if fault.WriteFails? then Min(fault.written, |line|) else |line|
  }

  class JournalFile {
    var files: Files
    ghost var history: string
    ghost var longest: nat
    ghost var unseen: nat

    /** The history is retained, and the journal is past the threshold by at most one line and what was
        appended without a look at its size. */
    ghost predicate Valid()
      reads this
    {
      Retains(files, history) && |Current(files)| <= ROTATE_BYTES + longest + unseen
    }

    constructor ()
      ensures Valid() && history == [] && longest == 0 && unseen == 0
    {
      files, history, longest, unseen := Files([], None), [], 0, 0;
    }

    /** `append_entry`, by one process at a time. */
    method AppendEntry(line: string, fault: Fault) returns (ok: bool)
      requires Valid()
      modifies this
      ensures Valid() && longest == Max(old(longest), |line|)
      ensures unseen == old(unseen) + if fault == StatFails then |line| else 0
      ensures ok <==> Opened(old(files), fault) && !fault.WriteFails?
      ensures history == old(history) + line[..Written(old(files), line, fault)]
      // The journal is rotated exactly when it is seen to be past the threshold and nothing is in the way.
      ensures files ==
        var from := if Oversized(old(files)) && !Stops(fault) then Rotate(old(files)) else old(files);
        if Opened(old(files), fault) then Append(from, line[..Written(old(files), line, fault)]) else from
      ensures ok && fault != StatFails ==> |Current(files)| <= 33554432 + |line|
    {
      hide Retains, Current, Append, Rotate, Remaining;
      ok := false;
      longest := Max(longest, |line|);
      unseen := unseen + if fault == StatFails then |line| else 0;
      assert history == history + line[..0] && line[..|line|] == line;
      if fault != Directory {
        Sizes(files, []);
        var rotated := true;
        if fault != StatFails && files.current.Some? && |files.current.value| > ROTATE_BYTES {
          if fault == OldGeneration || fault == RenameFails {
            rotated := false;
          } else {
            RotateRetains(files, history);
            files := Rotate(files);
          }
        }
        if rotated && fault != OpenFails {
          ok := !fault.WriteFails?;
          var written := if fault.WriteFails? then line[..Min(fault.written, |line|)] else line;
          assert |written| <= |line|;
          AppendRetains(files, history, written);
          Sizes(files, written);
          files, history := Append(files, written), history + written;
        }
      }
    }

    /** Any run of appends, whatever fails on the way: the journal and its kept generation hold the end
        of everything ever written, all of it or more than the threshold, and the journal is never past the
        threshold by more than the longest line and what was appended without a look at its size. */
    method AppendAll(lines: seq<string>, faults: seq<Fault>)
      requires Valid() && |faults| == |lines|
      modifies this
      ensures Valid() && old(history) <= history && LongestOf(lines, old(longest), longest)
      ensures StatFails !in faults ==> unseen == old(unseen)
      ensures (forall f :: f in faults ==> f == NoFault) ==> history == old(history) + Concat(lines)
    {
      hide Concat, Retains, Current, LongestOf;
      ConcatNothing(lines);
      NothingLongest(lines, longest);
      for i := 0 to |lines|
        invariant Valid() && old(history) <= history && LongestOf(lines[..i], old(longest), longest)
        invariant StatFails !in faults ==> unseen == old(unseen)
        invariant (forall f :: f in faults ==> f == NoFault) ==> history == old(history) + Concat(lines[..i])
      {
        assert faults[i] in faults;
        ghost var before := longest;
        var _ := AppendEntry(lines[i], faults[i]);
        ConcatPush(old(history), lines, i);
        LongestPush(lines, i, old(longest), before);
      }
      assert lines[..|lines|] == lines;
    }
  }

  /** `longest` is the longest of `before` and the lengths of the lines. */
  ghost predicate LongestOf(lines: seq<string>, before: nat, longest: nat) {
    && before <= longest && (longest == before || exists l :: l in lines && |l| == longest)
    && forall l :: l in lines ==> |l| <= longest
  }

  lemma NothingLongest(lines: seq<string>, before: nat)
    ensures LongestOf(lines[..0], before, before)
  {
  }

  lemma LongestPush(lines: seq<string>, i: nat, before: nat, longest: nat)
    requires i < |lines| && LongestOf(lines[..i], before, longest)
    ensures LongestOf(lines[..i + 1], before, Max(longest, |lines[i]|))
  {
    assert lines[..i + 1] == lines[..i] + [lines[i]];
    assert lines[i] in lines[..i + 1];
  }

  lemma ConcatNothing(lines: seq<string>)
    ensures Concat(lines[..0]) == []
  {
  }

  lemma ConcatPush(before: string, lines: seq<string>, i: nat)
    requires i < |lines|
    ensures before + Concat(lines[..i]) + lines[i] == before + Concat(lines[..i + 1])
  {
    assert lines[..i + 1][..i] == lines[..i];
  }

  function Concat(lines: seq<string>): string {
    if lines == [] then [] else Concat(lines[..|lines| - 1]) + lines[|lines| - 1]
  }
}
