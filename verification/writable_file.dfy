/** db/env.h:100-151: the buffered writer. */
module WritableFiles {
  import opened Bytes

  const MAX_BUFFER_SIZE: nat := 1024

  datatype Status = OK | IOError

  // ----- write(2)

  /** What one call of write(2) does: accepts at most so many bytes, or fails. */
  datatype Outcome = Wrote(n: nat) | Failed

  /** A run of WriteToFile's loop: which bytes of the data were accepted, by position, the offset, how many
      calls failed, whether one failed at offset 0, and the calls of write(2) still to come. */
  datatype WriteRun = WriteRun(positions: seq<nat>, offset: nat, failures: nat, lost: bool, rest: seq<Outcome>)

  function Start(outcomes: seq<Outcome>): WriteRun { WriteRun([], 0, 0, false, outcomes) }

  function Positions(from: nat, to: nat): (r: seq<nat>)
    requires from <= to
    ensures |r| == to - from && forall i :: 0 <= i < |r| ==> r[i] == from + i
  {
    seq(to - from, i requires 0 <= i => from + i)
  }

  /** How many of `n` bytes offered a call that does not fail accepts; beyond those listed, all. */
  function Accepted(n: nat, outcomes: seq<Outcome>): (r: nat)
    requires outcomes != [] ==> outcomes[0].Wrote?
    ensures r <= n
  {
    if outcomes != [] && outcomes[0].n < n then outcomes[0].n else n
  }

  /** The loop body, env.h:138-145, with `n` bytes to write. A failing call returns (size_t)-1, which is not
      below 0 and is added to the offset. */
  function WriteStep(n: nat, run: WriteRun): WriteRun
    requires run.offset < n
  {
    var rest := if run.rest == [] then [] else run.rest[1..];
    if run.rest != [] && run.rest[0].Failed? then
      WriteRun(run.positions, (run.offset + DWORD_SIZE - 1) % DWORD_SIZE, run.failures + 1, run.offset == 0, rest)
    else
      var next := run.offset + Accepted(n - run.offset, run.rest);
      run.(positions := run.positions + Positions(run.offset, next), offset := next, rest := rest)
  }

  /** env.h:137-149 */
  function Writes(n: nat, run: WriteRun): WriteRun
    decreases |run.rest|, n - run.offset
  {
    if run.offset < n then Writes(n, WriteStep(n, run)) else run
  }

  function At(data: Str, positions: seq<nat>): (r: Str)
    requires forall i :: 0 <= i < |positions| ==> positions[i] < |data|
    ensures |r| == |positions|
  {
    seq(|positions|, i requires 0 <= i < |positions| => data[positions[i]])
  }

  predicate InOrder(positions: seq<nat>, n: nat)
  {
    |positions| == n && forall i :: 0 <= i < n ==> positions[i] == i
  }

  predicate OutOfOrder(positions: seq<nat>)
  {
    exists i :: 0 <= i < |positions| && positions[i] != i
  }

  predicate Within(positions: seq<nat>, n: nat)
  {
    forall i :: 0 <= i < |positions| ==> positions[i] < n
  }

  predicate Accounted(n: nat, run: WriteRun)
  {
    && Within(run.positions, n)
    && (run.failures == 0 ==> !run.lost && run.offset <= n && InOrder(run.positions, run.offset))
    && (run.failures > 0 ==> |run.positions| < n || OutOfOrder(run.positions))
    && (run.lost ==> run.offset == DWORD_SIZE - 1 && (run.failures == 1 ==> run.positions == []))
    && (!run.lost ==> run.offset <= n && |run.positions| == run.offset + run.failures)
  }

  lemma StepAccounted(n: nat, run: WriteRun)
    requires n < INT_LIMIT && run.offset < n && Accounted(n, run)
    ensures Accounted(n, WriteStep(n, run))
  {
    var step := WriteStep(n, run);
    assert run.positions <= step.positions;
    if step.failures > 0 && |step.positions| >= n {
      if OutOfOrder(run.positions) {
        var i :| 0 <= i < |run.positions| && run.positions[i] != i;
        assert step.positions[i] != i;
      } else {
        assert step.positions[|run.positions|] == run.offset;
      }
    }
  }

  lemma {:induction false} WritesAccounted(n: nat, run: WriteRun)
    requires n < INT_LIMIT && Accounted(n, run)
    ensures Accounted(n, Writes(n, run)) && Writes(n, run).offset >= n
    decreases |run.rest|, n - run.offset
  {
    hide Accounted;
    if run.offset < n {
      StepAccounted(n, run);
      WritesAccounted(n, WriteStep(n, run));
    }
  }

  /** What was taken from the list has no failure in it if and only if none was counted. */
  lemma {:induction false} CallsMade(n: nat, run: WriteRun)
    ensures var end := Writes(n, run);
            && |end.rest| <= |run.rest| && end.rest == run.rest[|run.rest| - |end.rest|..]
            && end.failures >= run.failures
            && (end.failures == run.failures <==> Failed !in run.rest[..|run.rest| - |end.rest|])
    decreases |run.rest|, n - run.offset
  {
    hide WriteStep;
    if run.offset < n {
      var step, end := WriteStep(n, run), Writes(n, run);
      StepCalls(n, run);
      CallsMade(n, step);
      if run.rest != [] {
        assert run.rest[..|run.rest| - |end.rest|] == [run.rest[0]] + step.rest[..|step.rest| - |end.rest|];
      }
    }
  }

  lemma StepCalls(n: nat, run: WriteRun)
    requires run.offset < n
    ensures var step := WriteStep(n, run);
            if run.rest == [] then step.rest == [] && step.failures == run.failures && step.offset == n
            else step.rest == run.rest[1..] && step.failures == run.failures + if run.rest[0].Failed? then 1 else 0
  {}

  /** The bytes WriteToFile gets into the file, whatever each call of write(2) does. */
  function Written(data: Str, outcomes: seq<Outcome>): (r: Str)
    requires HasSize(data)
  {
    WritesAccounted(SliceSize(|data|), Start(outcomes));
    At(data, Writes(SliceSize(|data|), Start(outcomes)).positions)
  }

  /** A list of positions gives back every sequence of length `n` only if it is 0 to n - 1. */
  lemma Distinguished(n: nat, positions: seq<nat>)
    requires Within(positions, n)
    ensures (forall data: Str :: |data| == n ==> At(data, positions) == data) <==> InOrder(positions, n)
  {
    if !InOrder(positions, n) {
      if |positions| != n {
        var data: Str := seq(n, _ => 0);
        assert |At(data, positions)| != n;
      } else {
        var i :| 0 <= i < n && positions[i] != i;
        var data: Str := seq(n, j => if j == i then 1 else 0);
        assert At(data, positions)[i] != data[i];
      }
    }
  }

  /** For every length and every way the calls of write(2) can go: WriteToFile writes every data of that
      length as it is, if and only if the length is what size() says and no call made failed. It returns OK
      in any case. */
  lemma WrittenExactly(n: nat, outcomes: seq<Outcome>)
    requires SliceSize(n) >= 0
    ensures var rest := Writes(SliceSize(n), Start(outcomes)).rest;
            && |rest| <= |outcomes|
            && ((forall data :: |data| == n ==> Written(data, outcomes) == data)
                <==> n < INT_LIMIT && Failed !in outcomes[..|outcomes| - |rest|])
  {
    hide Writes, At;
    var size, start := SliceSize(n), Start(outcomes);
    WritesAccounted(size, start);
    CallsMade(size, start);
    var run := Writes(size, start);
    Distinguished(n, run.positions);
    if forall data :: |data| == n ==> Written(data, outcomes) == data {
      forall data: Str | |data| == n ensures At(data, run.positions) == data {
        assert Written(data, outcomes) == data;
      }
    }
  }

  /** The same for given data, in runs in which at most one call failed or none at offset 0. Each failure past
      offset 0 puts one byte too many in the file. */
  lemma WrittenOften(data: Str, outcomes: seq<Outcome>)
    requires HasSize(data)
    ensures var run := Writes(SliceSize(|data|), Start(outcomes));
            && (!run.lost || run.failures <= 1 ==> (Written(data, outcomes) == Cut(data) <==> run.failures == 0))
            && (!run.lost ==> |Written(data, outcomes)| == |Cut(data)| + run.failures)
  {
    hide Writes;
    WritesAccounted(SliceSize(|data|), Start(outcomes));
  }

  lemma TurnFails(n: nat, run: WriteRun, rest: seq<Outcome>)
    requires run.offset < n < DWORD_SIZE && run.rest == [Failed] + rest
    ensures Writes(n, run) ==
            Writes(n, if run.offset == 0 then WriteRun(run.positions, DWORD_SIZE - 1, run.failures + 1, true, rest)
                      else WriteRun(run.positions, run.offset - 1, run.failures + 1, false, rest))
  {}

  lemma TurnWrites(n: nat, run: WriteRun, k: nat, rest: seq<Outcome>)
    requires run.offset + k <= n && run.offset < n && run.rest == [Wrote(k)] + rest
    ensures var positions := run.positions + Positions(run.offset, run.offset + k);
            Writes(n, run) == Writes(n, run.(positions := positions, offset := run.offset + k, rest := rest))
  {}

  /** Of two bytes, the first call failing, nothing is written; failing after the first byte, that byte is
      written twice. */
  lemma FailuresUnnoticed()
    ensures Writes(2, Start([Failed])) == WriteRun([], DWORD_SIZE - 1, 1, true, [])
    ensures Writes(2, Start([Wrote(1), Failed, Wrote(2)])) == WriteRun([0, 0, 1], 2, 1, false, [])
  {
    hide WriteStep;
    TurnFails(2, Start([Failed]), []);
    TurnWrites(2, Start([Wrote(1), Failed, Wrote(2)]), 1, [Failed, Wrote(2)]);
    assert [] + Positions(0, 1) == [0] && [0] + Positions(0, 2) == [0, 0, 1];
    TurnFails(2, WriteRun([0], 1, 0, false, [Failed, Wrote(2)]), [Wrote(2)]);
    TurnWrites(2, WriteRun([0], 0, 1, false, [Wrote(2)]), 2, []);
  }

  /** Two more failures, and the first byte has been written twice and nothing else, which is right if the two
      bytes are equal. */
  lemma FailuresCancel()
    ensures Writes(2, Start([Wrote(1), Failed, Wrote(1), Failed, Failed])) ==
            WriteRun([0, 0], DWORD_SIZE - 1, 3, true, [])
  {
    hide WriteStep;
    TurnWrites(2, Start([Wrote(1), Failed, Wrote(1), Failed, Failed]), 1, [Failed, Wrote(1), Failed, Failed]);
    assert [] + Positions(0, 1) == [0] && [0] + Positions(0, 1) == [0, 0];
    TurnFails(2, WriteRun([0], 1, 0, false, [Failed, Wrote(1), Failed, Failed]), [Wrote(1), Failed, Failed]);
    TurnWrites(2, WriteRun([0], 0, 1, false, [Wrote(1), Failed, Failed]), 1, [Failed, Failed]);
    TurnFails(2, WriteRun([0, 0], 1, 1, false, [Failed, Failed]), [Failed]);
    TurnFails(2, WriteRun([0, 0], 0, 2, false, [Failed]), []);
  }

  // ----- the file and its buffer

  datatype FileState = FileState(file: Str, buffered: Str, outcomes: seq<Outcome>)

  /** What the file will hold. */
  function Logical(st: FileState): Str { st.file + st.buffered }

  predicate Healthy(st: FileState) { Failed !in st.outcomes }

  function WriteAll(st: FileState, data: Str): FileState
    requires HasSize(data)
  {
    st.(file := st.file + Written(data, st.outcomes), outcomes := Writes(SliceSize(|data|), Start(st.outcomes)).rest)
  }

  function Flushed(st: FileState): FileState
    requires |st.buffered| <= MAX_BUFFER_SIZE
  {
    if |st.buffered| > 0 then WriteAll(st, st.buffered).(buffered := []) else st
  }

  /** env.h:112 adds two ints: the size must not be negative, nor the sum overflow. */
  predicate Appendable(buffered: nat, data: Str)
  {
    0 <= SliceSize(|data|) < INT_LIMIT - buffered
  }

  function Appended(st: FileState, data: Str): FileState
    requires |st.buffered| <= MAX_BUFFER_SIZE && Appendable(|st.buffered|, data)
  {
    if |st.buffered| + |Cut(data)| < MAX_BUFFER_SIZE then st.(buffered := st.buffered + Cut(data))
    else if |Cut(data)| > MAX_BUFFER_SIZE then WriteAll(Flushed(st), data)
    else Flushed(st).(buffered := Cut(data))
  }

  lemma WrittenHealthy(st: FileState, data: Str)
    requires Healthy(st) && HasSize(data)
    ensures Healthy(WriteAll(st, data)) && WriteAll(st, data).file == st.file + Cut(data)
  {
    hide Writes;
    CallsMade(SliceSize(|data|), Start(st.outcomes));
    WrittenOften(data, st.outcomes);
    WritesAccounted(SliceSize(|data|), Start(st.outcomes));
  }

  lemma FlushedHealthy(st: FileState)
    requires Healthy(st) && |st.buffered| <= MAX_BUFFER_SIZE
    ensures Healthy(Flushed(st)) && Flushed(st).buffered == [] && Flushed(st).file == Logical(st)
  {
    if |st.buffered| > 0 {
      WrittenHealthy(st, st.buffered);
    }
  }

  /** As long as no write fails, appending adds the first size() bytes, which are all of them exactly when
      there are fewer than 2^31. */
  lemma AppendedExactly(st: FileState, data: Str)
    requires Healthy(st) && |st.buffered| <= MAX_BUFFER_SIZE && Appendable(|st.buffered|, data)
    ensures Healthy(Appended(st, data)) && |Appended(st, data).buffered| <= MAX_BUFFER_SIZE
    ensures Logical(Appended(st, data)) == Logical(st) + Cut(data) == Logical(st) + data[..|data| % WORD_SIZE]
    ensures Logical(Appended(st, data)) == Logical(st) + data <==> |data| < INT_LIMIT
  {
    hide Written, Writes;
    FlushedHealthy(st);
    WrittenHealthy(Flushed(st), data);
    var added := Cut(data);
    assert Logical(Appended(st, data)) == Logical(st) + added;
    assert |Logical(st) + data| == |Logical(st)| + |data|;
  }

  /** ... and where they end up: what fits below 1024 bytes stays in the buffer, what does not sends the buffer to
      the file, and more than 1024 bytes at once follow it there. */
  lemma AppendedWhere(st: FileState, data: Str)
    requires Healthy(st) && |st.buffered| <= MAX_BUFFER_SIZE && Appendable(|st.buffered|, data)
    ensures Appended(st, data).file ==
            if |st.buffered| + |Cut(data)| < 1024 then st.file
            else if |Cut(data)| <= 1024 then st.file + st.buffered
            else st.file + st.buffered + Cut(data)
  {
    hide Written, Writes;
    FlushedHealthy(st);
    WrittenHealthy(Flushed(st), data);
  }

  lemma Joined(buffer: Str, before: Str, data: Str)
    requires |before| + |data| <= |buffer|
    requires buffer[..|before|] == before && buffer[|before|..|before| + |data|] == data
    ensures buffer[..|before| + |data|] == before + data
  {}

  class WritableFile {
    const buffer: array<byte>
    var has_buffer_size: nat
    ghost var file: Str    // what write(2) has accepted so far
    var outcomes: seq<Outcome>    // what the next calls of write(2) will do

    ghost predicate Valid()
      reads this
    {
      buffer.Length == MAX_BUFFER_SIZE && has_buffer_size <= MAX_BUFFER_SIZE
    }

    ghost function State(): (st: FileState)
      requires Valid()
      reads this, buffer
      ensures |st.buffered| == has_buffer_size
    {
      FileState(file, buffer[..has_buffer_size], outcomes)
    }

    /** The buffer starts empty; env.h:199 leaves its size unset. */
    constructor (outcomes: seq<Outcome>)
      ensures Valid() && State() == FileState([], [], outcomes) && fresh(buffer)
    {
      buffer := new byte[MAX_BUFFER_SIZE];
      has_buffer_size, file, this.outcomes := 0, [], outcomes;
    }

    method Append(data: Str) returns (s: Status)
      requires Valid() && Appendable(has_buffer_size, data)
      modifies this, buffer
      ensures Valid() && s == OK && State() == Appended(old(State()), data)
      ensures Healthy(old(State())) ==> Healthy(State()) && Logical(State()) == old(Logical(State())) + Cut(data)
    {
      hide Written, Writes, Flushed, WriteAll;
      if Healthy(State()) {
        AppendedExactly(State(), data);
      }
      var size := SliceSize(|data|);
      if has_buffer_size + size < MAX_BUFFER_SIZE {
        ghost var before := buffer[..has_buffer_size];
        CopyIn(data[..size], has_buffer_size);
        Joined(buffer[..], before, data[..size]);
        has_buffer_size := has_buffer_size + size;
        return OK;
      }
      var flushed := FlushBuffer();
      s := AppendToEmpty(data, size);
    }

    /** env.h:118-123 */
    method AppendToEmpty(data: Str, size: nat) returns (s: Status)
      requires Valid() && has_buffer_size == 0 && size == SliceSize(|data|)
      modifies this, buffer
      ensures Valid() && s == OK
      ensures State() ==
              if size > MAX_BUFFER_SIZE then WriteAll(old(State()), data) else old(State()).(buffered := Cut(data))
    {
      hide Written, Writes;
      if size > MAX_BUFFER_SIZE {
        s := WriteToFile(data);
        return s;
      }
      CopyIn(data[..size], 0);
      Joined(buffer[..], [], data[..size]);
      has_buffer_size := size;
      s := OK;
    }

    /** memcpy into the buffer. */
    method CopyIn(data: Str, at: nat)
      requires at + |data| <= buffer.Length
      modifies buffer
      ensures buffer[..at] == old(buffer[..at]) && buffer[at..at + |data|] == data
    {
      for i := 0 to |data|
        invariant buffer[..at] == old(buffer[..at]) && buffer[at..at + i] == data[..i]
      {
        buffer[at + i] := data[i];
        assert buffer[at..at + i + 1] == buffer[at..at + i] + [data[i]];
      }
    }

    /** Flushing moves bytes; while no write fails, what the file will hold is as before. */
    method FlushBuffer() returns (s: Status)
      requires Valid()
      modifies this, buffer
      ensures Valid() && has_buffer_size == 0 && State() == Flushed(old(State()))
      ensures s == if old(has_buffer_size) > 0 then OK else IOError
      ensures Healthy(old(State())) ==> Healthy(State()) && Logical(State()) == old(Logical(State())) == file
    {
      hide Written, Writes;
      ghost var st := State();
      if has_buffer_size > 0 {
        s := WriteToFile(buffer[..has_buffer_size]);
        has_buffer_size := 0;
        for i := 0 to MAX_BUFFER_SIZE
          modifies buffer
        {
          buffer[i] := 0;
        }
      } else {
        s := IOError;
      }
      if Healthy(st) {
        FlushedHealthy(st);
      }
    }

    /** One call of write(2). */
    method Write(data: Str) returns (write_size: nat)
      modifies this`file, this`outcomes
      ensures outcomes == if old(outcomes) == [] then [] else old(outcomes)[1..]
      ensures var failed := old(outcomes) != [] && old(outcomes)[0].Failed?;
              && (failed ==> write_size == DWORD_SIZE - 1 && file == old(file))
              && (!failed ==> write_size == Accepted(|data|, old(outcomes)) && file == old(file) + data[..write_size])
    {
      if outcomes != [] && outcomes[0].Failed? {
        write_size := DWORD_SIZE - 1;
      } else {
        write_size := Accepted(|data|, outcomes);
        file := file + data[..write_size];
      }
      outcomes := if outcomes == [] then [] else outcomes[1..];
    }

    method WriteToFile(data: Str) returns (s: Status)
      requires HasSize(data)
      modifies this`file, this`outcomes
      ensures s == OK && file == old(file) + Written(data, old(outcomes))
      ensures outcomes == Writes(SliceSize(|data|), Start(old(outcomes))).rest
    {
      hide Accounted, WriteStep, At, Accepted;
      var size, offset := SliceSize(|data|), 0;
      ghost var run := Start(outcomes);
      StartAccounted(size, outcomes);
      while offset < size
        invariant run.offset == offset && run.rest == outcomes && Accounted(size, run)
        invariant Writes(size, run) == Writes(size, Start(old(outcomes)))
        invariant Within(run.positions, |data|) && file == old(file) + At(data, run.positions)
        decreases |outcomes|, size - offset
      {
        StepAccounted(size, run);
        StepBytes(data, size, run);
        var write_size := Write(data[offset..size]);
        offset := (offset + write_size) % DWORD_SIZE;
        run := WriteStep(size, run);
        if offset >= size {
          break;
        }
      }
      s := OK;
    }
  }

  /** What one turn of the loop adds to the file, and where it leaves the offset. */
  lemma StepBytes(data: Str, n: nat, run: WriteRun)
    requires run.offset < n <= |data| && n < INT_LIMIT && Accounted(n, run)
    ensures var step, failed := WriteStep(n, run), run.rest != [] && run.rest[0].Failed?;
            var size := if failed then DWORD_SIZE - 1 else Accepted(n - run.offset, run.rest);
            && Within(run.positions, |data|) && Within(step.positions, |data|)
            && At(data, step.positions) ==
               At(data, run.positions) + (if failed then [] else data[run.offset..n][..size])
            && step.offset == (run.offset + size) % DWORD_SIZE
            && step.rest == (if run.rest == [] then [] else run.rest[1..])
            && (run.rest == [] ==> step.offset == n)
  {
    StepAccounted(n, run);
  }

  lemma StartAccounted(n: nat, outcomes: seq<Outcome>)
    ensures Accounted(n, Start(outcomes))
  {}
}
