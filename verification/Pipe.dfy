/**
 * fs/pipe.c: the ring buffer of a pipe and the life of its two ends.
 *
 * A call that would sleep is one attempt ending in Sleep; the kernel repeats
 * the attempt after a wake-up, so a run is a sequence of attempts.
 */
module Pipe {

  const PIPE_SIZE := 1024

  datatype ReadResult = Bytes(data: seq<bv8>) | Eof | ReadAgain | ReadRestart | ReadSleep
  datatype WriteResult = Wrote(n: nat) | BrokenPipe | WriteAgain | WriteRestart | WriteSleep

  datatype End = ReadEnd | WriteEnd

  datatype Op =
    | DoRead(count: nat, nonblock: bool, woken: bool, signalled: bool)
    | DoWrite(data: seq<bv8>, nonblock: bool, woken: bool, signalled: bool)
    | Dup(end: End)
    | Close(end: End)

  function Wrap(i: nat): nat {
    if i < PIPE_SIZE then i else i - PIPE_SIZE
  }

  /** The n bytes of the ring that start at index tail. */
  ghost function Ring(buf: seq<bv8>, tail: nat, n: nat): (s: seq<bv8>)
    requires |buf| == PIPE_SIZE && tail < PIPE_SIZE && n <= PIPE_SIZE
    ensures |s| == n
  {
    seq(n, i requires 0 <= i < n => buf[Wrap(tail + i)])
  }

  /** Advancing tail by k drops the k oldest bytes. */
  lemma RingDrop(buf: seq<bv8>, tail: nat, n: nat, k: nat)
    requires |buf| == PIPE_SIZE && tail < PIPE_SIZE && k <= n <= PIPE_SIZE
    ensures Ring(buf, Wrap(tail + k), n - k) == Ring(buf, tail, n)[k..]
  {
    var rest, all := Ring(buf, Wrap(tail + k), n - k), Ring(buf, tail, n)[k..];
    forall i | 0 <= i < n - k ensures rest[i] == all[i] {
      assert Wrap(Wrap(tail + k) + i) == Wrap(tail + (k + i));
    }
    assert rest == all;
  }

  /** Storing at head appends one byte and leaves the older ones. */
  lemma RingPut(buf: seq<bv8>, tail: nat, n: nat, x: bv8)
    requires |buf| == PIPE_SIZE && tail < PIPE_SIZE && n < PIPE_SIZE
    ensures Ring(buf[Wrap(tail + n) := x], tail, n + 1) == Ring(buf, tail, n) + [x]
  {
    var after, before := Ring(buf[Wrap(tail + n) := x], tail, n + 1), Ring(buf, tail, n) + [x];
    forall i | 0 <= i <= n ensures after[i] == before[i] {
      if i < n {
        assert Wrap(tail + i) != Wrap(tail + n);
      }
    }
    assert after == before;
  }

  // ------------------------------------------------------------------
  // The reference: a bounded queue and the references to its two ends

  datatype Fifo = Fifo(bytes: seq<bv8>, refs: map<End, nat>)

  /** What a call reports; NotOpen when nobody holds the end it needs. */
  datatype Result = Read(r: ReadResult) | Write(w: WriteResult) | Done | NotOpen

  function Refs(q: Fifo, end: End): nat {
    if end in q.refs then q.refs[end] else 0
  }

  function Least(a: nat, b: nat): nat {
    if a < b then a else b
  }

  /** A signal wins over everything after a sleep, and over sleeping before one. */
  function ReadOutcome(q: Fifo, count: nat, nonblock: bool, woken: bool, signalled: bool): ReadResult {
    if woken && signalled then ReadRestart
    else if q.bytes != [] then Bytes(q.bytes[..Least(count, |q.bytes|)])
    else if Refs(q, WriteEnd) == 0 then Eof
    else if nonblock then ReadAgain
    else if signalled then ReadRestart
    else ReadSleep
  }

  function WriteOutcome(q: Fifo, size: nat, nonblock: bool, woken: bool, signalled: bool): WriteResult {
    if woken && signalled then WriteRestart
    else if Refs(q, ReadEnd) == 0 then BrokenPipe
    else if |q.bytes| < PIPE_SIZE then Wrote(Least(size, PIPE_SIZE - |q.bytes|))
    else if nonblock then WriteAgain
    else if signalled then WriteRestart
    else WriteSleep
  }

  function Answer(q: Fifo, op: Op): Result {
    match op
    case DoRead(count, nonblock, woken, signalled) =>
      if Refs(q, ReadEnd) == 0 then NotOpen else Read(ReadOutcome(q, count, nonblock, woken, signalled))
    case DoWrite(data, nonblock, woken, signalled) =>
      if Refs(q, WriteEnd) == 0 then NotOpen else Write(WriteOutcome(q, |data|, nonblock, woken, signalled))
    case Dup(end) => if Refs(q, end) == 0 then NotOpen else Done
    case Close(end) => if Refs(q, end) == 0 then NotOpen else Done
  }

  /** The bytes a call took out of the queue, and those it put in. */
  function Taken(ans: Result): seq<bv8> {
    if ans.Read? && ans.r.Bytes? then ans.r.data else []
  }

  function Given(op: Op, ans: Result): seq<bv8> {
    if op.DoWrite? && ans.Write? && ans.w.Wrote? && ans.w.n <= |op.data| then op.data[..ans.w.n] else []
  }

  function Next(q: Fifo, op: Op): Fifo {
    var ans := Answer(q, op);
    match op
    case DoRead(_, _, _, _) => q.(bytes := q.bytes[Least(|Taken(ans)|, |q.bytes|)..])
    case DoWrite(_, _, _, _) => q.(bytes := q.bytes + Given(op, ans))
    case Dup(end) => if ans == NotOpen then q else q.(refs := q.refs[end := Refs(q, end) + 1])
    case Close(end) => if ans == NotOpen then q else q.(refs := q.refs[end := Refs(q, end) - 1])
  }

  /** The queue after a sequence of calls, and what each of them reported. */
  function After(q: Fifo, ops: seq<Op>): Fifo {
    if ops == [] then q else Next(After(q, ops[..|ops| - 1]), ops[|ops| - 1])
  }

  function Answers(q: Fifo, ops: seq<Op>): (out: seq<Result>)
    ensures |out| == |ops|
  {
    if ops == [] then []
    else Answers(q, ops[..|ops| - 1]) + [Answer(After(q, ops[..|ops| - 1]), ops[|ops| - 1])]
  }

  function AllTaken(out: seq<Result>): seq<bv8> {
    if out == [] then [] else AllTaken(out[..|out| - 1]) + Taken(out[|out| - 1])
  }

  function AllGiven(ops: seq<Op>, out: seq<Result>): seq<bv8>
    requires |out| == |ops|
  {
    if ops == [] then []
    else AllGiven(ops[..|ops| - 1], out[..|ops| - 1]) + Given(ops[|ops| - 1], out[|ops| - 1])
  }

  /** One call moves bytes through the queue in order and loses none. */
  lemma OneCall(q: Fifo, op: Op)
    requires |q.bytes| <= PIPE_SIZE
    ensures q.bytes + Given(op, Answer(q, op)) == Taken(Answer(q, op)) + Next(q, op).bytes
    ensures |Next(q, op).bytes| <= PIPE_SIZE
  {
  }

  /** Over any run: what was in the queue and what the writes accepted is what the reads returned and what is left. */
  lemma {:induction false} InOrder(q: Fifo, ops: seq<Op>)
    requires |q.bytes| <= PIPE_SIZE
    ensures q.bytes + AllGiven(ops, Answers(q, ops)) == AllTaken(Answers(q, ops)) + After(q, ops).bytes
    ensures |After(q, ops).bytes| <= PIPE_SIZE
  {
    if ops == [] {
    } else {
      var init, op := ops[..|ops| - 1], ops[|ops| - 1];
      var mid, out := After(q, init), Answers(q, ops);
      InOrder(q, init);
      OneCall(mid, op);
      assert out[..|ops| - 1] == Answers(q, init);
      var given, taken := AllGiven(init, Answers(q, init)), AllTaken(Answers(q, init));
      Chain(q.bytes, given, taken, mid.bytes, Given(op, Answer(mid, op)), Taken(Answer(mid, op)), Next(mid, op).bytes);
    }
  }

  lemma Chain(a: seq<bv8>, in0: seq<bv8>, out0: seq<bv8>, b: seq<bv8>, in1: seq<bv8>, out1: seq<bv8>, c: seq<bv8>)
    requires a + in0 == out0 + b && b + in1 == out1 + c
    ensures a + (in0 + in1) == (out0 + out1) + c
  {
    assert a + (in0 + in1) == (a + in0) + in1 == out0 + (b + in1) == (out0 + out1) + c;
  }

  class Pipe {
    const buf: array<bv8>
    var head: nat
    var tail: nat
    var len: nat
    var readers: nat
    var writers: nat
    var refs: map<End, nat>         // refcount of the struct file of each end
    ghost var frees: nat            // how often kfree was called on the pipe

    ghost predicate RingOk()
      reads this, buf
    {
      && buf.Length == PIPE_SIZE && head < PIPE_SIZE && tail < PIPE_SIZE && len <= PIPE_SIZE
      && head == Wrap(tail + len)
    }

    /** An end is open while its file has references; the pipe is freed when both are gone. */
    ghost predicate EndsOk()
      reads this
    {
      && refs.Keys == {ReadEnd, WriteEnd}
      && readers == (if refs[ReadEnd] > 0 then 1 else 0)
      && writers == (if refs[WriteEnd] > 0 then 1 else 0)
      && frees == (if readers == 0 && writers == 0 then 1 else 0)
    }

    ghost predicate Valid()
      reads this, buf
    {
      RingOk() && EndsOk()
    }

    /** The queue this pipe stands for. */
    ghost function Abs(): Fifo
      requires RingOk()
      reads this, buf
    {
      Fifo(Ring(buf[..], tail, len), refs)
    }

    constructor ()
      ensures Valid() && fresh(buf) && Abs() == Fifo([], map[ReadEnd := 1, WriteEnd := 1]) && frees == 0
    {
      buf := new bv8[PIPE_SIZE](_ => 0);
      head, tail, len := 0, 0, 0;
      readers, writers := 1, 1;
      refs := map[ReadEnd := 1, WriteEnd := 1];
      frees := 0;
    }

    /**
     * One attempt of pipe_read by a holder of the read end; woken says that the
     * attempt follows a sleep, after which a pending signal wins over data.
     */
    method Read(count: nat, nonblock: bool, woken: bool, signalled: bool) returns (r: ReadResult)
      requires Valid() && refs[ReadEnd] > 0
      modifies this`tail, this`len
      ensures Valid() && r == ReadOutcome(old(Abs()), count, nonblock, woken, signalled)
      ensures Abs() == Next(old(Abs()), DoRead(count, nonblock, woken, signalled))
    {
      if woken && signalled {
        return ReadRestart;
      }
      if len == 0 {
        if writers == 0 {
          return Eof;
        }
        if nonblock {
          return ReadAgain;
        }
        return if signalled then ReadRestart else ReadSleep;
      }
      var n := if count > len then len else count;
      var data := Drain(n);
      return Bytes(data);
    }

    /** The copy loop of pipe_read. */
    method Drain(n: nat) returns (data: seq<bv8>)
      requires RingOk() && n <= len
      modifies this`tail, this`len
      ensures RingOk() && old(Ring(buf[..], tail, len)) == data + Ring(buf[..], tail, len) && |data| == n
    {
      ghost var ring, start := Ring(buf[..], tail, len), tail;
      data := [];
      var i := 0;
      while i < n
        invariant 0 <= i <= n && tail == Wrap(start + i)
        invariant data == ring[..i]
        modifies this`tail
      {
        assert buf[tail] == ring[i] && ring[..i] + [ring[i]] == ring[..i + 1];
        data := data + [buf[tail]];
        tail := tail + 1;
        if tail == PIPE_SIZE {
          tail := 0;
        }
        i := i + 1;
      }
      len := len - n;
      RingDrop(buf[..], start, old(len), n);
      assert ring == data + ring[n..];
    }

    /** One attempt of pipe_write by a holder of the write end. */
    method Write(data: seq<bv8>, nonblock: bool, woken: bool, signalled: bool) returns (r: WriteResult)
      requires Valid() && refs[WriteEnd] > 0
      modifies this`head, this`len, buf
      ensures Valid() && r == WriteOutcome(old(Abs()), |data|, nonblock, woken, signalled)
      ensures Abs() == Next(old(Abs()), DoWrite(data, nonblock, woken, signalled))
    {
      if woken && signalled {
        return WriteRestart;
      }
      if readers == 0 {
        return BrokenPipe;
      }
      if len == PIPE_SIZE {
        if nonblock {
          return WriteAgain;
        }
        return if signalled then WriteRestart else WriteSleep;
      }
      var n := if |data| > PIPE_SIZE - len then PIPE_SIZE - len else |data|;
      Fill(data, n);
      return Wrote(n);
    }

    /** The copy loop of pipe_write. */
    method Fill(data: seq<bv8>, n: nat)
      requires RingOk() && n <= |data| && len + n <= PIPE_SIZE
      modifies this`head, this`len, buf
      ensures RingOk() && Ring(buf[..], tail, len) == old(Ring(buf[..], tail, len)) + data[..n]
    {
      ghost var ring := Ring(buf[..], tail, len);
      var i := 0;
      while i < n
        invariant 0 <= i <= n && head == Wrap(tail + len + i)
        invariant Ring(buf[..], tail, len + i) == ring + data[..i]
        modifies this`head, buf
      {
        RingPut(buf[..], tail, len + i, data[i]);
        assert ring + data[..i] + [data[i]] == ring + data[..i + 1];
        ghost var after := buf[..][head := data[i]];
        buf[head] := data[i];
        assert buf[..] == after;
        head := head + 1;
        if head == PIPE_SIZE {
          head := 0;
        }
        i := i + 1;
      }
      len := len + n;
    }

    /** get_file: dup or fork shares an open end. */
    method GetFile(end: End)
      requires Valid() && refs[end] > 0
      modifies this`refs
      ensures Valid() && Abs() == Next(old(Abs()), Dup(end))
    {
      refs := refs[end := refs[end] + 1];
    }

    /** fput; the last reference calls pipe_release, and the release of the last end frees the pipe. */
    method Fput(end: End)
      requires Valid() && refs[end] > 0
      modifies this`refs, this`readers, this`writers, this`frees
      ensures Valid() && Abs() == Next(old(Abs()), Close(end))
      ensures frees == 1 <==> refs[ReadEnd] == 0 && refs[WriteEnd] == 0
    {
      refs := refs[end := refs[end] - 1];
      if refs[end] > 0 {
        return;
      }
      if end == ReadEnd {
        if readers > 0 {
          readers := readers - 1;
        }
      } else {
        if writers > 0 {
          writers := writers - 1;
        }
      }
      if readers == 0 && writers == 0 {
        frees := frees + 1;
      }
    }

    /** One call, passed over when nobody holds the end it needs. */
    method Perform(op: Op) returns (ans: Result)
      requires Valid()
      modifies this, buf
      ensures Valid() && ans == Answer(old(Abs()), op) && Abs() == Next(old(Abs()), op)
    {
      match op {
        case DoRead(count, nonblock, woken, signalled) =>
          if refs[ReadEnd] == 0 {
            return NotOpen;
          }
          var r := Read(count, nonblock, woken, signalled);
          return Result.Read(r);
        case DoWrite(data, nonblock, woken, signalled) =>
          if refs[WriteEnd] == 0 {
            return NotOpen;
          }
          var w := Write(data, nonblock, woken, signalled);
          return Result.Write(w);
        case Dup(end) =>
          assert end == ReadEnd || end == WriteEnd;
          if refs[end] == 0 {
            return NotOpen;
          }
          GetFile(end);
          return Done;
        case Close(end) =>
          assert end == ReadEnd || end == WriteEnd;
          if refs[end] == 0 {
            return NotOpen;
          }
          Fput(end);
          return Done;
      }
    }

    /** Any run of calls reports what the queue would report and ends as the queue would end. */
    method Run(ops: seq<Op>) returns (out: seq<Result>)
      requires Valid()
      modifies this, buf
      ensures Valid() && out == Answers(old(Abs()), ops) && Abs() == After(old(Abs()), ops)
      ensures old(Abs()).bytes + AllGiven(ops, out) == AllTaken(out) + Ring(buf[..], tail, len)
      ensures frees == 1 <==> Refs(Abs(), ReadEnd) == 0 && Refs(Abs(), WriteEnd) == 0
    {
      out := [];
      ghost var q := Abs();
      for i := 0 to |ops|
        invariant Valid() && out == Answers(q, ops[..i]) && Abs() == After(q, ops[..i])
      {
        var ans := Perform(ops[i]);
        out := out + [ans];
        assert ops[..i + 1][..i] == ops[..i];
      }
      assert ops[..|ops|] == ops;
      InOrder(q, ops);
    }
  }
}
