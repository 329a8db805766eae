/**
  pipe.c: a ring of PIPESIZE bytes between 32-bit counters that wrap, with
  readers and writers that sleep.  Every method is one stretch of execution
  under p->lock: from acquire, or from a wakeup, to release or sleep.
 */
module Pipe {
  import opened Common

  const PIPESIZE := 512

  // ------------------------------------------------------------ the promise

  /** A bounded queue, and who is asleep on &p->nread and on &p->nwrite. */
  datatype Queue = Queue(bytes: seq<Byte>, readopen: bool, writeopen: bool, readers: set<nat>, writers: set<nat>)

  datatype Outcome = Done | Asleep | Failed

  /** How many of n further bytes fit. */
  function Room(q: Queue, n: nat): int {
    Min(n, PIPESIZE - |q.bytes|)
  }

  /** One stretch of pipewrite with `src` still to be written. */
  function Put(q: Queue, pid: nat, src: seq<Byte>, killed: bool): Queue
    requires |q.bytes| <= PIPESIZE
  {
    var k := Room(q, |src|);
    var q' := q.(bytes := q.bytes + src[..k]);
    match PutOutcome(q, src, killed)
    case Done => q'.(readers := {})
    case Failed => q'
    case Asleep => q'.(readers := {}, writers := q.writers + {pid})
  }

  function PutOutcome(q: Queue, src: seq<Byte>, killed: bool): Outcome {
    if Room(q, |src|) == |src| then Done else if !q.readopen || killed then Failed else Asleep
  }

  /** One stretch of piperead asking for n bytes. */
  function Take(q: Queue, pid: nat, n: nat, killed: bool): Queue {
    match TakeOutcome(q, killed)
    case Failed => q
    case Asleep => q.(readers := q.readers + {pid})
    case Done => q.(bytes := q.bytes[Min(n, |q.bytes|)..], writers := {})
  }

  function TakeOutcome(q: Queue, killed: bool): Outcome {
    if q.bytes == [] && q.writeopen then (if killed then Failed else Asleep) else Done
  }

  /** What a stretch of piperead hands out. */
  function Taken(q: Queue, n: nat, killed: bool): seq<Byte> {
    if TakeOutcome(q, killed).Done? then q.bytes[..Min(n, |q.bytes|)] else []
  }

  /** pipeclose(). */
  function Close(q: Queue, writable: bool): Queue {
    if writable then q.(writeopen := false, readers := {}) else q.(readopen := false, writers := {})
  }

  /** kill() takes a process out of its sleep. */
  function Rouse(q: Queue, pid: nat): Queue {
    q.(readers := q.readers - {pid}, writers := q.writers - {pid})
  }

  // -------------------------------------------------------------- the ring

  /** 32-bit arithmetic. */
  function Wrap(n: nat): nat {
    n % UINT_LIMIT
  }

  function Index(n: nat): (i: nat)
    ensures i < PIPESIZE
  {
    n % PIPESIZE
  }

  ghost predicate Holds(data: seq<Byte>, total: nat, bytes: seq<Byte>, k: nat)
    requires |data| == PIPESIZE && k < |bytes|
  {
    data[Index(total + k)] == bytes[k]
  }

  /** The ring holds `bytes`, the first of them being byte number `total`. */
  ghost predicate Stored(data: seq<Byte>, total: nat, bytes: seq<Byte>) {
    |data| == PIPESIZE && |bytes| <= PIPESIZE && forall k: nat | k < |bytes| :: Holds(data, total, bytes, k)
  }

  class Ring {
    const data: array<Byte>
    var nread: nat
    var nwrite: nat
    var readopen: bool
    var writeopen: bool
    ghost var q: Queue
    ghost var total: nat  // bytes ever read, never wrapping

    ghost predicate Valid()
      reads this, data
    {
      && data.Length == PIPESIZE && |q.bytes| <= PIPESIZE
      && nread == Wrap(total) && nwrite == Wrap(total + |q.bytes|)
      && readopen == q.readopen && writeopen == q.writeopen
      && Stored(data[..], total, q.bytes)
    }

    /** pipealloc's share of the pipe. */
    constructor ()
      ensures Valid() && q == Queue([], true, true, {}, {}) && fresh(data)
    {
      data := new Byte[PIPESIZE];
      nread, nwrite, readopen, writeopen := 0, 0, true, true;
      q, total := Queue([], true, true, {}, {}), 0;
    }

    /** pipewrite() from byte i on, until it is done, fails or goes to sleep. */
    method Write(pid: nat, addr: seq<Byte>, i: nat, killed: bool) returns (j: nat, out: Outcome)
      requires Valid() && i <= |addr|
      modifies this`nwrite, this`q, data
      ensures Valid() && q == Put(old(q), pid, addr[i..], killed)
      ensures out == PutOutcome(old(q), addr[i..], killed) && j == i + Room(old(q), |addr| - i)
    {
      hide Stored, Wrap, Index;
      j := i;
      ghost var room := Room(q, |addr| - i);
      while j < |addr|
        invariant i <= j <= i + room && Valid()
        invariant q == old(q).(bytes := old(q).bytes + addr[i..j])
      {
        CounterTests(total, |q.bytes|);
        if nwrite == Wrap(nread + PIPESIZE) {
          assert addr[i..][..room] == addr[i..j];
          if !readopen || killed {
            return j, Failed;
          }
          q := q.(readers := {}, writers := q.writers + {pid});
          return j, Asleep;
        }
        Push(data[..], total, q.bytes, addr[j]);
        data[Index(nwrite)] := addr[j];
        nwrite := Wrap(nwrite + 1);
        q := q.(bytes := q.bytes + [addr[j]]);
        assert addr[i..j + 1] == addr[i..j] + [addr[j]];
        j := j + 1;
      }
      assert addr[i..][..room] == addr[i..j];
      q := q.(readers := {});
      out := Done;
    }

    /** piperead(), until it returns or goes to sleep. */
    method Read(pid: nat, n: nat, killed: bool) returns (dst: seq<Byte>, out: Outcome)
      requires Valid()
      modifies this`nread, this`q, this`total
      ensures Valid() && q == Take(old(q), pid, n, killed)
      ensures out == TakeOutcome(old(q), killed) && dst == Taken(old(q), n, killed)
    {
      hide Stored, Wrap, Index;
      dst := [];
      CounterTests(total, |q.bytes|);
      if nread == nwrite && writeopen {
        if killed {
          return dst, Failed;
        }
        q := q.(readers := q.readers + {pid});
        return dst, Asleep;
      }
      dst := Copy(n);
      q := q.(writers := {});
      out := Done;
    }

    /** The copy loop of piperead. */
    method Copy(n: nat) returns (dst: seq<Byte>)
      requires Valid()
      modifies this`nread, this`q, this`total
      ensures Valid() && q == old(q).(bytes := old(q.bytes)[Min(n, |old(q.bytes)|)..])
      ensures dst == old(q.bytes)[..Min(n, |old(q.bytes)|)]
    {
      hide Stored, Wrap, Index;
      ghost var start := q.bytes;
      dst := [];
      var i := 0;
      while i < n
        invariant i <= n && i <= |start| && Valid()
        invariant dst == start[..i] && q == old(q).(bytes := start[i..])
      {
        CounterTests(total, |q.bytes|);
        if nread == nwrite {
          break;
        }
        NextByte(start, i);
        Pop(data[..], total, q.bytes);
        dst := dst + [data[Index(nread)]];
        nread := Wrap(nread + 1);
        total := total + 1;
        q := q.(bytes := q.bytes[1..]);
        i := i + 1;
      }
    }

    method CloseEnd(writable: bool)
      requires Valid()
      modifies this`readopen, this`writeopen, this`q
      ensures Valid() && q == Close(old(q), writable)
    {
      if writable {
        writeopen := false;
        q := q.(writeopen := false, readers := {});
      } else {
        readopen := false;
        q := q.(readopen := false, writers := {});
      }
    }
  }

  lemma NextByte(s: seq<Byte>, i: nat)
    requires i < |s|
    ensures s[i..][0] == s[i] && s[i..][1..] == s[i + 1..] && s[..i] + [s[i]] == s[..i + 1]
  {
  }

  /** The wrapped counters still tell full and empty apart. */
  lemma CounterTests(total: nat, n: nat)
    requires n <= PIPESIZE
    ensures Wrap(total) == Wrap(total + n) <==> n == 0
    ensures Wrap(total + n) == Wrap(Wrap(total) + PIPESIZE) <==> n == PIPESIZE
  {
  }

  /** PIPESIZE divides the range of the counters. */
  lemma IndexOfWrapped(n: nat)
    ensures Index(Wrap(n)) == Index(n) && Wrap(Wrap(n) + 1) == Wrap(n + 1)
  {
    var h := n / UINT_LIMIT;
    assert n == h * UINT_LIMIT + n % UINT_LIMIT;
    assert h * UINT_LIMIT == PIPESIZE * (h * (UINT_LIMIT / PIPESIZE));
  }

  lemma IndexDistinct(n: nat, k: nat, d: nat)
    requires k < d < PIPESIZE
    ensures Index(n + k) != Index(n + d)
  {
  }

  lemma Push(data: seq<Byte>, total: nat, bytes: seq<Byte>, x: Byte)
    requires Stored(data, total, bytes) && |bytes| < PIPESIZE
    ensures Wrap(Wrap(total + |bytes|) + 1) == Wrap(total + |bytes + [x]|)
    ensures Stored(data[Index(Wrap(total + |bytes|)) := x], total, bytes + [x])
  {
    hide Index, Wrap;
    IndexOfWrapped(total + |bytes|);
    var data' := data[Index(Wrap(total + |bytes|)) := x];
    forall k: nat | k < |bytes + [x]|
      ensures Holds(data', total, bytes + [x], k)
    {
      if k < |bytes| {
        assert Holds(data, total, bytes, k);
        IndexDistinct(total, k, |bytes|);
      }
    }
  }

  lemma Pop(data: seq<Byte>, total: nat, bytes: seq<Byte>)
    requires Stored(data, total, bytes) && |bytes| > 0
    ensures data[Index(Wrap(total))] == bytes[0]
    ensures Wrap(Wrap(total) + 1) == Wrap(total + 1) && total + |bytes| == total + 1 + |bytes[1..]|
    ensures Stored(data, total + 1, bytes[1..])
  {
    hide Index, Wrap;
    IndexOfWrapped(total);
    assert Holds(data, total, bytes, 0);
    var rest, from := bytes[1..], total + 1;
    forall k: nat | k < |rest|
      ensures Holds(data, from, rest, k)
    {
      assert Holds(data, total, bytes, k + 1);
      assert total + (k + 1) == total + 1 + k;
    }
  }

  // ------------------------------------------------------------ whole runs

  datatype Op =
    | DoWrite(pid: nat, src: seq<Byte>, killed: bool)
    | DoRead(pid: nat, n: nat, killed: bool)
    | DoClose(writable: bool)
    | DoKill(pid: nat)

  /** The pipe, and everything written and read so far in lock order. */
  datatype History = History(q: Queue, written: seq<Byte>, taken: seq<Byte>)

  function Step(h: History, op: Op): History
    requires |h.q.bytes| <= PIPESIZE
  {
    match op
    case DoWrite(pid, src, killed) =>
      h.(q := Put(h.q, pid, src, killed), written := h.written + src[..Room(h.q, |src|)])
    case DoRead(pid, n, killed) => h.(q := Take(h.q, pid, n, killed), taken := h.taken + Taken(h.q, n, killed))
    case DoClose(writable) => h.(q := Close(h.q, writable))
    case DoKill(pid) => h.(q := Rouse(h.q, pid))
  }

  /** An end is closed only when nobody is asleep in a call on that end. */
  predicate MayClose(q: Queue, writable: bool) {
    if writable then q.writers == {} else q.readers == {}
  }

  /** Nobody sleeps through data, through room, or through the end of the other side. */
  ghost predicate NoLostWakeup(q: Queue) {
    && (q.readers != {} ==> q.bytes == [] && q.writeopen && q.readopen)
    && (q.writers != {} ==> |q.bytes| == PIPESIZE && q.readopen && q.writeopen)
  }

  /** The caller of pipewrite holds the write end, that of piperead the read end. */
  predicate HasEnd(q: Queue, op: Op) {
    match op
    case DoWrite(_, _, _) => q.writeopen
    case DoRead(_, _, _) => q.readopen
    case DoClose(w) => MayClose(q, w)
    case DoKill(_) => true
  }

  predicate ByKilled(op: Op) {
    op.DoWrite? && op.killed
  }

  ghost predicate IsRun(hs: seq<History>, ops: seq<Op>) {
    && |hs| == |ops| + 1 && hs[0] == History(Queue([], true, true, {}, {}), [], [])
    && forall i | 0 <= i < |ops| ::
        |hs[i].q.bytes| <= PIPESIZE && HasEnd(hs[i].q, ops[i]) && hs[i + 1] == Step(hs[i], ops[i])
  }

  /** First in, first out: the bytes read are a prefix of the bytes written. */
  lemma {:induction false} Fifo(hs: seq<History>, ops: seq<Op>, i: nat)
    requires IsRun(hs, ops) && i <= |ops|
    ensures hs[i].written == hs[i].taken + hs[i].q.bytes && |hs[i].q.bytes| <= PIPESIZE
  {
    if i > 0 {
      Fifo(hs, ops, i - 1);
      StepFifo(hs[i - 1], ops[i - 1]);
    }
  }

  lemma StepFifo(h: History, op: Op)
    requires h.written == h.taken + h.q.bytes && |h.q.bytes| <= PIPESIZE
    ensures var h' := Step(h, op); h'.written == h'.taken + h'.q.bytes && |h'.q.bytes| <= PIPESIZE
  {
  }

  // ------------------------------------------------------- what a call moves

  /** Bytes written and not yet read. */
  function Unread(h: History): int {
    |h.written| - |h.taken|
  }

  /** A read has nothing to return and somebody may still write. */
  predicate Starved(h: History) {
    Unread(h) == 0 && h.q.writeopen
  }

  /**
    A read that neither sleeps nor fails takes as many bytes as it asks for and there
    are; so with n > 0 it returns nothing only at the end of the data, with the write
    end closed.  One that sleeps or fails takes nothing.
   */
  lemma ReadMoves(hs: seq<History>, ops: seq<Op>, i: nat)
    requires IsRun(hs, ops) && i < |ops| && ops[i].DoRead?
    ensures hs[i + 1].written == hs[i].written
    ensures hs[i].taken <= hs[i + 1].taken <= hs[i].written
    ensures |hs[i + 1].taken| - |hs[i].taken| == if Starved(hs[i]) then 0 else Min(ops[i].n, Unread(hs[i]))
    ensures !Starved(hs[i]) && ops[i].n > 0 && hs[i + 1].taken == hs[i].taken ==>
        hs[i].taken == hs[i].written && !hs[i].q.writeopen
  {
    Fifo(hs, ops, i);
    Fifo(hs, ops, i + 1);
  }

  /** What piperead answers: it sleeps or fails exactly when starved, and hands out what the read moved. */
  lemma ReadAnswers(hs: seq<History>, ops: seq<Op>, i: nat)
    requires IsRun(hs, ops) && i < |ops| && ops[i].DoRead?
    ensures var out := TakeOutcome(hs[i].q, ops[i].killed);
      && (out.Done? <==> !Starved(hs[i])) && (out.Failed? <==> Starved(hs[i]) && ops[i].killed)
    ensures hs[i + 1].taken == hs[i].taken + Taken(hs[i].q, ops[i].n, ops[i].killed)
  {
    Fifo(hs, ops, i);
  }

  /**
    A write stores all of its bytes, or as many as make the pipe full; it is done in
    the first case, and otherwise fails exactly without a reader or when killed.
   */
  lemma WriteMoves(hs: seq<History>, ops: seq<Op>, i: nat)
    requires IsRun(hs, ops) && i < |ops| && ops[i].DoWrite?
    ensures hs[i + 1].taken == hs[i].taken && hs[i].written <= hs[i + 1].written
    ensures hs[i + 1].written[|hs[i].written|..] <= ops[i].src
    ensures |hs[i + 1].written| == |hs[i].written| + |ops[i].src| || Unread(hs[i + 1]) == PIPESIZE
    ensures Unread(hs[i + 1]) <= PIPESIZE
    ensures var out, all := PutOutcome(hs[i].q, ops[i].src, ops[i].killed), Unread(hs[i]) + |ops[i].src| <= PIPESIZE;
      (out.Done? <==> all) && (out.Failed? <==> !all && (!hs[i].q.readopen || ops[i].killed))
  {
    Fifo(hs, ops, i);
    Fifo(hs, ops, i + 1);
  }

  // ----------------------------------------------------- who sleeps, what is open

  datatype Fact = ReadOpen | WriteOpen | ReaderAsleep(pid: nat) | WriterAsleep(pid: nat)

  predicate True(h: History, f: Fact) {
    match f
    case ReadOpen => h.q.readopen
    case WriteOpen => h.q.writeopen
    case ReaderAsleep(pid) => pid in h.q.readers
    case WriterAsleep(pid) => pid in h.q.writers
  }

  predicate Fits(h: History, op: Op)
    requires op.DoWrite?
  {
    Unread(h) + |op.src| <= PIPESIZE
  }

  /** A starved read sleeps, and so does a write that does not fit, unless it is killed or has no reader. */
  predicate Begins(h: History, op: Op, f: Fact) {
    match f
    case ReaderAsleep(pid) => op.DoRead? && op.pid == pid && Starved(h) && !op.killed
    case WriterAsleep(pid) => op.DoWrite? && op.pid == pid && !Fits(h, op) && h.q.readopen && !op.killed
    case _ => false
  }

  /** A write wakes the readers unless it gives up on a full pipe; a read that returns wakes the writers. */
  predicate Ends(h: History, op: Op, f: Fact) {
    match f
    case ReadOpen => op == DoClose(false)
    case WriteOpen => op == DoClose(true)
    case ReaderAsleep(pid) =>
      || (op.DoWrite? && (Fits(h, op) || (h.q.readopen && !op.killed)))
      || op == DoClose(true) || op == DoKill(pid)
    case WriterAsleep(pid) => (op.DoRead? && !Starved(h)) || op == DoClose(false) || op == DoKill(pid)
  }

  lemma FactStep(h: History, op: Op, f: Fact)
    requires h.written == h.taken + h.q.bytes && |h.q.bytes| <= PIPESIZE
    ensures True(Step(h, op), f) <==> Begins(h, op, f) || (True(h, f) && !Ends(h, op, f))
  {
  }

  ghost predicate BegunAt(hs: seq<History>, ops: seq<Op>, f: Fact, j: nat, i: nat)
    requires i <= |ops| < |hs|
  {
    j < i && Begins(hs[j], ops[j], f) && forall k: nat | j < k < i :: !Ends(hs[k], ops[k], f)
  }

  /** An end that was open at the start and not closed since; a sleep that began and was not ended since. */
  ghost predicate Since(hs: seq<History>, ops: seq<Op>, f: Fact, i: nat)
    requires i <= |ops| < |hs|
  {
    || ((f.ReadOpen? || f.WriteOpen?) && forall k: nat | k < i :: !Ends(hs[k], ops[k], f))
    || exists j: nat :: BegunAt(hs, ops, f, j, i)
  }

  lemma SinceStep(hs: seq<History>, ops: seq<Op>, f: Fact, i: nat)
    requires i < |ops| < |hs|
    ensures Since(hs, ops, f, i + 1) <==>
            Begins(hs[i], ops[i], f) || (Since(hs, ops, f, i) && !Ends(hs[i], ops[i], f))
  {
    var i' := i + 1;
    if Begins(hs[i], ops[i], f) { assert BegunAt(hs, ops, f, i, i'); }
    hide Begins, Ends;
    if j: nat :| BegunAt(hs, ops, f, j, i) {
      if !Ends(hs[i], ops[i], f) { assert BegunAt(hs, ops, f, j, i'); }
    }
    if j: nat :| BegunAt(hs, ops, f, j, i') {
      if j < i { assert BegunAt(hs, ops, f, j, i); }
    }
  }

  /** In every state of every run a process sleeps in the pipe, or an end is open, exactly if these steps made it so. */
  lemma {:induction false} HistoryIff(hs: seq<History>, ops: seq<Op>, f: Fact, i: nat)
    requires IsRun(hs, ops) && i <= |ops|
    ensures True(hs[i], f) <==> Since(hs, ops, f, i)
  {
    hide Since, Begins, Ends, Step;
    if i == 0 {
      StartsOpen(hs, ops, f);
    } else {
      HistoryIff(hs, ops, f, i - 1);
      Fifo(hs, ops, i - 1);
      FactStep(hs[i - 1], ops[i - 1], f);
      SinceStep(hs, ops, f, i - 1);
    }
  }

  lemma StartsOpen(hs: seq<History>, ops: seq<Op>, f: Fact)
    requires |ops| < |hs|
    ensures Since(hs, ops, f, 0) <==> f.ReadOpen? || f.WriteOpen?
  {
    hide Begins, Ends;
  }

  // --------------------------------------------------------- a lost wakeup

  /** A killed writer fills the pipe while a reader sleeps, and gives up with bytes unwritten. */
  predicate Forgets(h: History, op: Op) {
    ByKilled(op) && h.q.readers != {} && |h.q.bytes| + |op.src| > PIPESIZE
  }

  /** A stretch of execution loses a wakeup exactly in that case. */
  lemma LosesWakeupIff(h: History, op: Op)
    requires |h.q.bytes| <= PIPESIZE && NoLostWakeup(h.q) && HasEnd(h.q, op)
    ensures NoLostWakeup(Step(h, op).q) <==> !Forgets(h, op)
  {
  }

  /** As long as that has not happened, no sleeper is forgotten. */
  lemma {:induction false} NobodySleepsOn(hs: seq<History>, ops: seq<Op>, i: nat)
    requires IsRun(hs, ops) && i <= |ops| && forall k | 0 <= k < i :: !Forgets(hs[k], ops[k])
    ensures NoLostWakeup(hs[i].q)
  {
    if i > 0 {
      NobodySleepsOn(hs, ops, i - 1);
      LosesWakeupIff(hs[i - 1], ops[i - 1]);
    }
  }

  /** Reader 1 sleeps on; the pipe is full and its writer is gone. */
  lemma KilledWriterForgetsReader() returns (hs: seq<History>, ops: seq<Op>)
    ensures IsRun(hs, ops) && |ops| == 2
    ensures 1 in hs[2].q.readers && |hs[2].q.bytes| == PIPESIZE
  {
    var src: seq<Byte> := seq(PIPESIZE + 1, _ => 0);
    var h0 := History(Queue([], true, true, {}, {}), [], []);
    ops := [DoRead(1, 1, false), DoWrite(2, src, true)];
    var h1 := Step(h0, ops[0]);
    hs := [h0, h1, Step(h1, ops[1])];
  }
}
