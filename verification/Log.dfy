/**
  log.c as it is written: a structure updated in place, loops over the header.

  `trace` records the machine state after every single disk write, so a method
  that ends with a chain of steps in `trace` has been proved to perform exactly
  the writes of the machine in LogCore, in that order.
 */
module Log {
  import opened Blocks
  import opened LogCore

  ghost predicate Chain(L: Layout, trace: seq<Core>) {
    && |trace| > 0
    && (forall i | 0 <= i < |trace| :: Inv(L, trace[i]))
    && (forall i | 0 <= i < |trace| - 1 :: Step(L, trace[i], trace[i + 1]))
  }

  lemma ChainGrows(L: Layout, trace: seq<Core>, c: Core)
    requires Chain(L, trace) && Step(L, trace[|trace| - 1], c)
    ensures Chain(L, trace + [c])
  {
    hide Inv, Step;
    StepKeeps(L, trace[|trace| - 1], c);
  }

  ghost function CommitDepth(c: Core): int {
    match c.pc
    case WriteLog(t) => t
    case Install(t) => |c.lh| + 1 + t
    case _ => 2 * |c.lh| + 2
  }

  /** Where a disk write leads. */
  lemma StepLeads(L: Layout, c: Core, c': Core)
    requires Sized(L, c) && Step(L, c, c')
    ensures match c.pc
      case WriteLog(t) => t <= |c.lh| && c'.lh == c.lh && c'.pc == if t < |c.lh| then WriteLog(t + 1) else Install(0)
      case Install(t) => t <= |c.lh| && if t < |c.lh| then c'.lh == c.lh &&
        c'.pc == Install(t + 1) else c'.pc == Serving
      case Boot => c'.pc == Install(0)
      case Serving => false
  {
    hide HeaderOf, GetWord, PutEntries;
  }

  /**
    The n-block commit: a crash after i disk writes leaves the old file system
    for i <= n, and the committed one from the header write on.
   */
  lemma {:induction false} CommitTrace(L: Layout, trace: seq<Core>, i: nat)
    requires Chain(L, trace) && trace[0].pc == WriteLog(0) && i < |trace|
    requires forall k | 0 <= k < |trace| - 1 :: !trace[k].pc.Serving?
    ensures !trace[i].pc.Boot?
    ensures !trace[i].pc.Serving? ==> trace[i].lh == trace[0].lh && CommitDepth(trace[i]) == i
    ensures trace[i].pc.Serving? ==> i == 2 * |trace[0].lh| + 2
    ensures Durable(L, trace[i]) == if i <= |trace[0].lh| then Durable(L, trace[0]) else Current(L, trace[0])
    ensures Current(L, trace[i]) == Current(L, trace[0])
  {
    hide Durable, Current, Step, Inv;
    if i > 0 {
      CommitTrace(L, trace, i - 1);
      InvSized(L, trace[i - 1]);
      assert Step(L, trace[i - 1], trace[i - 1 + 1]);
      StepLeads(L, trace[i - 1], trace[i]);
      StepKeeps(L, trace[i - 1], trace[i]);
    }
  }

  /** Recovery: however often it is cut short, the outcome stays the same. */
  lemma {:induction false} RecoverTrace(L: Layout, trace: seq<Core>, i: nat)
    requires Chain(L, trace) && trace[0].pc == Boot && i < |trace|
    ensures Durable(L, trace[i]) == Durable(L, trace[0])
    ensures !trace[i].pc.WriteLog?
  {
    hide Durable, Step, Inv;
    if i > 0 {
      RecoverTrace(L, trace, i - 1);
      InvSized(L, trace[i - 1]);
      assert Step(L, trace[i - 1], trace[i - 1 + 1]);
      StepLeads(L, trace[i - 1], trace[i]);
      StepKeeps(L, trace[i - 1], trace[i]);
    }
  }

  class Log {
    const L: Layout
    var disk: seq<Block>
    var mem: seq<Block>
    var dirty: set<nat>
    var n: nat
    const block: array<nat>
    var outstanding: int
    var committing: bool
    ghost var pc: Pc
    ghost var trace: seq<Core>

    ghost predicate Shape()
      reads this, block
    {
      block.Length == LOGSIZE && n <= LOGSIZE
    }

    ghost function Now(): Core
      reads this, block
      requires Shape()
    {
      Core(disk, mem, dirty, block[..n], pc)
    }

    ghost predicate Valid()
      reads this, block
    {
      Shape() && Inv(L, Now())
    }

    /** The trace ends in the present state. */
    ghost predicate Tracing()
      reads this, block
    {
      Shape() && Chain(L, trace) && trace[|trace| - 1] == Now()
    }

    /** bwrite on the cached block b. */
    method BWrite(b: nat, ghost next: Pc)
      requires Shape() && b < |disk| && b < |mem|
      modifies this`disk, this`dirty, this`pc
      ensures Now() == old(Now()).BWrite(b).(pc := next)
    {
      disk := disk[b := mem[b]];
      dirty := dirty - {b};
      pc := next;
    }

    /** Records the disk write just made: one step of the machine. */
    ghost method Record(c: Core)
      requires Shape() && Chain(L, trace) && trace[|trace| - 1] == c && Step(L, c, Now())
      modifies this`trace
      ensures Tracing() && trace == old(trace) + [Now()]
    {
      ChainGrows(L, trace, Now());
      trace := trace + [Now()];
    }

    /** write_log(): the cached contents of the logged blocks go to their slots. */
    method WriteLog()
      requires Tracing() && pc == Pc.WriteLog(0)
      modifies this`disk, this`mem, this`dirty, this`pc, this`trace
      ensures Tracing() && pc == Pc.WriteLog(n) && old(trace) <= trace
      ensures |trace| == |old(trace)| + n
      ensures forall i | |old(trace)| <= i < |trace| :: trace[i].pc.WriteLog?
    {
      hide Inv, Step, Chain;
      var tail := 0;
      while tail < n
        invariant Tracing() && tail <= n && pc == Pc.WriteLog(tail)
        invariant old(trace) <= trace && |trace| == |old(trace)| + tail
        invariant forall i | |old(trace)| <= i < |trace| :: trace[i].pc.WriteLog?
      {
        ghost var c := Now();
        Peek(L, trace);
        mem := mem[L.start + tail + 1 := mem[block[tail]]];
        BWrite(L.start + tail + 1, Pc.WriteLog(tail + 1));
        assert Now() == WriteLogStep(L, c);
        AreSteps(L, c, Now());
        Record(c);
        tail := tail + 1;
      }
    }

    /** Store the in-memory header in the header block, and write that. */
    method WriteHead(ghost next: Pc)
      requires Shape() && L.Valid() && |disk| == |mem| == L.nblocks && Storable(block[..n])
      modifies this`disk, this`mem, this`dirty, this`pc
      ensures Now() ==
          old(Now()).Fill(L.start, PutEntries(old(mem)[L.start], block[..n], n)).BWrite(L.start).(pc := next)
    {
      hide GetWord, PutWord;
      var hb := PutWord(mem[L.start], 0, n);
      var i := 0;
      while i < n
        invariant i <= n && hb == PutEntries(mem[L.start], block[..n], i)
      {
        hb := PutWord(hb, i + 1, block[i]);
        i := i + 1;
      }
      mem := mem[L.start := hb];
      BWrite(L.start, next);
    }

    /** install_trans(): the slots go to the blocks that the header names. */
    method InstallTrans()
      requires Tracing() && pc == Install(0)
      modifies this`disk, this`mem, this`dirty, this`pc, this`trace
      ensures Tracing() && pc == Install(n) && old(trace) <= trace
      ensures |trace| == |old(trace)| + n
      ensures forall i | |old(trace)| <= i < |trace| :: trace[i].pc.Install?
    {
      hide Inv, Step, Chain;
      var tail := 0;
      while tail < n
        invariant Tracing() && tail <= n && pc == Install(tail)
        invariant old(trace) <= trace && |trace| == |old(trace)| + tail
        invariant forall i | |old(trace)| <= i < |trace| :: trace[i].pc.Install?
      {
        ghost var c := Now();
        Peek(L, trace);
        mem := mem[block[tail] := mem[L.start + tail + 1]];
        BWrite(block[tail], Install(tail + 1));
        assert Now() == InstallStep(L, c);
        AreSteps(L, c, Now());
        Record(c);
        tail := tail + 1;
      }
    }

    /** read_head(), at boot. */
    method ReadHead()
      requires Tracing() && pc == Boot
      modifies this`n, block, this`pc, this`trace
      ensures Tracing() && pc == Install(0) && trace == old(trace) + [Now()]
    {
      hide Step, Chain, GetWord;
      ghost var c := Now();
      Peek(L, trace);
      var hb := mem[L.start];
      n := GetWord(hb, 0);
      var i := 0;
      while i < n
        modifies block
        invariant Shape() && i <= n == GetWord(hb, 0)
        invariant forall k | 0 <= k < i :: block[k] == GetWord(hb, k + 1)
      {
        block[i] := GetWord(hb, i + 1);
        i := i + 1;
      }
      pc := Install(0);
      assert block[..n] == HeaderOf(hb);
      assert Now() == ReadHeadStep(L, c);
      AreSteps(L, c, Now());
      Record(c);
    }

    /** The tail shared by commit and recovery: install, then erase the header. */
    method InstallAndClear()
      requires Tracing() && pc == Install(0)
      modifies this`disk, this`mem, this`dirty, this`pc, this`trace, this`n
      ensures Tracing() && pc == Serving && n == 0 && old(trace) <= trace
      ensures |trace| == |old(trace)| + old(n) + 1
      ensures forall i | |old(trace)| <= i < |trace| - 1 :: trace[i].pc.Install?
    {
      hide Inv, Step, Chain, GetWord, PutWord, PutEntries;
      InstallTrans();
      ghost var c := Now();
      Peek(L, trace);
      n := 0;
      assert block[..n] == [];
      WriteHead(Serving);
      assert Now() == ClearStep(L, c);
      AreSteps(L, c, Now());
      Record(c);
    }

    /** The header write that is the commit. */
    method WriteCommit()
      requires Tracing() && pc == Pc.WriteLog(n)
      modifies this`disk, this`mem, this`dirty, this`pc, this`trace
      ensures Tracing() && pc == Install(0) && trace == old(trace) + [Now()]
    {
      hide Inv, Step, Chain, GetWord, PutWord, PutEntries;
      ghost var c := Now();
      Peek(L, trace);
      WriteHead(Install(0));
      assert Now() == CommitStep(L, c);
      AreSteps(L, c, Now());
      Record(c);
    }

    /**
      commit(): one indivisible change of what a crash would leave, at the
      (n+1)-st of its 2n+2 disk writes.
     */
    method Commit()
      requires Valid() && pc == Serving && committing && outstanding == 0
      modifies this`disk, this`mem, this`dirty, this`pc, this`trace, this`n
      ensures Valid() && pc == Serving && n == 0
      ensures Current(L, Now()) == Durable(L, Now()) == old(Current(L, Now()))
      ensures Chain(L, trace) && trace[|trace| - 1] == Now()
      ensures |trace| == if old(n) == 0 then 1 else 2 * old(n) + 3
      ensures forall i | 0 <= i < |trace| ::
          Durable(L, trace[i]) == if i <= old(n) then old(Durable(L, Now())) else old(Current(L, Now()))
    {
      hide Inv, Step, Chain, GetWord, PutWord, PutEntries, Durable, Current;
      ghost var c0 := Now();
      if n > 0 {
        pc := Pc.WriteLog(0);
        StartsCommit(L, c0, Now());
        trace := [Now()];
        WriteLog();
        WriteCommit();
        InstallAndClear();
        CommitTraceAll(L, trace);
        Peek(L, trace);
      } else {
        EmptyCommit(L, c0);
        trace := [Now()];
      }
    }

    /** recover_from_log(): replays the log, whatever earlier attempts did. */
    method RecoverFromLog()
      requires Valid() && pc == Boot
      modifies this`disk, this`mem, this`dirty, this`pc, this`trace, this`n, block
      ensures Valid() && pc == Serving && n == 0
      ensures Current(L, Now()) == Durable(L, Now()) == old(Durable(L, Now()))
      ensures Chain(L, trace) && trace[0] == old(Now()) && trace[|trace| - 1] == Now()
      ensures forall i | 0 <= i < |trace| :: Durable(L, trace[i]) == old(Durable(L, Now()))
    {
      hide Inv, Step, Chain, GetWord, PutWord, PutEntries, Durable, Current;
      StartsRecovery(L, Now());
      trace := [Now()];
      ReadHead();
      InstallAndClear();
      RecoverTraceAll(L, trace);
      Peek(L, trace);
      EmptyCommit(L, Now());
    }

    /** One turn of the loop in begin_op; false means the caller sleeps. */
    method TryBeginOp() returns (entered: bool)
      requires Valid()
      modifies this`outstanding
      ensures Valid()
      ensures entered <==> !committing && n + (old(outstanding) + 1) * MAXOPBLOCKS <= LOGSIZE
      ensures outstanding == old(outstanding) + if entered then 1 else 0
    {
      if committing {
        return false;
      } else if n + (outstanding + 1) * MAXOPBLOCKS > LOGSIZE {
        return false;
      } else {
        outstanding := outstanding + 1;
        return true;
      }
    }

    /** end_op(); the last operation out commits. */
    method EndOp()
      requires Valid() && pc == Serving && !committing && outstanding >= 1
      modifies this`disk, this`mem, this`dirty, this`pc, this`trace, this`n, this`outstanding, this`committing
      ensures Valid() && pc == Serving && !committing && outstanding == old(outstanding) - 1
      ensures Current(L, Now()) == old(Current(L, Now()))
      ensures if outstanding == 0 then n == 0 && Durable(L, Now()) == old(Current(L, Now())) else Now() == old(Now())
    {
      outstanding := outstanding - 1;
      if outstanding == 0 {
        committing := true;
        Commit();
        committing := false;
      }
    }

    /** log_write() on the locked buffer of block b, which now holds `data`. */
    method LogWrite(b: nat, data: Block) returns (panicked: bool)
      requires Valid() && pc == Serving && L.Home(b)
      modifies this`mem, this`dirty, this`n, block
      ensures panicked <==> old(n) == L.Cap() || outstanding < 1
      ensures Shape() && (panicked ==> Now() == old(Now()))
      ensures !panicked ==> Valid() && Now() == LogCore.LogWrite(L, old(Now()), b, data)
      ensures !panicked ==> Current(L, Now()) == old(Current(L, Now()))[b := data]
      ensures !panicked ==> Durable(L, Now()) == old(Durable(L, Now()))
    {
      hide Inv, HeaderOf, GetWord, Durable, Current, Elems;
      InvSized(L, Now());
      if n >= LOGSIZE || n >= L.size - 1 {
        return true;
      }
      if outstanding < 1 {
        return true;
      }
      ghost var c := Now();
      LogWriteKeeps(L, c, b, data);
      var i := 0;
      while i < n && block[i] != b
        invariant i <= n && b !in block[..i]
      {
        i := i + 1;
      }
      block[i] := b;
      if i == n {
        n := n + 1;
      }
      mem := mem[b := data];
      dirty := dirty + {b};
      assert block[..n] == if b in c.lh then c.lh else c.lh + [b];
      return false;
    }
  }

  // ---------------------------------------------------------- bookkeeping

  lemma Peek(L: Layout, trace: seq<Core>)
    requires Chain(L, trace)
    ensures Inv(L, trace[|trace| - 1]) && Sized(L, trace[|trace| - 1]) && Storable(trace[|trace| - 1].lh)
    ensures trace[|trace| - 1].pc.Boot? ==> HeaderFits(trace[|trace| - 1].mem[L.start])
  {
  }

  /** Spells out, for a caller that does not unfold Step, what counts as one. */
  lemma AreSteps(L: Layout, c: Core, c': Core)
    requires Sized(L, c)
    ensures c.pc.WriteLog? && c.pc.tail < |c.lh| && c' == WriteLogStep(L, c) ==> Step(L, c, c')
    ensures c.pc == WriteLog(|c.lh|) && c' == CommitStep(L, c) ==> Step(L, c, c')
    ensures c.pc.Install? && c.pc.tail < |c.lh| && c' == InstallStep(L, c) ==> Step(L, c, c')
    ensures c.pc == Install(|c.lh|) && c' == ClearStep(L, c) ==> Step(L, c, c')
    ensures c.pc == Boot && HeaderFits(c.mem[L.start]) && c' == ReadHeadStep(L, c) ==> Step(L, c, c')
  {
  }

  lemma StartsCommit(L: Layout, c: Core, c': Core)
    requires Inv(L, c) && c.pc == Serving && c' == c.(pc := WriteLog(0))
    ensures Chain(L, [c']) && Durable(L, c') == Durable(L, c) && Current(L, c') == Current(L, c)
  {
  }

  lemma StartsRecovery(L: Layout, c: Core)
    requires Inv(L, c)
    ensures Chain(L, [c]) && DiskOk(L, c.disk)
  {
  }

  lemma EmptyCommit(L: Layout, c: Core)
    requires Inv(L, c) && c.pc == Serving && c.lh == []
    ensures Chain(L, [c]) && Durable(L, c) == Current(L, c)
  {
  }

  lemma CommitTraceAll(L: Layout, trace: seq<Core>)
    requires Chain(L, trace) && trace[0].pc == WriteLog(0)
    requires forall k | 0 <= k < |trace| - 1 :: !trace[k].pc.Serving?
    ensures forall i | 0 <= i < |trace| :: DiskOk(L, trace[i].disk) && Sized(L, trace[i])
    ensures forall i | 0 <= i < |trace| ::
        Durable(L, trace[i]) == if i <= |trace[0].lh| then Durable(L, trace[0]) else Current(L, trace[0])
    ensures Current(L, trace[|trace| - 1]) == Current(L, trace[0])
  {
    hide Durable, Current, Inv, Step, CommitDepth;
    forall i | 0 <= i < |trace|
      ensures DiskOk(L, trace[i].disk) && Sized(L, trace[i])
    {
      InvSized(L, trace[i]);
    }
    forall i | 0 <= i < |trace|
      ensures Durable(L, trace[i]) == if i <= |trace[0].lh| then Durable(L, trace[0]) else Current(L, trace[0])
    {
      CommitTrace(L, trace, i);
    }
    CommitTrace(L, trace, |trace| - 1);
  }

  lemma RecoverTraceAll(L: Layout, trace: seq<Core>)
    requires Chain(L, trace) && trace[0].pc == Boot
    ensures forall i | 0 <= i < |trace| :: DiskOk(L, trace[i].disk) && Sized(L, trace[i])
    ensures forall i | 0 <= i < |trace| :: Durable(L, trace[i]) == Durable(L, trace[0])
  {
    hide Durable, Inv, Step;
    forall i | 0 <= i < |trace|
      ensures DiskOk(L, trace[i].disk) && Sized(L, trace[i])
      ensures DiskOk(L, trace[0].disk) && Durable(L, trace[i]) == Durable(L, trace[0])
    {
      InvSized(L, trace[i]);
      InvSized(L, trace[0]);
      RecoverTrace(L, trace, i);
    }
  }

  lemma InvSized(L: Layout, c: Core)
    requires Inv(L, c)
    ensures DiskOk(L, c.disk) && Sized(L, c)
  {
  }
}
