/**
  A run of GroupCommit: two processes write a byte each into an empty file of
  their own, step by step in turn, and their operations end as one group.
 */
module TwoWriters {
  import opened Common
  import opened Blocks
  import opened FsFormat
  import opened FsState
  import opened FileBytes
  import opened FileSystem
  import opened CrashSafety
  import opened SharedOwn
  import opened GroupCommit
  import Files = SharedFs
  import EmptyDisk
  import SerialRuns
  import Core = LogCore
  import Log = LogSystem

  datatype Trace = Trace(run: seq<State>, moves: seq<Move>) {
    function Add(m: Move, s: State): Trace {
      Trace(run + [s], moves + [m])
    }
  }

  ghost predicate Reaches(L: Core.Layout, sb: Super, t: Trace, s: State) {
    IsRun(L, sb, t.run, t.moves) && t.run[|t.moves|] == s && Inv(L, sb, s)
  }

  lemma Extend(L: Core.Layout, sb: Super, t: Trace, s: State, m: Move, s': State)
    requires Reaches(L, sb, t, s) && Next(L, sb, s, m, s') && Log.Contained(L, s'.sys)
    ensures Reaches(L, sb, t.Add(m, s'), s')
  {
    hide Next, Init, Inv;
    NextKeeps(L, sb, s, m, s');
    var t' := t.Add(m, s');
    forall i | 0 <= i < |t'.moves|
      ensures Next(L, sb, t'.run[i], t'.moves[i], t'.run[i + 1])
    {
      if i < |t.moves| { assert Next(L, sb, t.run[i], t.moves[i], t.run[i + 1]); }
    }
  }

  lemma Facts(L: Core.Layout, sb: Super, s: State)
    requires Inv(L, sb, s)
    ensures Core.Sized(L, s.sys.core) && Log.Contained(L, s.sys) && Fits(L, sb)
    ensures Files.Inv(sb, s.fs) && OwnedBy(sb, s.fs.m) && Sized(sb, s.fs.m.st)
    ensures |s.fs.files| == sb.ninodes
  {
    hide Log.SysInv, Shows, Sound;
    InvContained(L, sb, s);
    SerialRuns.InvViews(L, s.sys);
    ShowsValid(L, sb, s);
  }

  // ------------------------------------------------------------- the log side

  /** Two processes inside an operation, with at most n blocks logged. */
  ghost predicate BothIn(s: State, n: nat) {
    && |s.sys.procs| == 2 && !s.sys.booting && |s.sys.core.lh| <= n
    && forall p | 0 <= p < 2 :: s.sys.procs[p].InOp? && !s.sys.procs[p].passed && s.sys.procs[p].spent <= n
  }

  lemma Test(L: Core.Layout, sb: Super, t: Trace, s: State, p: nat, n: nat) returns (t': Trace, s': State)
    requires Reaches(L, sb, t, s) && BothIn(s, n) && p < 2 && n < L.Cap()
    ensures Reaches(L, sb, t', s') && s' == s.(sys := Log.Pass(s.sys, p)) && t.run <= t'.run
  {
    hide IsRun, Inv, Recovered;
    Facts(L, sb, s);
    s' := s.(sys := Log.Pass(s.sys, p));
    Extend(L, sb, t, s, Logs(Log.TestSize(p)), s');
    t' := t.Add(Logs(Log.TestSize(p)), s');
  }

  /** log_write of a block that the file system has changed. */
  lemma Logged(L: Core.Layout, sb: Super, t: Trace, s: State, p: nat, d: Files.Deed, x: nat, fs': Files.Shared, n: nat)
    returns (t': Trace, s': State)
    requires Reaches(L, sb, t, s) && BothIn(s, n) && p < 2 && n < L.Cap() && n < Core.MAXOPBLOCKS
    requires Files.Acts(sb, s.fs, p, d, Some(x), fs')
    ensures Reaches(L, sb, t', s') && s'.fs == fs' && BothIn(s', n + 1) && t.run <= t'.run
  {
    hide IsRun, Inv, Files.Acts, Files.Inv, OwnedBy, Fits;
    var t1, s1 := Test(L, sb, t, s, p, n);
    Facts(L, sb, s);
    Facts(L, sb, s1);
    Files.NextKeeps(sb, s.fs, p, d, Some(x), fs');
    HomeBlock(L, sb, x);
    SizedBlocks(sb, s.fs.m.st);
    var a := Log.DoWrite(p, x, fs'.m.st.blocks[x]);
    s' := State(Log.Write(L, s1.sys, p, x, fs'.m.st.blocks[x]), fs');
    Extend(L, sb, t1, s1, Writes(p, d, x), s');
    t' := t1.Add(Writes(p, d, x), s');
  }

  lemma HomeBlock(L: Core.Layout, sb: Super, x: nat)
    requires Fits(L, sb) && sb.inodestart <= x < sb.size
    ensures L.Home(x)
  {
  }

  lemma SizedBlocks(sb: Super, st: Fs)
    requires Sized(sb, st)
    ensures |st.blocks| == sb.size
  {
  }

  lemma Private(L: Core.Layout, sb: Super, t: Trace, s: State, p: nat, d: Files.Deed, fs': Files.Shared, n: nat)
    returns (t': Trace, s': State)
    requires Reaches(L, sb, t, s) && BothIn(s, n) && p < 2 && Files.Acts(sb, s.fs, p, d, None, fs')
    ensures Reaches(L, sb, t', s') && s'.fs == fs' && BothIn(s', n) && t.run <= t'.run
  {
    hide IsRun, Inv, Files.Acts, Files.Inv, OwnedBy;
    Facts(L, sb, s);
    s' := s.(fs := fs');
    Extend(L, sb, t, s, Privately(p, d), s');
    t' := t.Add(Privately(p, d), s');
  }

  // ----------------------------------------------------- the file system side

  datatype Stage = Begun | Took | Has | Put | Closed

  /** How far process p has come with the one byte for its file. */
  ghost predicate Stands(sb: Super, fs: Files.Shared, p: nat, v: Byte, k: Stage) {
    && Sized(sb, fs.m.st) && p < sb.ninodes && p in fs.ops && |fs.files| == sb.ninodes && fs.files[p] == []
    && var ip := fs.m.st.inodes[p];
       match k
       case Begun => fs.ops[p] == Files.Writing(p, 0, [v], 0, Files.Plain) && ip.addrs[0] == 0 && ip.size == 0
       case Took => fs.ops[p] == Files.Writing(p, 0, [v], 0, Files.Taken) && ip.size == 0
       case Has => fs.ops[p] == Files.Writing(p, 0, [v], 0, Files.Plain) && ip.addrs[0] != 0 && ip.size == 0
       case Put => fs.ops[p] == Files.Writing(p, 0, [v], 1, Files.Plain) && ip.size == 0
       case Closed => fs.ops[p] == Files.Writing(p, 0, [v], 1, Files.Finished)
  }

  /** A step of p leaves the other process where it is. */
  ghost predicate LeavesOther(fs: Files.Shared, fs': Files.Shared, p: nat) {
    && fs'.files == fs.files && |fs'.m.st.inodes| == |fs.m.st.inodes|
    && (forall q | q != p :: (q in fs'.ops <==> q in fs.ops) && (q in fs.ops ==> fs'.ops[q] == fs.ops[q]))
    && (forall j | 0 <= j < |fs.m.st.inodes| && j != p :: fs'.m.st.inodes[j] == fs.m.st.inodes[j])
  }

  lemma OtherStays(sb: Super, fs: Files.Shared, fs': Files.Shared, p: nat, q: nat, v: Byte, k: Stage)
    requires Stands(sb, fs, q, v, k) && LeavesOther(fs, fs', p) && q != p && Sized(sb, fs'.m.st)
    ensures Stands(sb, fs', q, v, k)
  {
  }

  lemma FirstAddr(sb: Super, st: Fs, p: nat)
    requires Sized(sb, st) && p < sb.ninodes
    ensures Addr(sb, st, p, 0) == st.inodes[p].addrs[0]
  {
  }

  lemma WriterFacts(sb: Super, fs: Files.Shared, p: nat)
    requires Files.Inv(sb, fs) && p in fs.ops && fs.ops[p].Writing?
    ensures OwnedBy(sb, fs.m) && fs.ops[p].i !in fs.m.dead
    ensures fs.ops[p].phase.Taken? ==> p in fs.m.pend && 0 < fs.m.pend[p] < sb.size
  {
    Files.OpFacts(sb, fs, p);
    hide Files.Inv, OwnedBy, Files.Shown, Synced, Addr;
  }

  lemma Taking(sb: Super, fs: Files.Shared, p: nat, v: Byte, b: nat) returns (x: nat, fs': Files.Shared)
    requires Files.Inv(sb, fs) && Stands(sb, fs, p, v, Begun) && b < sb.size && !Bit(sb, fs.m.st, b)
    ensures Files.Acts(sb, fs, p, Files.Take(b), Some(x), fs') && Stands(sb, fs', p, v, Took) && LeavesOther(fs, fs', p)
    ensures Sized(sb, fs'.m.st) && OneBit(sb, fs.m.st, fs'.m.st, b, true)
  {
    hide Files.Inv, Bit, MarkBit, Addr;
    FirstAddr(sb, fs.m.st, p);
    var op := fs.ops[p];
    x := sb.BBlock(b);
    BBlockIsMeta(sb, b);
    WithBitSets(sb, fs.m.st, b, true);
    fs' := Files.WithOp(fs, Marked(sb, fs.m, p, b), p, op.(phase := Files.Taken));
  }

  lemma Filling(sb: Super, fs: Files.Shared, p: nat, v: Byte) returns (x: nat, fs': Files.Shared)
    requires Files.Inv(sb, fs) && Stands(sb, fs, p, v, Took)
    ensures Files.Acts(sb, fs, p, Files.Fill, Some(x), fs') && Stands(sb, fs', p, v, Has) && LeavesOther(fs, fs', p)
  {
    hide Files.Inv, Bit, OwnedBy;
    WriterFacts(sb, fs, p);
    var op := fs.ops[p];
    x := fs.m.pend[p];
    fs' := Files.WithOp(fs, Attached(fs.m, p, p, 0), p, op.(phase := Files.Plain));
  }

  lemma Storing(sb: Super, fs: Files.Shared, p: nat, v: Byte) returns (x: nat, fs': Files.Shared)
    requires Files.Inv(sb, fs) && Stands(sb, fs, p, v, Has)
    ensures Files.Acts(sb, fs, p, Files.Store, Some(x), fs') && Stands(sb, fs', p, v, Put) && LeavesOther(fs, fs', p)
  {
    hide Files.Inv, Bit, OwnedBy, Addr, Files.Laid, Foreign;
    WriterFacts(sb, fs, p);
    FirstAddr(sb, fs.m.st, p);
    DataUse(sb, fs.m, p, 0);
    var op := fs.ops[p];
    x := fs.m.st.inodes[p].addrs[0];
    var blk := Files.Laid(op, fs.m.st.blocks[x]);
    fs' := Files.WithOp(fs, Stored(sb, fs.m, p, 0, blk), p, op.(tot := 1));
  }

  lemma Finishing(sb: Super, fs: Files.Shared, p: nat, v: Byte) returns (x: nat, fs': Files.Shared)
    requires Files.Inv(sb, fs) && Stands(sb, fs, p, v, Put)
    ensures Files.Acts(sb, fs, p, Files.Finish, Some(x), fs') && Stands(sb, fs', p, v, Closed)
    ensures LeavesOther(fs, fs', p)
  {
    hide Files.Inv, PutInode;
    var op := fs.ops[p];
    x := sb.IBlock(p);
    InodeBlockIsMeta(sb, p);
    fs' := Files.WithOp(fs, WithSize(sb, fs.m, p, 1), p, op.(phase := Files.Finished));
  }

  /** The operation is over, and its file has the byte. */
  lemma Ending(sb: Super, fs: Files.Shared, p: nat, v: Byte) returns (fs': Files.Shared)
    requires Stands(sb, fs, p, v, Closed)
    ensures Files.Acts(sb, fs, p, Files.End, None, fs')
    ensures fs' == fs.(ops := fs.ops - {p}, files := fs.files[p := [v]])
  {
    assert Files.Outcome(fs.ops[p], []) == [v];
    fs' := fs.(ops := fs.ops - {p}, files := fs.files[p := [v]]);
  }

  lemma Beginning(sb: Super, fs: Files.Shared, p: nat, v: Byte) returns (fs': Files.Shared)
    requires Sized(sb, fs.m.st) && p < sb.ninodes && p !in fs.ops && !Files.Locked(fs, p)
    requires |fs.files| == sb.ninodes && fs.files[p] == [] && fs.m.st.inodes[p] == EmptyDisk.FreeInode()
    ensures Files.Acts(sb, fs, p, Files.StartWrite(p, 0, [v]), None, fs') && Stands(sb, fs', p, v, Begun)
    ensures fs' == fs.(ops := fs.ops[p := Files.Writing(p, 0, [v], 0, Files.Plain)])
  {
    fs' := fs.(ops := fs.ops[p := Files.Writing(p, 0, [v], 0, Files.Plain)]);
  }

  // --------------------------------------------------------------- in turn

  lemma FsInv(L: Core.Layout, sb: Super, t: Trace, s: State)
    requires Reaches(L, sb, t, s)
    ensures Files.Inv(sb, s.fs) && Sized(sb, s.fs.m.st)
  {
    hide IsRun;
    Facts(L, sb, s);
  }

  lemma TakeTurn(L: Core.Layout, sb: Super, t: Trace, s: State, p: nat, v: Byte, w: Byte, k: Stage, h: Stage,
                 b: nat, n: nat) returns (t': Trace, s': State)
    requires Reaches(L, sb, t, s) && BothIn(s, n) && p < 2 && n < L.Cap() && n < Core.MAXOPBLOCKS
    requires Stands(sb, s.fs, p, v, k) && Stands(sb, s.fs, 1 - p, w, h) && !k.Closed?
    requires k.Begun? ==> b < sb.size && !Bit(sb, s.fs.m.st, b)
    ensures Reaches(L, sb, t', s') && BothIn(s', n + 1) && Stands(sb, s'.fs, 1 - p, w, h) && t.run <= t'.run
    ensures Stands(sb, s'.fs, p, v, match k case Begun => Took case Took => Has case Has => Put case _ => Closed)
    ensures Sized(sb, s.fs.m.st) && Sized(sb, s'.fs.m.st)
    ensures k.Begun? ==> OneBit(sb, s.fs.m.st, s'.fs.m.st, b, true)
  {
    hide Reaches, Stands, Files.Acts, Files.Inv, Bit, BothIn;
    FsInv(L, sb, t, s);
    var x, fs', d;
    match k {
      case Begun => x, fs' := Taking(sb, s.fs, p, v, b); d := Files.Take(b);
      case Took => x, fs' := Filling(sb, s.fs, p, v); d := Files.Fill;
      case Has => x, fs' := Storing(sb, s.fs, p, v); d := Files.Store;
      case Put => x, fs' := Finishing(sb, s.fs, p, v); d := Files.Finish;
    }
    t', s' := Logged(L, sb, t, s, p, d, x, fs', n);
    FsInv(L, sb, t', s');
    OtherStays(sb, s.fs, s'.fs, p, 1 - p, w, h);
  }

  // ------------------------------------------------------------------- boot

  /** A fresh file system: nothing under way, the first two files empty, the data blocks free. */
  ghost predicate Fresh(sb: Super, fs: Files.Shared) {
    && Sized(sb, fs.m.st) && sb.ninodes >= 2 && |fs.files| == sb.ninodes && fs.ops == map[]
    && (forall j | 0 <= j < 2 :: fs.m.st.inodes[j] == EmptyDisk.FreeInode() && fs.files[j] == [])
    && (forall b: nat | sb.nmeta <= b < sb.size :: !Bit(sb, fs.m.st, b))
  }

  lemma BootState(L: Core.Layout, sb: Super) returns (s: State)
    requires Fits(L, sb) && sb.ninodes >= 2
    ensures Init(L, sb, s) && Fresh(sb, s.fs) && s.sys.procs == [Log.Out, Log.Out] && s.sys.core.lh == []
    ensures Core.HeaderFits(s.sys.core.mem[L.start]) && Core.HeaderOf(s.sys.core.mem[L.start]) == []
  {
    hide Core.HeaderOf, Core.HeaderFits, Core.Durable, Decoded, Shows, EmptyDisk.Formatted, Sound;
    var st := EmptyDisk.Formatted(sb);
    EmptyDisk.FormattedIsSound(sb);
    SoundSized(sb, st);
    var sys := SerialRuns.BootDisk(L, sb, st, 2);
    var view := Core.Durable(L, sys.core);
    DecodedSound(L, sb, view, st);
    s := State(sys, Recovered(sb, view));
    assert sys.procs == [Log.Out, Log.Out];
    FreshFromDisk(sb, view, st);
  }

  lemma FreshFromDisk(sb: Super, view: Core.View, st: Fs)
    requires sb.Valid() && sb.ninodes >= 2 && Sound(sb, Decoded(sb, view)) && st == EmptyDisk.Formatted(sb)
    requires Decoded(sb, view).inodes == st.inodes
    ensures Fresh(sb, Recovered(sb, view))
  {
    hide Decoded, Bit, ByteAt, DiskInode, GetWord;
    var d := Decoded(sb, view);
    forall b: nat | sb.nmeta <= b < sb.size
      ensures !Bit(sb, d, b)
    {
      assert forall s | IsSlot(sb, s) :: Ref(sb, d, NONE, s) == 0;
      assert !Referenced(sb, d, NONE, b);
    }
  }

  lemma LogMove(L: Core.Layout, sb: Super, t: Trace, s: State, a: Log.Action, sys': Log.Sys)
    returns (t': Trace, s': State)
    requires Reaches(L, sb, t, s) && !a.DoWrite? && !a.CrashNow? && (a.EndOp? ==> a.p !in s.fs.ops)
    requires Core.Sized(L, s.sys.core) && Log.Next(L, s.sys, a, sys') && Log.Contained(L, sys')
    ensures Reaches(L, sb, t', s') && s' == s.(sys := sys') && t.run <= t'.run
  {
    hide IsRun, Inv, Log.Next, Core.Sized, Recovered;
    s' := s.(sys := sys');
    Extend(L, sb, t, s, Logs(a), s');
    t' := t.Add(Logs(a), s');
  }

  /** Recovery of an empty log, and both processes begin an operation. */
  lemma BothBegin(L: Core.Layout, sb: Super) returns (t: Trace, s: State)
    requires Fits(L, sb) && sb.ninodes >= 2
    ensures Reaches(L, sb, t, s) && Fresh(sb, s.fs) && BothIn(s, 0)
  {
    hide Reaches, Inv, Fresh, Core.PutEntries, Core.HeaderOf, Core.HeaderFits;
    var s0 := BootState(L, sb);
    t := Trace([s0], []);
    StartReaches(L, sb, s0);
    var c1 := Core.ReadHeadStep(L, s0.sys.core);
    var s1, s2, s3;
    t, s1 := LogMove(L, sb, t, s0, Log.DiskWrite(c1), s0.sys.(core := c1));
    var c2 := Core.ClearStep(L, c1);
    t, s2 := LogMove(L, sb, t, s1, Log.DiskWrite(c2), s1.sys.(core := c2, booting := false));
    t, s3 := LogMove(L, sb, t, s2, Log.BeginOp(0), Log.Begin(s2.sys, 0));
    t, s := LogMove(L, sb, t, s3, Log.BeginOp(1), Log.Begin(s3.sys, 1));
  }

  lemma StartReaches(L: Core.Layout, sb: Super, s: State)
    requires Init(L, sb, s)
    ensures Reaches(L, sb, Trace([s], []), s) && Core.Sized(L, s.sys.core) && s.sys.core.pc.Boot? && s.sys.booting
    ensures s.sys.outstanding == 0 && !s.sys.committing
  {
    hide Inv, Recovered, Sound;
    InitInv(L, sb, s);
    Facts(L, sb, s);
  }

  // ------------------------------------------------------------- the whole run

  lemma BothStart(L: Core.Layout, sb: Super, t: Trace, s: State, v: Byte, w: Byte) returns (t': Trace, s': State)
    requires Reaches(L, sb, t, s) && Fresh(sb, s.fs) && BothIn(s, 0)
    ensures Reaches(L, sb, t', s') && BothIn(s', 0) && t.run <= t'.run && s'.fs.m == s.fs.m
    ensures Stands(sb, s'.fs, 0, v, Begun) && Stands(sb, s'.fs, 1, w, Begun)
  {
    hide Reaches, Files.Acts, BothIn, Bit;
    var fs1 := Beginning(sb, s.fs, 0, v);
    var s1;
    t', s1 := Private(L, sb, t, s, 0, Files.StartWrite(0, 0, [v]), fs1, 0);
    var fs2 := Beginning(sb, s1.fs, 1, w);
    t', s' := Private(L, sb, t', s1, 1, Files.StartWrite(1, 0, [w]), fs2, 0);
  }

  lemma BothWrite(L: Core.Layout, sb: Super, t: Trace, s: State, v: Byte, w: Byte) returns (t': Trace, s': State)
    requires Reaches(L, sb, t, s) && BothIn(s, 0) && L.Cap() >= 8 && sb.nmeta + 2 <= sb.size
    requires Stands(sb, s.fs, 0, v, Begun) && Stands(sb, s.fs, 1, w, Begun)
    requires forall b: nat | sb.nmeta <= b < sb.size :: !Bit(sb, s.fs.m.st, b)
    ensures Reaches(L, sb, t', s') && BothIn(s', 8) && t.run <= t'.run
    ensures Stands(sb, s'.fs, 0, v, Closed) && Stands(sb, s'.fs, 1, w, Closed)
  {
    hide Reaches, Stands, BothIn, Bit;
    var b := sb.nmeta;
    t', s' := TakeTurn(L, sb, t, s, 0, v, w, Begun, Begun, b, 0);
    t', s' := TakeTurn(L, sb, t', s', 1, w, v, Begun, Took, b + 1, 1);
    t', s' := TakeTurn(L, sb, t', s', 0, v, w, Took, Took, 0, 2);
    t', s' := TakeTurn(L, sb, t', s', 1, w, v, Took, Has, 0, 3);
    t', s' := TakeTurn(L, sb, t', s', 0, v, w, Has, Has, 0, 4);
    t', s' := TakeTurn(L, sb, t', s', 1, w, v, Has, Put, 0, 5);
    t', s' := TakeTurn(L, sb, t', s', 0, v, w, Put, Put, 0, 6);
    t', s' := TakeTurn(L, sb, t', s', 1, w, v, Put, Closed, 0, 7);
  }

  lemma TwoInside(L: Core.Layout, sb: Super, t: Trace, s: State, n: nat)
    requires Reaches(L, sb, t, s) && BothIn(s, n)
    ensures s.sys.outstanding == 2 && Core.Sized(L, s.sys.core) && Log.Contained(L, s.sys)
  {
    hide IsRun;
    Facts(L, sb, s);
    hide Files.Inv, Shows, Sound;
    Log.SumAll(s.sys.procs);
  }

  /** Both operations end, on the disk's side as one group. */
  lemma BothEnd(L: Core.Layout, sb: Super, t: Trace, s: State, v: Byte, w: Byte) returns (t': Trace, s': State)
    requires Reaches(L, sb, t, s) && BothIn(s, 8)
    requires Stands(sb, s.fs, 0, v, Closed) && Stands(sb, s.fs, 1, w, Closed)
    ensures Reaches(L, sb, t', s') && t.run <= t'.run && s'.sys.outstanding == 0 && s'.sys.committing
    ensures |s'.fs.files| >= 2 && s'.fs.files[0] == [v] && s'.fs.files[1] == [w]
  {
    hide Reaches, Files.Acts, Core.Sized;
    var fs1 := Ending(sb, s.fs, 0, v);
    var s1, s2, s3;
    t', s1 := Private(L, sb, t, s, 0, Files.End, fs1, 8);
    var fs2 := Ending(sb, s1.fs, 1, w);
    t', s2 := Private(L, sb, t', s1, 1, Files.End, fs2, 8);
    TwoInside(L, sb, t', s2, 8);
    t', s3 := LogMove(L, sb, t', s2, Log.EndOp(0), Log.End(s2.sys, 0));
    t', s' := LogMove(L, sb, t', s3, Log.EndOp(1), Log.End(s3.sys, 1));
  }

  /**
    A run in which two writes overlap from beginning to end: at moment `mid` both
    operations are in progress, and at the end of the run they are committed together,
    each file with its byte.
   */
  lemma TwoWritesOverlap(L: Core.Layout, sb: Super, v: Byte, w: Byte) returns (t: Trace, s: State, mid: nat)
    requires Fits(L, sb) && sb.ninodes >= 2 && L.Cap() >= 8 && sb.nmeta + 2 <= sb.size
    ensures IsRun(L, sb, t.run, t.moves) && t.run[|t.moves|] == s
    ensures mid < |t.run| && t.run[mid].sys.outstanding == 2 && t.run[mid].fs.ops.Keys >= {0, 1}
    ensures s.sys.outstanding == 0 && s.sys.committing
    ensures |s.fs.files| >= 2 && s.fs.files[0] == [v] && s.fs.files[1] == [w]
  {
    hide IsRun, Inv;
    t, s := BothBegin(L, sb);
    t, s := BothStart(L, sb, t, s, v, w);
    mid := |t.moves|;
    RunLength(L, sb, t, s);
    TwoInside(L, sb, t, s, 0);
    t, s := BothWrite(L, sb, t, s, v, w);
    t, s := BothEnd(L, sb, t, s, v, w);
  }

  lemma RunLength(L: Core.Layout, sb: Super, t: Trace, s: State)
    requires Reaches(L, sb, t, s)
    ensures |t.run| == |t.moves| + 1
  {
  }
}
