/**
  Operations that overlap and are committed as a group: the steps of SharedFs,
  every block they log written through the log of LogSystem, crashes anywhere.
 */
module GroupCommit {
  import opened Common
  import opened Blocks
  import opened FsFormat
  import opened FsState
  import opened FileBytes
  import opened CrashSafety
  import opened SharedOwn
  import Files = SharedFs
  import Core = LogCore
  import Log = LogSystem
  import SerialRuns

  datatype State = State(sys: Log.Sys, fs: Files.Shared)

  /**
    Privately: a step that logs nothing.  Writes: a step that logs block x.  Logs: an
    action of the log that writes no block of the file system.
   */
  datatype Move = Privately(p: nat, d: Files.Deed) | Writes(p: nat, d: Files.Deed, x: nat) | Logs(a: Log.Action)

  predicate Inside(s: Log.Sys, p: nat) {
    p < |s.procs| && s.procs[p].InOp?
  }

  /** The file system that the kernel finds on a disk after recovery. */
  ghost function Recovered(sb: Super, view: Core.View): Files.Shared
    requires sb.Valid()
  {
    var st := Decoded(sb, view);
    Files.Shared(Mid(st, map[], map[]), map[], seq(sb.ninodes, j requires 0 <= j < sb.ninodes => FileOf(sb, st, j)))
  }

  ghost function FileOf(sb: Super, st: Fs, j: nat): seq<Byte> {
    if Sized(sb, st) && j < sb.ninodes && st.inodes[j].size <= MAXFILE * BSIZE then Contents(sb, st, j) else []
  }

  /** A process works on files between begin_op and end_op only, and has finished them by end_op. */
  ghost predicate Next(L: Core.Layout, sb: Super, s: State, m: Move, s': State) {
    && Core.Sized(L, s.sys.core)
    && match m
       case Privately(p, d) =>
         Inside(s.sys, p) && Files.Acts(sb, s.fs, p, d, None, s'.fs) && s'.sys == s.sys
       case Writes(p, d, x) =>
         && Files.Acts(sb, s.fs, p, d, Some(x), s'.fs) && x < |s'.fs.m.st.blocks|
         && Log.Next(L, s.sys, Log.DoWrite(p, x, s'.fs.m.st.blocks[x]), s'.sys)
       case Logs(a) =>
         && !a.DoWrite? && Log.Next(L, s.sys, a, s'.sys) && (a.EndOp? ==> a.p !in s.fs.ops)
         && if a.CrashNow? then
              sb.Valid() && Core.DiskOk(L, s.sys.core.disk) && s'.fs == Recovered(sb, Core.Durable(L, s.sys.core))
            else s'.fs == s.fs
  }

  // ------------------------------------------------------------- invariant

  /** Callers see the blocks of the file system as it is; a crash would leave a sound one. */
  ghost predicate Inv(L: Core.Layout, sb: Super, s: State) {
    && Log.SysInv(L, s.sys) && Files.Inv(sb, s.fs) && Shows(L, sb, Core.Current(L, s.sys.core), s.fs.m.st)
    && (forall p | p in s.fs.ops :: Inside(s.sys, p))
    && Sound(sb, Decoded(sb, Core.Durable(L, s.sys.core)))
  }

  lemma NobodyInside(L: Core.Layout, sb: Super, s: State)
    requires Inv(L, sb, s) && s.sys.outstanding == 0
    ensures s.fs.ops == map[]
  {
    hide Files.Inv, Core.Inv, Shows, Sound, Log.Sum;
    if s.fs.ops != map[] {
      var p :| p in s.fs.ops;
      Log.OpMeansOutstanding(s.sys, p);
      assert false;
    }
  }

  /** With no operation in progress callers see a sound file system with the files that were written. */
  lemma QuietSound(L: Core.Layout, sb: Super, s: State)
    requires Inv(L, sb, s) && s.sys.outstanding == 0
    ensures Core.Sized(L, s.sys.core) && Core.DiskOk(L, s.sys.core.disk)
    ensures Sound(sb, s.fs.m.st) && Shows(L, sb, Core.Current(L, s.sys.core), s.fs.m.st) && Sized(sb, s.fs.m.st)
    ensures Sound(sb, Decoded(sb, Core.Current(L, s.sys.core)))
    ensures |s.fs.files| == sb.ninodes
    ensures forall j: nat | j < sb.ninodes ::
        s.fs.m.st.inodes[j].size <= MAXFILE * BSIZE && Contents(sb, s.fs.m.st, j) == s.fs.files[j]
  {
    SerialRuns.InvViews(L, s.sys);
    NobodyInside(L, sb, s);
    hide Log.SysInv, Shows, Core.Current;
    Files.AtRest(sb, s.fs);
    FilesCounted(sb, s.fs);
    hide Files.Inv, Sound;
    DecodedSound(L, sb, Core.Current(L, s.sys.core), s.fs.m.st);
  }

  lemma FilesCounted(sb: Super, fs: Files.Shared)
    requires Files.Inv(sb, fs)
    ensures |fs.files| == sb.ninodes && Sized(sb, fs.m.st)
  {
  }

  lemma RecoveredInv(sb: Super, view: Core.View)
    requires sb.Valid() && Sound(sb, Decoded(sb, view))
    ensures Files.Inv(sb, Recovered(sb, view))
  {
    hide Decoded, Bit, Ref, DiskInode, ByteAt;
    var st := Decoded(sb, view);
    var fs := Recovered(sb, view);
    RestIsOwned(sb, st);
    hide OwnedBy;
    forall j: nat | j < sb.ninodes
      ensures Files.Intact(sb, st, j, fs.files[j])
    {
      assert NoHoles(sb, st, j) && Synced(sb, st, j);
    }
  }

  // ------------------------------------------------------ every step keeps it

  /** What is durable moves only with no operation in progress, to what callers then see. */
  lemma DurableSteps(L: Core.Layout, s: Log.Sys, a: Log.Action, s': Log.Sys)
    requires Log.SysInv(L, s) && Log.Next(L, s, a, s') && Log.Contained(L, s')
    ensures Log.SysInv(L, s') && Core.DiskOk(L, s.core.disk) && Core.DiskOk(L, s'.core.disk) && Core.Sized(L, s.core)
    ensures Core.Durable(L, s'.core) == Core.Durable(L, s.core) ||
            (s.outstanding == 0 && Core.Durable(L, s'.core) == Core.Current(L, s.core))
  {
    hide Log.Next, Log.SpecStep, Core.Durable, Core.Current;
    Log.Refines(L, s, a, s');
    SerialRuns.InvViews(L, s);
    SerialRuns.InvViews(L, s');
    Log.DurableMoves(Log.Abs(L, s), Log.Abs(L, s'));
  }

  lemma StillInside(L: Core.Layout, s: Log.Sys, a: Log.Action, s': Log.Sys, p: nat)
    requires Core.Sized(L, s.core) && Log.Next(L, s, a, s') && Inside(s, p) && !a.CrashNow? && a != Log.EndOp(p)
    ensures Inside(s', p)
  {
    hide Core.Step, Core.Sized;
  }

  lemma ShowsWrite(L: Core.Layout, sb: Super, view: Core.View, st: Fs, st': Fs, x: nat)
    requires Shows(L, sb, view, st) && Touches(st, st', x) && sb.inodestart <= x < sb.size
    ensures L.Home(x) && Shows(L, sb, view[x := st'.blocks[x]], st')
  {
  }

  lemma ShowsSame(L: Core.Layout, sb: Super, view: Core.View, st: Fs, st': Fs)
    requires Shows(L, sb, view, st) && st'.blocks == st.blocks
    ensures Shows(L, sb, view, st')
  {
  }

  /** The part of the invariant that speaks of the disk. */
  lemma DurableStaysSound(L: Core.Layout, sb: Super, s: State, a: Log.Action, sys': Log.Sys)
    requires Inv(L, sb, s) && Core.Sized(L, s.sys.core) && Log.Next(L, s.sys, a, sys') && Log.Contained(L, sys')
    ensures Log.SysInv(L, sys') && Core.DiskOk(L, sys'.core.disk) && sb.Valid()
    ensures Sound(sb, Decoded(sb, Core.Durable(L, sys'.core)))
  {
    hide Log.Next, Files.Inv, Shows, Sound, Decoded, Core.Durable, Core.Current;
    ShowsValid(L, sb, s);
    DurableSteps(L, s.sys, a, sys');
    if s.sys.outstanding == 0 { QuietSound(L, sb, s); }
  }

  lemma ShowsValid(L: Core.Layout, sb: Super, s: State)
    requires Inv(L, sb, s)
    ensures Fits(L, sb)
  {
  }

  lemma PrivateKeeps(L: Core.Layout, sb: Super, s: State, p: nat, d: Files.Deed, s': State)
    requires Inv(L, sb, s) && Next(L, sb, s, Privately(p, d), s')
    ensures Inv(L, sb, s')
  {
    hide Files.Inv, Sound, Decoded, Shows, Core.Current, Core.Durable, Core.Sized;
    SerialRuns.InvViews(L, s.sys);
    hide Log.SysInv;
    Files.NextKeeps(sb, s.fs, p, d, None, s'.fs);
    Files.OnlyOwn(sb, s.fs, p, d, None, s'.fs);
    hide Files.Acts;
    ShowsSame(L, sb, Core.Current(L, s.sys.core), s.fs.m.st, s'.fs.m.st);
  }

  lemma WriteKeeps(L: Core.Layout, sb: Super, s: State, p: nat, d: Files.Deed, x: nat, s': State)
    requires Inv(L, sb, s) && Next(L, sb, s, Writes(p, d, x), s') && Log.Contained(L, s'.sys)
    ensures Inv(L, sb, s')
  {
    hide Files.Inv, Sound, Decoded, Shows, Core.Current, Core.Durable, Core.Sized, Log.Next;
    SerialRuns.InvViews(L, s.sys);
    hide Log.SysInv;
    Files.NextKeeps(sb, s.fs, p, d, Some(x), s'.fs);
    Files.OnlyOwn(sb, s.fs, p, d, Some(x), s'.fs);
    hide Files.Acts;
    var a := Log.DoWrite(p, x, s'.fs.m.st.blocks[x]);
    SerialRuns.CurrentMoves(L, s.sys, a, s'.sys);
    SerialRuns.InvViews(L, s'.sys);
    ShowsWrite(L, sb, Core.Current(L, s.sys.core), s.fs.m.st, s'.fs.m.st, x);
    DurableStaysSound(L, sb, s, a, s'.sys);
    forall q | q in s'.fs.ops
      ensures Inside(s'.sys, q)
    {
      WriterInside(L, s.sys, a);
      StillInside(L, s.sys, a, s'.sys, q);
    }
  }

  lemma WriterInside(L: Core.Layout, s: Log.Sys, a: Log.Action)
    requires Core.Sized(L, s.core) && a.DoWrite? && exists s' :: Log.Next(L, s, a, s')
    ensures Inside(s, a.p)
  {
  }

  lemma LogKeeps(L: Core.Layout, sb: Super, s: State, a: Log.Action, s': State)
    requires Inv(L, sb, s) && Next(L, sb, s, Logs(a), s') && Log.Contained(L, s'.sys)
    ensures Inv(L, sb, s')
  {
    hide Files.Inv, Sound, Decoded, Shows, Core.Current, Core.Durable, Core.Sized, Log.Next, Recovered;
    SerialRuns.InvViews(L, s.sys);
    hide Log.SysInv;
    SerialRuns.CurrentMoves(L, s.sys, a, s'.sys);
    SerialRuns.InvViews(L, s'.sys);
    DurableStaysSound(L, sb, s, a, s'.sys);
    if a.CrashNow? {
      CrashKeeps(L, sb, s, s');
    } else {
      forall q | q in s'.fs.ops
        ensures Inside(s'.sys, q)
      {
        StillInside(L, s.sys, a, s'.sys, q);
      }
    }
  }

  lemma CrashKeeps(L: Core.Layout, sb: Super, s: State, s': State)
    requires Inv(L, sb, s) && sb.Valid() && Core.Sized(L, s.sys.core) && Core.DiskOk(L, s.sys.core.disk)
    requires s'.fs == Recovered(sb, Core.Durable(L, s.sys.core))
    ensures Files.Inv(sb, s'.fs) && s'.fs.ops == map[] && Shows(L, sb, Core.Durable(L, s.sys.core), s'.fs.m.st)
  {
    hide Files.Inv, Sound, Shows, Core.Current, Core.Durable, Decoded;
    ShowsValid(L, sb, s);
    var view := Core.Durable(L, s.sys.core);
    RecoveredInv(sb, view);
    SerialRuns.DurableHomes(L, s.sys.core);
    SerialRuns.OverDecoded(L, sb, view);
    SerialRuns.OverIsShows(L, sb, view, Decoded(sb, view));
  }

  lemma NextKeeps(L: Core.Layout, sb: Super, s: State, m: Move, s': State)
    requires Inv(L, sb, s) && Next(L, sb, s, m, s') && Log.Contained(L, s'.sys)
    ensures Inv(L, sb, s')
  {
    hide Inv, Next;
    match m
    case Privately(p, d) => PrivateKeeps(L, sb, s, p, d, s');
    case Writes(p, d, x) => WriteKeeps(L, sb, s, p, d, x, s');
    case Logs(a) => LogKeeps(L, sb, s, a, s');
  }

  // ------------------------------------------------------------- whole runs

  /** The system comes up on a disk with a sound file system. */
  ghost predicate Init(L: Core.Layout, sb: Super, s: State) {
    && Log.Init(L, s.sys) && Fits(L, sb) && s.fs == Recovered(sb, Core.Durable(L, s.sys.core))
    && Sound(sb, Decoded(sb, Core.Durable(L, s.sys.core)))
  }

  ghost predicate IsRun(L: Core.Layout, sb: Super, run: seq<State>, moves: seq<Move>) {
    && |run| == |moves| + 1 && Init(L, sb, run[0])
    && forall i | 0 <= i < |moves| :: Next(L, sb, run[i], moves[i], run[i + 1])
  }

  lemma InitInv(L: Core.Layout, sb: Super, s: State)
    requires Init(L, sb, s)
    ensures Inv(L, sb, s)
  {
    hide Sound, Shows, Decoded, Files.Inv, Core.HeaderOf, Core.HeaderFits, Core.Replayed;
    Log.InitInv(L, s.sys);
    var view := Core.Durable(L, s.sys.core);
    RecoveredInv(sb, view);
    SerialRuns.DurableHomes(L, s.sys.core);
    SerialRuns.OverDecoded(L, sb, view);
    SerialRuns.OverIsShows(L, sb, view, Decoded(sb, view));
    assert Core.Current(L, s.sys.core) == view;
  }

  lemma {:induction false} RunInv(L: Core.Layout, sb: Super, run: seq<State>, moves: seq<Move>, i: nat)
    requires IsRun(L, sb, run, moves) && i < |run| && (L.size > Core.LOGSIZE || Log.Contained(L, run[i].sys))
    ensures Inv(L, sb, run[i])
  {
    hide Inv, Next, Init;
    if i == 0 {
      InitInv(L, sb, run[0]);
    } else {
      var j := i - 1;
      assert Next(L, sb, run[j], moves[j], run[j + 1]);
      SizedHere(L, sb, run[j], moves[j], run[j + 1]);
      RunInv(L, sb, run, moves, j);
      if L.size > Core.LOGSIZE { StaysContained(L, sb, run[j], moves[j], run[j + 1]); }
      NextKeeps(L, sb, run[j], moves[j], run[j + 1]);
    }
  }

  lemma SizedHere(L: Core.Layout, sb: Super, s: State, m: Move, s': State)
    requires Next(L, sb, s, m, s')
    ensures Core.Sized(L, s.sys.core) && Log.Contained(L, s.sys)
  {
  }

  lemma StaysContained(L: Core.Layout, sb: Super, s: State, m: Move, s': State)
    requires Inv(L, sb, s) && Next(L, sb, s, m, s') && L.size > Core.LOGSIZE
    ensures Log.Contained(L, s'.sys)
  {
    hide Log.SysInv, Files.Inv, Shows, Sound, Files.Acts, Log.Next;
    match m
    case Privately(_, _) =>
    case Writes(p, _, x) => Log.NextContained(L, s.sys, Log.DoWrite(p, x, s'.fs.m.st.blocks[x]), s'.sys);
    case Logs(a) => Log.NextContained(L, s.sys, a, s'.sys);
  }

  lemma DurableMove(L: Core.Layout, sb: Super, s: State, m: Move, s': State)
    requires Inv(L, sb, s) && Next(L, sb, s, m, s') && Log.Contained(L, s'.sys)
    ensures Core.DiskOk(L, s.sys.core.disk) && Core.DiskOk(L, s'.sys.core.disk) && Core.Sized(L, s.sys.core)
    ensures Core.Durable(L, s'.sys.core) == Core.Durable(L, s.sys.core) ||
            (s.sys.outstanding == 0 && Core.Durable(L, s'.sys.core) == Core.Current(L, s.sys.core))
  {
    hide Log.Next, Files.Inv, Files.Acts, Shows, Sound, Decoded, Core.Durable, Core.Current;
    match m
    case Privately(_, _) => SerialRuns.InvViews(L, s.sys);
    case Writes(p, _, x) => DurableSteps(L, s.sys, Log.DoWrite(p, x, s'.fs.m.st.blocks[x]), s'.sys);
    case Logs(a) => DurableSteps(L, s.sys, a, s'.sys);
  }

  /** What a crash would leave is what callers saw at some earlier moment with no operation in progress. */
  lemma {:induction false} DurableWas(L: Core.Layout, sb: Super, run: seq<State>, moves: seq<Move>, i: nat)
    returns (j: nat)
    requires IsRun(L, sb, run, moves) && i < |run| && (L.size > Core.LOGSIZE || Log.Contained(L, run[i].sys))
    ensures j <= i && run[j].sys.outstanding == 0 && Inv(L, sb, run[i]) && Inv(L, sb, run[j])
    ensures Core.DiskOk(L, run[i].sys.core.disk) && Core.DiskOk(L, run[j].sys.core.disk)
    ensures Core.Sized(L, run[j].sys.core)
    ensures Core.Durable(L, run[i].sys.core) == Core.Current(L, run[j].sys.core)
  {
    hide Inv, Next, Init, Core.Durable, Core.Current;
    RunInv(L, sb, run, moves, i);
    if i == 0 {
      StartsQuiet(L, sb, run[0]);
      j := 0;
    } else {
      var k := i - 1;
      assert Next(L, sb, run[k], moves[k], run[k + 1]);
      SizedHere(L, sb, run[k], moves[k], run[k + 1]);
      InvContained(L, sb, run[i]);
      j := DurableWas(L, sb, run, moves, k);
      DurableMove(L, sb, run[k], moves[k], run[k + 1]);
      if Core.Durable(L, run[i].sys.core) != Core.Durable(L, run[k].sys.core) { j := k; }
    }
  }

  lemma InvContained(L: Core.Layout, sb: Super, s: State)
    requires Inv(L, sb, s)
    ensures Log.Contained(L, s.sys) && Core.DiskOk(L, s.sys.core.disk)
  {
    hide Log.SysInv, Files.Inv, Shows, Sound;
    Log.InvMeansContained(L, s.sys);
    SerialRuns.InvViews(L, s.sys);
  }

  lemma StartsQuiet(L: Core.Layout, sb: Super, s: State)
    requires Init(L, sb, s) && Inv(L, sb, s)
    ensures s.sys.outstanding == 0 && Core.DiskOk(L, s.sys.core.disk) && Core.Sized(L, s.sys.core)
    ensures Core.Durable(L, s.sys.core) == Core.Current(L, s.sys.core)
  {
    hide Files.Inv, Shows, Sound, Core.HeaderOf, Core.HeaderFits, Core.Replayed;
    SerialRuns.InvViews(L, s.sys);
  }

  /**
    Crash safety for any number of writei and itrunc at once, on different files: at
    every moment of every run the disk that a crash would leave holds a sound file
    system, whose files have the contents that the operations finished by some earlier
    moment gave them, the same moment for all files, with no operation in progress.
   */
  lemma CrashLeavesFiles(L: Core.Layout, sb: Super, run: seq<State>, moves: seq<Move>, i: nat) returns (j: nat)
    requires IsRun(L, sb, run, moves) && i < |run| && (L.size > Core.LOGSIZE || Log.Contained(L, run[i].sys))
    ensures j <= i && run[j].sys.outstanding == 0 && |run[j].fs.files| == sb.ninodes
    ensures sb.Valid() && Core.DiskOk(L, run[i].sys.core.disk)
    ensures var d := Decoded(sb, Core.Durable(L, run[i].sys.core));
      && Sound(sb, d)
      && forall f: nat | f < sb.ninodes ::
           d.inodes[f].size <= MAXFILE * BSIZE && Contents(sb, d, f) == run[j].fs.files[f]
  {
    hide Inv, IsRun, Sound, Shows, Core.Durable, Core.Current, Decoded;
    j := DurableWas(L, sb, run, moves, i);
    QuietSound(L, sb, run[j]);
    ShowsValid(L, sb, run[j]);
    var view, st := Core.Durable(L, run[i].sys.core), run[j].fs.m.st;
    DecodedSound(L, sb, view, st);
    var d := Decoded(sb, view);
    SoundSized(sb, d);
    forall f: nat | f < sb.ninodes
      ensures d.inodes[f].size <= MAXFILE * BSIZE && Contents(sb, d, f) == run[j].fs.files[f]
    {
      SameContents(sb, st, d, f);
    }
  }

  lemma SoundSized(sb: Super, st: Fs)
    requires Sound(sb, st)
    ensures Sized(sb, st)
  {
  }

  lemma SameContents(sb: Super, st: Fs, d: Fs, f: nat)
    requires Sized(sb, st) && Sized(sb, d) && f < sb.ninodes && d.inodes == st.inodes && SameBytes(sb, st, d)
    requires st.inodes[f].size <= MAXFILE * BSIZE
    ensures Contents(sb, d, f) == Contents(sb, st, f)
  {
    hide ByteAt;
  }
}
