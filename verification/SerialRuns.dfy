/**
  Runs of the log whose operations come one at a time, each writing through the
  log exactly the blocks that the file system code logged: such a run serves the
  file system in the sense of CrashSafety.
 */
module SerialRuns {
  import opened Common
  import opened Blocks
  import opened FsFormat
  import opened FsState
  import opened FileBytes
  import opened FileSystem
  import opened FileWrite
  import opened CrashSafety
  import Core = LogCore
  import Log = LogSystem

  /**
    st: the state that the finished operations have made.  written: what the
    operation in progress has handed to log_write so far, the latest contents of
    each block.
   */
  datatype Moment = Moment(st: Fs, written: map<nat, Block>)

  /**
    An operation that started in st and has written these blocks ends in st': it
    logged exactly them, and left each with the contents it wrote last.
   */
  ghost predicate Completes(sb: Super, st: Fs, written: map<nat, Block>, st': Fs) {
    || (written == map[] && st' == st)
    || (&& Operates(sb, st, st') && Logs(sb, st.blocks, {}, st'.blocks, written.Keys)
        && forall x | x in written :: x < |st'.blocks| && st'.blocks[x] == written[x])
  }

  /** What the file system does at an action of the log.  No operation begins while another is in progress. */
  ghost predicate Advances(L: Core.Layout, sb: Super, s: Log.Sys, a: Log.Action, s': Log.Sys, m: Moment, m': Moment) {
    match a
    case BeginOp(_) => m' == m && (s'.outstanding > s.outstanding ==> s.outstanding == 0)
    case DoWrite(_, b, data) => m' == m.(written := m.written[b := data])
    case EndOp(_) => m'.written == map[] && Completes(sb, m.st, m.written, m'.st)
    case CrashNow =>
      && Core.DiskOk(L, s.core.disk) && sb.Valid()
      && m' == Moment(Decoded(sb, Core.Durable(L, s.core)), map[])
    case _ => m' == m
  }

  ghost predicate Steps(L: Core.Layout, sb: Super, s: Log.Sys, a: Log.Action, s': Log.Sys, m: Moment, m': Moment) {
    Core.Sized(L, s.core) && Log.Next(L, s, a, s') && Advances(L, sb, s, a, s', m, m')
  }

  /** A system that comes up on a disk that shows m.st. */
  ghost predicate Starts(L: Core.Layout, sb: Super, s: Log.Sys, m: Moment) {
    Fits(L, sb) && Log.Init(L, s) && m.written == map[] && Shows(L, sb, Core.Durable(L, s.core), m.st)
  }

  ghost predicate Serial(L: Core.Layout, sb: Super, run: seq<Log.Sys>, acts: seq<Log.Action>, ms: seq<Moment>) {
    && |run| == |ms| == |acts| + 1 && Starts(L, sb, run[0], ms[0])
    && forall i | 0 <= i < |acts| :: Steps(L, sb, run[i], acts[i], run[i + 1], ms[i], ms[i + 1])
  }

  // --------------------------------------------------------- the invariant

  /** Callers see the blocks of the finished operations, under those written since. */
  ghost predicate Over(L: Core.Layout, sb: Super, view: Core.View, m: Moment) {
    && Fits(L, sb) && |m.st.blocks| == sb.size
    && (forall b: nat :: b in view <==> L.Home(b))
    && (forall b | b in m.written :: b in view)
    && (forall b | b in view :: view[b] == if b in m.written then m.written[b] else m.st.blocks[b])
  }

  ghost predicate Mirrors(L: Core.Layout, sb: Super, s: Log.Sys, m: Moment) {
    && Log.SysInv(L, s) && Over(L, sb, Core.Current(L, s.core), m)
    && s.outstanding <= 1 && (s.outstanding == 0 ==> m.written == map[])
  }

  lemma OverIsShows(L: Core.Layout, sb: Super, view: Core.View, st: Fs)
    ensures Over(L, sb, view, Moment(st, map[])) <==> Shows(L, sb, view, st)
  {
  }

  lemma InvViews(L: Core.Layout, s: Log.Sys)
    requires Log.SysInv(L, s)
    ensures Core.Sized(L, s.core) && Core.DiskOk(L, s.core.disk)
  {
  }

  lemma StartMirrors(L: Core.Layout, sb: Super, s: Log.Sys, m: Moment)
    requires Starts(L, sb, s, m)
    ensures Mirrors(L, sb, s, m)
  {
    hide Core.HeaderOf, Core.HeaderFits, Core.Replayed, Shows, Over;
    Log.InitInv(L, s);
    OverIsShows(L, sb, Core.Current(L, s.core), m.st);
    assert m == Moment(m.st, map[]);
  }

  lemma OverWrite(L: Core.Layout, sb: Super, view: Core.View, m: Moment, b: nat, data: Block)
    requires Over(L, sb, view, m) && L.Home(b)
    ensures Over(L, sb, view[b := data], m.(written := m.written[b := data]))
  {
  }

  /** At its end an operation has written all that its final state differs in. */
  lemma OverComplete(L: Core.Layout, sb: Super, view: Core.View, m: Moment, st': Fs)
    requires Over(L, sb, view, m) && Completes(sb, m.st, m.written, st')
    ensures Over(L, sb, view, Moment(st', map[]))
  {
    hide Operates;
  }

  lemma OverDecoded(L: Core.Layout, sb: Super, view: Core.View)
    requires Fits(L, sb) && forall b: nat :: b in view <==> L.Home(b)
    ensures Over(L, sb, view, Moment(Decoded(sb, view), map[]))
  {
    hide DecodedInode;
  }

  lemma DurableHomes(L: Core.Layout, c: Core.Core)
    requires Core.DiskOk(L, c.disk)
    ensures forall b: nat :: b in Core.Durable(L, c) <==> L.Home(b)
  {
    hide Core.Replayed, Core.DiskOk;
  }

  /** What callers see changes by the writes of operations and by crashes only. */
  lemma CurrentMoves(L: Core.Layout, s: Log.Sys, a: Log.Action, s': Log.Sys)
    requires Log.SysInv(L, s) && Log.Next(L, s, a, s') && Log.Contained(L, s')
    ensures Log.SysInv(L, s')
    ensures Core.Current(L, s'.core) ==
            match a
            case DoWrite(_, b, data) => Core.Current(L, s.core)[b := data]
            case CrashNow => Core.Durable(L, s.core)
            case _ => Core.Current(L, s.core)
  {
    hide Log.Sum, Core.Step, Core.Durable, Core.Replayed, Core.HeaderOf, Core.HeaderFits, GetWord;
    Log.NextKeeps(L, s, a, s');
    match a
    case DoWrite(p, b, data) =>
      Log.WriteKeeps(L, s, p, b, data);
      Core.LogWriteKeeps(L, s.core, b, data);
    case StartCommit(p) => Log.StartCommitShowsNothing(L, s.core);
    case DiskWrite(c) => Core.StepKeeps(L, s.core, c);
    case CrashNow => Core.CrashKeeps(L, s.core);
    case _ =>
  }

  lemma OutstandingMoves(L: Core.Layout, s: Log.Sys, a: Log.Action, s': Log.Sys)
    requires Log.SysInv(L, s) && Log.Next(L, s, a, s')
    ensures a.BeginOp? ==> s'.outstanding == s.outstanding || s'.outstanding == s.outstanding + 1
    ensures a.EndOp? ==> s'.outstanding == s.outstanding - 1
    ensures a.DoWrite? ==> s'.outstanding == s.outstanding > 0 && L.Home(a.b)
    ensures a.CrashNow? ==> s'.outstanding == 0
    ensures !(a.BeginOp? || a.EndOp? || a.CrashNow?) ==> s'.outstanding == s.outstanding
  {
    hide Log.Sum, Core.Step, Core.Inv;
    if a.DoWrite? { Log.OpMeansOutstanding(s, a.p); }
  }

  lemma MirrorsStep(L: Core.Layout, sb: Super, s: Log.Sys, a: Log.Action, s': Log.Sys, m: Moment, m': Moment)
    requires Mirrors(L, sb, s, m) && Steps(L, sb, s, a, s', m, m') && Log.Contained(L, s')
    ensures Mirrors(L, sb, s', m')
  {
    hide Log.SysInv, Log.Next, Over, Completes, Decoded, Core.Durable, Core.Current, Core.DiskOk, Core.Sized;
    InvViews(L, s);
    CurrentMoves(L, s, a, s');
    OutstandingMoves(L, s, a, s');
    match a
    case DoWrite(_, b, data) => OverWrite(L, sb, Core.Current(L, s.core), m, b, data);
    case EndOp(_) =>
      OverComplete(L, sb, Core.Current(L, s.core), m, m'.st);
      assert m' == Moment(m'.st, map[]);
    case CrashNow =>
      DurableHomes(L, s.core);
      assert Fits(L, sb) by { OverFits(L, sb, Core.Current(L, s.core), m); }
      OverDecoded(L, sb, Core.Durable(L, s.core));
    case _ =>
  }

  lemma OverFits(L: Core.Layout, sb: Super, view: Core.View, m: Moment)
    requires Over(L, sb, view, m)
    ensures Fits(L, sb)
  {
  }

  lemma {:induction false} SerialMirrors(L: Core.Layout, sb: Super, run: seq<Log.Sys>, acts: seq<Log.Action>,
                                         ms: seq<Moment>, i: nat)
    requires Serial(L, sb, run, acts, ms) && i < |run| && (L.size > Core.LOGSIZE || Log.Contained(L, run[i]))
    ensures Mirrors(L, sb, run[i], ms[i])
  {
    hide Mirrors, Steps, Starts;
    if i == 0 {
      StartMirrors(L, sb, run[0], ms[0]);
    } else {
      var j := i - 1;
      assert Steps(L, sb, run[j], acts[j], run[j + 1], ms[j], ms[j + 1]);
      StepContained(L, sb, run[j], acts[j], run[j + 1], ms[j], ms[j + 1]);
      SerialMirrors(L, sb, run, acts, ms, j);
      if L.size > Core.LOGSIZE { StaysContained(L, sb, run[j], acts[j], run[j + 1], ms[j], ms[j + 1]); }
      MirrorsStep(L, sb, run[j], acts[j], run[j + 1], ms[j], ms[j + 1]);
    }
  }

  lemma StepContained(L: Core.Layout, sb: Super, s: Log.Sys, a: Log.Action, s': Log.Sys, m: Moment, m': Moment)
    requires Steps(L, sb, s, a, s', m, m')
    ensures Log.Contained(L, s) && Log.CanStep(L, s, s')
  {
    hide Log.Next, Advances;
  }

  lemma StaysContained(L: Core.Layout, sb: Super, s: Log.Sys, a: Log.Action, s': Log.Sys, m: Moment, m': Moment)
    requires Mirrors(L, sb, s, m) && Steps(L, sb, s, a, s', m, m') && L.size > Core.LOGSIZE
    ensures Log.Contained(L, s')
  {
    hide Log.Next, Advances, Log.SysInv, Over;
    Log.NextContained(L, s, a, s');
  }

  // ------------------------------------------------------------ theorems

  ghost function States(ms: seq<Moment>): (fs: seq<Fs>)
    ensures |fs| == |ms| && forall i | 0 <= i < |ms| :: fs[i] == ms[i].st
  {
    seq(|ms|, i requires 0 <= i < |ms| => ms[i].st)
  }

  /** Operations that come one at a time and log what they change serve the file system. */
  lemma SerialServes(L: Core.Layout, sb: Super, run: seq<Log.Sys>, acts: seq<Log.Action>, ms: seq<Moment>)
    requires Serial(L, sb, run, acts, ms)
    ensures Serves(L, sb, run, States(ms))
  {
    hide Mirrors, Steps, Starts, Log.SysInv, Log.Init, Shows, Goes, Log.CanStep, Log.Contained, Fits;
    var fs := States(ms);
    StartsWell(L, sb, run[0], ms[0]);
    forall i | 0 <= i < |run| - 1
      ensures Log.CanStep(L, run[i], run[i + 1]) && Goes(L, sb, run[i], run[i + 1], fs[i], fs[i + 1])
    {
      assert Steps(L, sb, run[i], acts[i], run[i + 1], ms[i], ms[i + 1]);
      StepContained(L, sb, run[i], acts[i], run[i + 1], ms[i], ms[i + 1]);
      SerialMirrors(L, sb, run, acts, ms, i);
      StepGoes(L, sb, run[i], acts[i], run[i + 1], ms[i], ms[i + 1]);
    }
    forall i: nat | i < |run| {
      QuietAt(L, sb, run, acts, ms, i);
    }
  }

  lemma QuietAt(L: Core.Layout, sb: Super, run: seq<Log.Sys>, acts: seq<Log.Action>, ms: seq<Moment>, i: nat)
    requires Serial(L, sb, run, acts, ms) && i < |run|
    ensures Log.SysInv(L, run[i]) && Quiet(run[i]) ==> Shows(L, sb, Core.Current(L, run[i].core), ms[i].st)
  {
    hide Serial, Shows, Log.SysInv;
    if Log.SysInv(L, run[i]) && Quiet(run[i]) {
      SerialLengths(L, sb, run, acts, ms);
      Log.InvMeansContained(L, run[i]);
      SerialMirrors(L, sb, run, acts, ms, i);
      QuietShows(L, sb, run[i], ms[i]);
    }
  }

  lemma StartsWell(L: Core.Layout, sb: Super, s: Log.Sys, m: Moment)
    requires Starts(L, sb, s, m)
    ensures Fits(L, sb) && Log.Init(L, s)
  {
  }

  lemma StepGoes(L: Core.Layout, sb: Super, s: Log.Sys, a: Log.Action, s': Log.Sys, m: Moment, m': Moment)
    requires Mirrors(L, sb, s, m) && Steps(L, sb, s, a, s', m, m')
    ensures Goes(L, sb, s, s', m.st, m'.st)
  {
    hide Log.SysInv, Over, Operates, Decoded, Core.Durable, Logs;
  }

  lemma QuietShows(L: Core.Layout, sb: Super, s: Log.Sys, m: Moment)
    requires Mirrors(L, sb, s, m) && Quiet(s)
    ensures Log.SysInv(L, s) && Shows(L, sb, Core.Current(L, s.core), m.st)
  {
    hide Log.SysInv, Over, Shows;
    InvViews(L, s);
    assert m == Moment(m.st, map[]);
    OverIsShows(L, sb, Core.Current(L, s.core), m.st);
  }

  /**
    Crash safety, for operations one at a time and nothing assumed of the log's
    clients but what they write: at every moment a crash would leave the file system
    exactly as some earlier moment with no operation in progress had made it.
   */
  lemma SerialCrashSafe(L: Core.Layout, sb: Super, run: seq<Log.Sys>, acts: seq<Log.Action>, ms: seq<Moment>, i: nat)
    returns (j: nat)
    requires Serial(L, sb, run, acts, ms) && Sound(sb, ms[0].st)
    requires i < |run| && (L.size > Core.LOGSIZE || Log.Contained(L, run[i]))
    ensures j <= i && Quiet(run[j]) && Log.SysInv(L, run[i]) && Sound(sb, ms[j].st)
    ensures var d := Decoded(sb, Core.Durable(L, run[i].core));
      Sound(sb, d) && d.inodes == ms[j].st.inodes && SameBytes(sb, ms[j].st, d)
  {
    hide Serial, Serves, Sound, Decoded, SameBytes, Log.SysInv;
    assert |run| == |ms| by { SerialLengths(L, sb, run, acts, ms); }
    SerialServes(L, sb, run, acts, ms);
    j := CrashLeavesSound(L, sb, run, States(ms), i);
  }

  lemma SerialLengths(L: Core.Layout, sb: Super, run: seq<Log.Sys>, acts: seq<Log.Action>, ms: seq<Moment>)
    requires Serial(L, sb, run, acts, ms)
    ensures |run| == |ms| == |acts| + 1
  {
  }

  // ------------------------------------------- the operations as they write

  /** writei between begin_op and end_op: what it logs completes what it does. */
  method WriteOperation(fs: FileSystem, i: nat, src: seq<Byte>, off: Word)
    returns (r: int, panicked: bool, ghost written: map<nat, Block>)
    requires fs.Valid() && i < fs.sb.ninodes && NoHoles(fs.sb, fs.State(), i) && |src| < UINT_LIMIT
    modifies fs
    ensures !panicked ==> fs.Valid() && Completes(fs.sb, old(fs.State()), written, fs.State())
    ensures r == -1 <==> BadWrite(old(fs.inodes[i].size), off, |src|)
    ensures r == -1 ==> !panicked && written == map[]
    ensures r != -1 && !panicked ==> r == |src| && Written(fs.sb, old(fs.State()), fs.State(), i, off, src)
    ensures r != -1 && !panicked ==> written.Keys <= Footprint(fs.sb, fs.State(), i, off, |src|) + {fs.sb.IBlock(i)}
  {
    hide Owned, Written, NoHoles, Footprint;
    fs.logged := {};
    r, panicked := fs.WriteI(i, src, off);
    written := map x | x in fs.logged && x < |fs.blocks| :: fs.blocks[x];
    ghost var st, st' := old(fs.State()), fs.State();
    if r == -1 {
      assert written == map[];
    } else if !panicked {
      assert Written(fs.sb, st, st', i, off, src);
      OwnedSized(fs.sb, st');
      assert written.Keys == fs.logged;
    }
  }

  /** itrunc likewise. */
  method TruncOperation(fs: FileSystem, i: nat) returns (ghost written: map<nat, Block>)
    requires fs.Valid() && i < fs.sb.ninodes
    modifies fs
    ensures fs.Valid() && Completes(fs.sb, old(fs.State()), written, fs.State())
    ensures Truncated(fs.sb, old(fs.State()), fs.State(), i)
  {
    hide Owned, Truncated;
    fs.logged := {};
    fs.ITrunc(i);
    written := map x | x in fs.logged && x < |fs.blocks| :: fs.blocks[x];
    OwnedSized(fs.sb, fs.State());
    assert written.Keys == fs.logged;
  }

  // --------------------------------------- an operation, from boot to disk

  datatype Trace = Trace(run: seq<Log.Sys>, acts: seq<Log.Action>, ms: seq<Moment>) {
    function Add(a: Log.Action, s: Log.Sys, m: Moment): Trace {
      Trace(run + [s], acts + [a], ms + [m])
    }
  }

  /** A serial run that starts with st and has come to s and m. */
  ghost predicate Reaches(L: Core.Layout, sb: Super, t: Trace, st: Fs, s: Log.Sys, m: Moment) {
    && Serial(L, sb, t.run, t.acts, t.ms) && t.ms[0].st == st && Log.SysInv(L, s)
    && t.run[|t.acts|] == s && t.ms[|t.acts|] == m
  }

  lemma Extend(L: Core.Layout, sb: Super, t: Trace, st: Fs, s: Log.Sys, m: Moment, a: Log.Action, s': Log.Sys,
               m': Moment)
    requires Reaches(L, sb, t, st, s, m) && Steps(L, sb, s, a, s', m, m') && Log.Contained(L, s')
    ensures Reaches(L, sb, t.Add(a, s', m'), st, s', m')
  {
    hide Steps, Starts, Log.SysInv;
    NextInv(L, sb, s, a, s', m, m');
    var t' := t.Add(a, s', m');
    forall i | 0 <= i < |t'.acts|
      ensures Steps(L, sb, t'.run[i], t'.acts[i], t'.run[i + 1], t'.ms[i], t'.ms[i + 1])
    {
      if i < |t.acts| { assert Steps(L, sb, t.run[i], t.acts[i], t.run[i + 1], t.ms[i], t.ms[i + 1]); }
    }
  }

  lemma NextInv(L: Core.Layout, sb: Super, s: Log.Sys, a: Log.Action, s': Log.Sys, m: Moment, m': Moment)
    requires Log.SysInv(L, s) && Steps(L, sb, s, a, s', m, m') && Log.Contained(L, s')
    ensures Log.SysInv(L, s')
  {
    hide Log.SysInv, Log.Next, Advances;
    Log.NextKeeps(L, s, a, s');
  }

  /** A disk with the blocks of st and an empty log. */
  lemma BootDisk(L: Core.Layout, sb: Super, st: Fs, procs: nat) returns (s: Log.Sys)
    requires Fits(L, sb) && |st.blocks| == sb.size
    ensures Starts(L, sb, s, Moment(st, map[])) && s.procs == seq(procs, _ => Log.Out)
    ensures Core.HeaderFits(s.core.mem[L.start]) && Core.HeaderOf(s.core.mem[L.start]) == []
  {
    hide GetWord;
    var disk := st.blocks[L.start := ZeroBlock()];
    ZeroWords(0);
    Log.EmptyHeader(ZeroBlock());
    s := Log.Sys(Core.Core(disk, disk, {}, [], Core.Boot), seq(procs, _ => Log.Out), 0, false, true);
    hide Core.HeaderOf, Core.HeaderFits;
    assert forall b: nat | L.Home(b) :: Core.Replayed(L, disk, b) == st.blocks[b];
  }

  /** The log at rest, and process 0 outside. */
  ghost predicate AtRest(s: Log.Sys) {
    s.core.lh == [] && s.core.pc.Serving? && !s.booting && !s.committing && s.outstanding == 0 && s.procs == [Log.Out]
  }

  lemma BootUp(L: Core.Layout, sb: Super, st: Fs) returns (t: Trace, s: Log.Sys)
    requires Fits(L, sb) && |st.blocks| == sb.size
    ensures Reaches(L, sb, t, st, s, Moment(st, map[])) && AtRest(s)
  {
    hide Starts, Log.SysInv, Core.HeaderOf, Core.HeaderFits, GetWord, PutWord, Core.PutEntries, Core.Inv;
    var m := Moment(st, map[]);
    var s0 := BootDisk(L, sb, st, 1);
    StartMirrors(L, sb, s0, m);
    t := Trace([s0], [], [m]);
    assert Reaches(L, sb, t, st, s0, m);
    BootFacts(L, sb, s0, m);
    var s1 := s0.(core := Core.ReadHeadStep(L, s0.core));
    Extend(L, sb, t, st, s0, m, Log.DiskWrite(s1.core), s1, m);
    t := t.Add(Log.DiskWrite(s1.core), s1, m);
    InvViews(L, s1);
    s := s1.(core := Core.ClearStep(L, s1.core), booting := false);
    Extend(L, sb, t, st, s1, m, Log.DiskWrite(s.core), s, m);
    t := t.Add(Log.DiskWrite(s.core), s, m);
  }

  lemma BootFacts(L: Core.Layout, sb: Super, s: Log.Sys, m: Moment)
    requires Starts(L, sb, s, m)
    ensures Core.Sized(L, s.core) && s.core.pc.Boot? && s.booting && s.outstanding == 0 && !s.committing
    ensures L.Valid()
  {
  }

  /** The operation has logged the blocks `done`, each once. */
  ghost predicate Writing(s: Log.Sys, done: set<nat>) {
    && !s.booting && s.procs == [Log.InOp(|done|, false)] && s.outstanding == 1
    && Core.Elems(s.core.lh) == done && |s.core.lh| == |done|
  }

  lemma BeginOne(L: Core.Layout, sb: Super, t: Trace, st: Fs, s: Log.Sys) returns (t': Trace, s': Log.Sys)
    requires Reaches(L, sb, t, st, s, Moment(st, map[])) && AtRest(s)
    ensures Reaches(L, sb, t', st, s', Moment(st, map[])) && Writing(s', {})
  {
    hide Log.SysInv, Serial;
    s' := Log.Begin(s, 0);
    InvViews(L, s);
    var m := Moment(st, map[]);
    Extend(L, sb, t, st, s, m, Log.BeginOp(0), s', m);
    t' := t.Add(Log.BeginOp(0), s', m);
  }

  lemma TestOne(L: Core.Layout, sb: Super, t: Trace, st: Fs, s: Log.Sys, m: Moment, done: set<nat>)
    returns (t': Trace, s': Log.Sys)
    requires Reaches(L, sb, t, st, s, m) && Writing(s, done) && |done| < L.Cap()
    ensures Reaches(L, sb, t', st, s', m) && s' == Log.Pass(s, 0)
  {
    hide Log.SysInv, Serial;
    InvViews(L, s);
    s' := Log.Pass(s, 0);
    Extend(L, sb, t, st, s, m, Log.TestSize(0), s', m);
    t' := t.Add(Log.TestSize(0), s', m);
  }

  lemma WriteOne(L: Core.Layout, sb: Super, t: Trace, st: Fs, s: Log.Sys, m: Moment, done: set<nat>, x: nat,
                 data: Block)
    returns (t': Trace, s': Log.Sys)
    requires Reaches(L, sb, t, st, s, m) && Writing(s, done) && x !in done && L.Home(x)
    requires |done| < Core.MAXOPBLOCKS && |done| < L.Cap()
    ensures Reaches(L, sb, t', st, s', m.(written := m.written[x := data])) && Writing(s', done + {x})
  {
    hide Log.SysInv, Serial;
    var t1, s1 := TestOne(L, sb, t, st, s, m, done);
    InvViews(L, s1);
    s' := Log.Write(L, s1, 0, x, data);
    var a, m' := Log.DoWrite(0, x, data), m.(written := m.written[x := data]);
    OneMoreLogged(s.core.lh, x);
    Extend(L, sb, t1, st, s1, m, a, s', m');
    t' := t1.Add(a, s', m');
  }

  lemma OneMoreLogged(lh: seq<nat>, x: nat)
    ensures x in lh <==> x in Core.Elems(lh)
    ensures Core.Elems(lh + [x]) == Core.Elems(lh) + {x}
  {
  }

  /** All blocks of the operation, one after the other. */
  lemma {:induction false} WriteAll(L: Core.Layout, sb: Super, t: Trace, st: Fs, s: Log.Sys, written: map<nat, Block>)
    returns (t': Trace, s': Log.Sys)
    requires Reaches(L, sb, t, st, s, Moment(st, map[])) && Writing(s, {})
    requires |written| <= Core.MAXOPBLOCKS && |written| <= L.Cap() && forall x | x in written :: L.Home(x)
    ensures Reaches(L, sb, t', st, s', Moment(st, written)) && Writing(s', written.Keys)
    decreases |written|
  {
    hide Reaches, Writing;
    t', s' := t, s;
    if written == map[] {
      assert written.Keys == {};
    } else {
      var x :| x in written;
      var rest := written - {x};
      OneFewer(written, x);
      t', s' := WriteAll(L, sb, t, st, s, rest);
      t', s' := WriteOne(L, sb, t', st, s', Moment(st, rest), rest.Keys, x, written[x]);
    }
  }

  lemma OneFewer(m: map<nat, Block>, x: nat)
    requires x in m
    ensures |m - {x}| == |m| - 1 && (m - {x}).Keys + {x} == m.Keys && (m - {x})[x := m[x]] == m
  {
    assert (m - {x}).Keys == m.Keys - {x};
    assert |(m - {x}).Keys| == |m - {x}| && |m.Keys| == |m|;
  }

  /** The commit has copied k blocks to the log. */
  ghost predicate Copying(s: Log.Sys, n: nat, k: nat) {
    s.committing && s.outstanding == 0 && !s.booting && |s.core.lh| == n && s.core.pc == Core.WriteLog(k)
  }

  /** The operation ends, and being the only one it starts the commit. */
  lemma EndOne(L: Core.Layout, sb: Super, t: Trace, st: Fs, s: Log.Sys, written: map<nat, Block>, st': Fs)
    returns (t': Trace, s': Log.Sys)
    requires Reaches(L, sb, t, st, s, Moment(st, written)) && Writing(s, written.Keys) && written != map[]
    requires Completes(sb, st, written, st')
    ensures Reaches(L, sb, t', st, s', Moment(st', map[])) && Copying(s', |written|, 0)
  {
    hide Log.SysInv, Serial, Completes;
    InvViews(L, s);
    StillServing(L, s);
    var m := Moment(st', map[]);
    var s1 := Log.End(s, 0);
    Extend(L, sb, t, st, s, Moment(st, written), Log.EndOp(0), s1, m);
    t' := t.Add(Log.EndOp(0), s1, m);
    s' := s1.(core := s1.core.(pc := Core.WriteLog(0)));
    Extend(L, sb, t', st, s1, m, Log.StartCommit(0), s', m);
    t' := t'.Add(Log.StartCommit(0), s', m);
  }

  lemma StillServing(L: Core.Layout, s: Log.Sys)
    requires Log.SysInv(L, s) && !s.booting && s.outstanding > 0
    ensures s.core.pc.Serving?
  {
  }

  lemma CommitOne(L: Core.Layout, sb: Super, t: Trace, st: Fs, s: Log.Sys, m: Moment, n: nat, k: nat)
    returns (t': Trace, s': Log.Sys)
    requires Reaches(L, sb, t, st, s, m) && Copying(s, n, k) && k <= n
    ensures Reaches(L, sb, t', st, s', m)
    ensures k < n ==> Copying(s', n, k + 1)
    ensures k == n ==> s'.core.pc.Install? && s'.outstanding == 0
  {
    hide Log.SysInv, Serial, Core.PutEntries;
    InvViews(L, s);
    Log.InvMeansContained(L, s);
    s' := s.(core := if k < n then Core.WriteLogStep(L, s.core) else Core.CommitStep(L, s.core));
    Extend(L, sb, t, st, s, m, Log.DiskWrite(s'.core), s', m);
    t' := t.Add(Log.DiskWrite(s'.core), s', m);
  }

  /**
    From a disk that shows st, an operation of at most MAXOPBLOCKS blocks that the
    log has room for runs to its commit point: a serial run at whose end the disk
    itself shows the state the operation makes.
   */
  lemma OperationReachesDisk(L: Core.Layout, sb: Super, st: Fs, written: map<nat, Block>, st': Fs)
    returns (t: Trace, s: Log.Sys)
    requires Fits(L, sb) && |st.blocks| == sb.size && Completes(sb, st, written, st')
    requires 0 < |written| <= Core.MAXOPBLOCKS && |written| <= L.Cap()
    ensures Reaches(L, sb, t, st, s, Moment(st', map[])) && Quiet(s)
    ensures Core.DiskOk(L, s.core.disk) && Shows(L, sb, Core.Durable(L, s.core), st')
  {
    hide Reaches, Writing, Copying, AtRest, Shows, Core.DiskOk;
    LogsHome(L, sb, st, written, st');
    t, s := BootUp(L, sb, st);
    t, s := BeginOne(L, sb, t, st, s);
    t, s := WriteAll(L, sb, t, st, s, written);
    t, s := EndOne(L, sb, t, st, s, written, st');
    var n := |written|;
    for k := 0 to n
      invariant Reaches(L, sb, t, st, s, Moment(st', map[])) && Copying(s, n, k)
    {
      t, s := CommitOne(L, sb, t, st, s, Moment(st', map[]), n, k);
    }
    t, s := CommitOne(L, sb, t, st, s, Moment(st', map[]), n, n);
    InstallShows(L, sb, t, st, s, st');
  }

  lemma LogsHome(L: Core.Layout, sb: Super, st: Fs, written: map<nat, Block>, st': Fs)
    requires Fits(L, sb) && Completes(sb, st, written, st')
    ensures forall x | x in written :: L.Home(x)
  {
    hide Operates;
  }

  lemma InstallShows(L: Core.Layout, sb: Super, t: Trace, st: Fs, s: Log.Sys, st': Fs)
    requires Reaches(L, sb, t, st, s, Moment(st', map[])) && s.core.pc.Install? && s.outstanding == 0
    ensures Core.DiskOk(L, s.core.disk) && Shows(L, sb, Core.Durable(L, s.core), st')
  {
    hide Log.SysInv, Serial, Shows, Core.Durable;
    InvViews(L, s);
    Log.InvMeansContained(L, s);
    SerialLengths(L, sb, t.run, t.acts, t.ms);
    SerialMirrors(L, sb, t.run, t.acts, t.ms, |t.acts|);
    QuietShows(L, sb, s, Moment(st', map[]));
  }

  /**
    One chunk of filewrite from a disk that shows the file system's state: a serial
    run takes what it logs through the log, and at its end the disk itself shows the
    state with the chunk written.
   */
  method ChunkToDisk(L: Core.Layout, fs: FileSystem, i: nat, chunk: seq<Byte>, off: Word)
    returns (r: int, panicked: bool, ghost written: map<nat, Block>, ghost t: Trace, ghost s: Log.Sys)
    requires fs.Valid() && i < fs.sb.ninodes && NoHoles(fs.sb, fs.State(), i) && |chunk| <= MAXCHUNK
    requires Fits(L, fs.sb) && fs.sb.size <= BPB && L.Cap() >= 7
    modifies fs
    ensures r == -1 <==> BadWrite(old(fs.inodes[i].size), off, |chunk|)
    ensures !panicked ==> fs.Valid() && Completes(fs.sb, old(fs.State()), written, fs.State())
    ensures r != -1 && !panicked ==> Written(fs.sb, old(fs.State()), fs.State(), i, off, chunk)
    ensures !panicked && written != map[] ==>
        && Reaches(L, fs.sb, t, old(fs.State()), s, Moment(fs.State(), map[])) && Quiet(s)
        && Core.DiskOk(L, s.core.disk) && Shows(L, fs.sb, Core.Durable(L, s.core), fs.State())
  {
    hide Owned, Written, NoHoles, Footprint, Completes, Reaches, Shows, Core.DiskOk;
    ghost var st := fs.State();
    OwnedSized(fs.sb, st);
    r, panicked, written := WriteOperation(fs, i, chunk, off);
    t, s := *, *;
    if !panicked && written != map[] {
      OwnedSized(fs.sb, fs.State());
      ChunkFits(fs.sb, fs.State(), i, off, |chunk|, written.Keys);
      t, s := OperationReachesDisk(L, fs.sb, st, written, fs.State());
    }
  }
}
