/**
  begin_op, log_write, end_op and commit called by many processes at once.

  One action is one critical section under log.lock, or the size test that
  log_write makes before it takes that lock, or one disk write of a commit or a
  recovery, or a crash.  A run is any interleaving of actions.
 */
module LogSystem {
  import opened Blocks
  import opened LogCore

  /**
    Waiting: asleep in begin_op.  InOp: the operation has added `spent` new
    blocks; `passed`: inside log_write, past the test and before the lock.
   */
  datatype Proc = Out | Waiting | InOp(spent: nat, passed: bool) | Committing

  datatype Sys = Sys(core: Core, procs: seq<Proc>, outstanding: int, committing: bool, booting: bool)

  // --------------------------------------------------------------- actions

  /** wakeup(&log). */
  function WakeAll(ps: seq<Proc>): seq<Proc> {
    seq(|ps|, i requires 0 <= i < |ps| => if ps[i].Waiting? then Out else ps[i])
  }

  /** The test under which begin_op lets an operation in. */
  predicate Room(s: Sys) {
    !s.committing && |s.core.lh| + (s.outstanding + 1) * MAXOPBLOCKS <= LOGSIZE
  }

  function Begin(s: Sys, p: nat): Sys
    requires p < |s.procs|
  {
    if Room(s) then s.(procs := s.procs[p := InOp(0, false)], outstanding := s.outstanding + 1)
    else s.(procs := s.procs[p := Waiting])
  }

  /** log_write panics with "too big a transaction". */
  predicate TooBig(L: Layout, s: Sys) {
    |s.core.lh| >= LOGSIZE || |s.core.lh| >= L.size - 1
  }

  /** log_write has made its test, on the header as it is now. */
  function Pass(s: Sys, p: nat): Sys
    requires p < |s.procs| && s.procs[p].InOp?
  {
    s.(procs := s.procs[p := InOp(s.procs[p].spent, true)])
  }

  /** The rest of log_write, under the lock. */
  function Write(L: Layout, s: Sys, p: nat, b: nat, data: Block): Sys
    requires p < |s.procs| && s.procs[p].InOp? && Sized(L, s.core) && L.Home(b)
  {
    var k := s.procs[p].spent;
    var proc := InOp(if b in s.core.lh then k else k + 1, false);
    s.(core := LogWrite(L, s.core, b, data), procs := s.procs[p := proc])
  }

  function End(s: Sys, p: nat): Sys
    requires p < |s.procs|
  {
    if s.outstanding == 1 then s.(outstanding := 0, committing := true, procs := s.procs[p := Committing])
    else s.(outstanding := s.outstanding - 1, procs := WakeAll(s.procs[p := Out]))
  }

  /** end_op after commit() has returned. */
  function FinishCommit(s: Sys, p: nat): Sys
    requires p < |s.procs|
  {
    s.(committing := false, procs := WakeAll(s.procs[p := Out]))
  }

  function PowerLoss(s: Sys): Sys {
    Sys(Crash(s.core), seq(|s.procs|, _ => Out), 0, false, true)
  }

  datatype Action =
    | BeginOp(p: nat)
    | TestSize(p: nat)
    | DoWrite(p: nat, b: nat, data: Block)
    | EndOp(p: nat)
    | StartCommit(p: nat)
    | DiskWrite(next: Core)
    | CommitDone(p: nat)
    | CrashNow

  /**
    The actions the code can take.  A write that is not absorbed needs the
    operation to have added fewer than MAXOPBLOCKS blocks so far: that is what
    file-system code promises the log.
   */
  ghost predicate Next(L: Layout, s: Sys, a: Action, s': Sys)
    requires Sized(L, s.core)
  {
    match a
    case BeginOp(p) => !s.booting && p < |s.procs| && s.procs[p].Out? && s' == Begin(s, p)
    case TestSize(p) =>
      && !s.booting && p < |s.procs| && s.procs[p].InOp? && !s.procs[p].passed && !TooBig(L, s)
      && s' == Pass(s, p)
    case DoWrite(p, b, data) =>
      && !s.booting && p < |s.procs| && s.procs[p].InOp? && s.procs[p].passed && L.Home(b)
      && (b in s.core.lh || s.procs[p].spent < MAXOPBLOCKS)
      && s' == Write(L, s, p, b, data)
    case EndOp(p) =>
      !s.booting && p < |s.procs| && s.procs[p].InOp? && !s.procs[p].passed && s' == End(s, p)
    case StartCommit(p) =>
      && p < |s.procs| && s.procs[p].Committing? && s.core.pc.Serving? && s.core.lh != []
      && s' == s.(core := s.core.(pc := WriteLog(0)))
    case DiskWrite(c) =>
      && (s.committing || s.booting) && Step(L, s.core, c)
      && s' == s.(core := c, booting := s.booting && !c.pc.Serving?)
    case CommitDone(p) =>
      && p < |s.procs| && s.procs[p].Committing? && s.core.pc.Serving? && s.core.lh == []
      && s' == FinishCommit(s, p)
    case CrashNow => s' == PowerLoss(s)
  }

  // ------------------------------------------------------------- counting

  datatype Weight = IsOp | IsCommitter | Unspent

  function Weigh(p: Proc, w: Weight): int {
    match w
    case IsOp => if p.InOp? then 1 else 0
    case IsCommitter => if p.Committing? then 1 else 0
    case Unspent => if p.InOp? then MAXOPBLOCKS - p.spent else 0
  }

  function Sum(ps: seq<Proc>, w: Weight): int {
    if ps == [] then 0 else Sum(ps[..|ps| - 1], w) + Weigh(ps[|ps| - 1], w)
  }

  lemma {:induction false} SumSet(ps: seq<Proc>, p: nat, v: Proc, w: Weight)
    requires p < |ps|
    ensures Sum(ps[p := v], w) == Sum(ps, w) - Weigh(ps[p], w) + Weigh(v, w)
  {
    var n := |ps| - 1;
    if p < n {
      assert ps[p := v][..n] == ps[..n][p := v];
      SumSet(ps[..n], p, v, w);
    } else {
      assert ps[p := v][..n] == ps[..n];
    }
  }

  lemma {:induction false} SumWake(ps: seq<Proc>, w: Weight)
    ensures Sum(WakeAll(ps), w) == Sum(ps, w)
  {
    if ps != [] {
      var n := |ps| - 1;
      assert WakeAll(ps)[..n] == WakeAll(ps[..n]);
      SumWake(ps[..n], w);
    }
  }

  lemma Tally(ps: seq<Proc>, p: nat, v: Proc)
    requires p < |ps|
    ensures Sum(ps[p := v], IsOp) == Sum(ps, IsOp) - Weigh(ps[p], IsOp) + Weigh(v, IsOp)
    ensures Sum(ps[p := v], IsCommitter) == Sum(ps, IsCommitter) - Weigh(ps[p], IsCommitter) + Weigh(v, IsCommitter)
    ensures Sum(ps[p := v], Unspent) == Sum(ps, Unspent) - Weigh(ps[p], Unspent) + Weigh(v, Unspent)
  {
    SumSet(ps, p, v, IsOp);
    SumSet(ps, p, v, IsCommitter);
    SumSet(ps, p, v, Unspent);
  }

  lemma TallyWake(ps: seq<Proc>)
    ensures Sum(WakeAll(ps), IsOp) == Sum(ps, IsOp)
    ensures Sum(WakeAll(ps), IsCommitter) == Sum(ps, IsCommitter)
    ensures Sum(WakeAll(ps), Unspent) == Sum(ps, Unspent)
  {
    SumWake(ps, IsOp);
    SumWake(ps, IsCommitter);
    SumWake(ps, Unspent);
  }

  /** Non-negative terms: the sum bounds each of them. */
  lemma {:induction false} SumBounds(ps: seq<Proc>, p: nat, w: Weight)
    requires p < |ps| && forall i | 0 <= i < |ps| :: Weigh(ps[i], w) >= 0
    ensures Sum(ps, w) >= Weigh(ps[p], w) >= 0
  {
    var n := |ps| - 1;
    if n > 0 {
      SumBounds(ps[..n], if p < n then p else 0, w);
    }
  }

  lemma {:induction false} SumZero(ps: seq<Proc>, w: Weight)
    requires forall i | 0 <= i < |ps| :: Weigh(ps[i], w) == 0
    ensures Sum(ps, w) == 0
  {
    if ps != [] {
      SumZero(ps[..|ps| - 1], w);
    }
  }

  lemma {:induction false} UnspentBound(ps: seq<Proc>)
    ensures Sum(ps, Unspent) <= MAXOPBLOCKS * Sum(ps, IsOp)
  {
    if ps != [] {
      UnspentBound(ps[..|ps| - 1]);
    }
  }

  /** With every process in an operation, the count is the number of processes. */
  lemma {:induction false} SumAll(ps: seq<Proc>)
    requires forall p | 0 <= p < |ps| :: ps[p].InOp?
    ensures Sum(ps, IsOp) == |ps|
  {
    if ps != [] {
      SumAll(ps[..|ps| - 1]);
    }
  }

  // ------------------------------------------------------------- invariant

  ghost predicate ProcsOk(s: Sys) {
    && s.outstanding == Sum(s.procs, IsOp)
    && Sum(s.procs, IsCommitter) == (if s.committing then 1 else 0)
    && (forall p | 0 <= p < |s.procs| && s.procs[p].InOp? :: s.procs[p].spent <= MAXOPBLOCKS)
    && (forall p | 0 <= p < |s.procs| && s.procs[p].Waiting? :: !s.booting && !Room(s))
    && s.outstanding >= 0
    && (s.committing ==> s.outstanding == 0)
    && (s.booting ==> s.outstanding == 0 && !s.committing)
  }

  ghost predicate PhaseOk(s: Sys) {
    && (s.booting <==> !s.core.pc.Serving? && !s.committing)
    && (s.booting ==> !s.core.pc.WriteLog?)
    && (s.core.pc.Boot? ==> s.booting)
    && (!s.committing && s.outstanding == 0 && s.core.pc.Serving? ==> s.core.lh == [])
  }

  /** Logged blocks plus everything still reserved fits in the log. */
  ghost predicate ReservationOk(s: Sys) {
    |s.core.lh| + Sum(s.procs, Unspent) <= LOGSIZE
  }

  ghost predicate SysInv(L: Layout, s: Sys) {
    Inv(L, s.core) && ProcsOk(s) && PhaseOk(s) && ReservationOk(s)
  }

  /** Every logged block has a slot behind the header block. */
  predicate Contained(L: Layout, s: Sys) {
    |s.core.lh| < L.size
  }

  /** A system that has just come up on a disk with any well-formed log. */
  ghost predicate Init(L: Layout, s: Sys) {
    && DiskOk(L, s.core.disk) && s.core == Core(s.core.disk, s.core.disk, {}, [], Boot)
    && (forall p | 0 <= p < |s.procs| :: s.procs[p].Out?)
    && s.outstanding == 0 && !s.committing && s.booting
  }

  lemma InitInv(L: Layout, s: Sys)
    requires Init(L, s)
    ensures SysInv(L, s)
  {
    hide HeaderOf, HeaderFits, GetWord;
    SumZero(s.procs, IsOp);
    SumZero(s.procs, IsCommitter);
    SumZero(s.procs, Unspent);
  }

  // ---------------------------------------------------- each action keeps it

  lemma BeginKeeps(L: Layout, s: Sys, p: nat)
    requires SysInv(L, s) && !s.booting && p < |s.procs| && s.procs[p].Out?
    ensures SysInv(L, Begin(s, p))
  {
    hide Inv, Sum;
    Tally(s.procs, p, InOp(0, false));
    Tally(s.procs, p, Waiting);
    UnspentBound(s.procs);
  }

  lemma PassKeeps(L: Layout, s: Sys, p: nat)
    requires SysInv(L, s) && !s.booting && p < |s.procs| && s.procs[p].InOp?
    ensures SysInv(L, Pass(s, p))
  {
    hide Inv, Sum;
    Tally(s.procs, p, InOp(s.procs[p].spent, true));
  }

  lemma WriteKeeps(L: Layout, s: Sys, p: nat, b: nat, data: Block)
    requires SysInv(L, s) && !s.booting && p < |s.procs| && s.procs[p].InOp? && L.Home(b)
    requires b in s.core.lh || s.procs[p].spent < MAXOPBLOCKS
    requires Contained(L, Write(L, s, p, b, data))
    ensures s.core.pc.Serving? && SysInv(L, Write(L, s, p, b, data))
  {
    hide Inv, Sum;
    assert s.outstanding > 0 by { OpMeansOutstanding(s, p); }
    SumBounds(s.procs, p, Unspent);
    LogWriteKeeps(L, s.core, b, data);
    var k := s.procs[p].spent;
    Tally(s.procs, p, InOp(if b in s.core.lh then k else k + 1, false));
  }

  lemma OpMeansOutstanding(s: Sys, p: nat)
    requires ProcsOk(s) && p < |s.procs| && s.procs[p].InOp?
    ensures s.outstanding > 0 && !s.committing && !s.booting
  {
    SumBounds(s.procs, p, IsOp);
  }

  lemma CommitterMeansCommitting(s: Sys, p: nat)
    requires ProcsOk(s) && p < |s.procs| && s.procs[p].Committing?
    ensures s.committing
  {
    SumBounds(s.procs, p, IsCommitter);
  }

  lemma EndKeeps(L: Layout, s: Sys, p: nat)
    requires SysInv(L, s) && !s.booting && p < |s.procs| && s.procs[p].InOp?
    ensures SysInv(L, End(s, p))
  {
    hide Inv, Sum;
    OpMeansOutstanding(s, p);
    Tally(s.procs, p, Committing);
    Tally(s.procs, p, Out);
    TallyWake(s.procs[p := Out]);
  }

  lemma CommitDoneKeeps(L: Layout, s: Sys, p: nat)
    requires SysInv(L, s) && p < |s.procs| && s.procs[p].Committing? && s.core.pc.Serving? && s.core.lh == []
    ensures SysInv(L, FinishCommit(s, p))
  {
    hide Inv, Sum;
    CommitterMeansCommitting(s, p);
    Tally(s.procs, p, Out);
    TallyWake(s.procs[p := Out]);
  }

  /** Where a disk write of a commit or a recovery leads. */
  lemma StepPhases(L: Layout, c: Core, c': Core)
    requires Sized(L, c) && Step(L, c, c')
    ensures !c.pc.Serving? && !c'.pc.Boot? && (c'.pc.WriteLog? ==> c.pc.WriteLog?) && (c'.pc.Serving? ==> c'.lh == [])
  {
    hide HeaderOf, HeaderFits, PutEntries, Sized;
  }

  lemma DiskWriteKeeps(L: Layout, s: Sys, c: Core)
    requires SysInv(L, s) && (s.committing || s.booting) && Step(L, s.core, c)
    ensures SysInv(L, s.(core := c, booting := s.booting && !c.pc.Serving?))
  {
    StepKeeps(L, s.core, c);
    HeaderFitsLog(L, c);
    StepPhases(L, s.core, c);
    ProcsStay(s, s.(core := c, booting := s.booting && !c.pc.Serving?));
    hide Inv, Sum, Durable, Current, Sized, Step, ProcsOk;
  }

  lemma ProcsStay(s: Sys, s': Sys)
    requires ProcsOk(s) && (s.committing || s.booting) && (s'.booting ==> s.booting)
    requires s'.procs == s.procs && s'.outstanding == s.outstanding && s'.committing == s.committing
    ensures ProcsOk(s') && Sum(s'.procs, Unspent) <= 0 && s'.outstanding == 0
  {
    UnspentBound(s.procs);
    hide Sum;
  }

  lemma HeaderFitsLog(L: Layout, c: Core)
    requires Inv(L, c)
    ensures |c.lh| <= LOGSIZE
  {
  }

  lemma CrashKeepsAll(L: Layout, s: Sys)
    requires SysInv(L, s)
    ensures SysInv(L, PowerLoss(s))
  {
    hide Inv;
    CrashKeeps(L, s.core);
    var ps := PowerLoss(s).procs;
    SumZero(ps, IsOp);
    SumZero(ps, IsCommitter);
    SumZero(ps, Unspent);
  }

  /** What the reservation covers fits the header, and a log of more than LOGSIZE blocks. */
  lemma NextContained(L: Layout, s: Sys, a: Action, s': Sys)
    requires SysInv(L, s) && Next(L, s, a, s') && L.size > LOGSIZE
    ensures Contained(L, s')
  {
    hide Sum, GetWord, PutWord, PutEntries;
    if a.DoWrite? { SumBounds(s.procs, a.p, Unspent); }
    if a.DiskWrite? { DiskWriteKeeps(L, s, a.next); }
  }

  lemma NextKeeps(L: Layout, s: Sys, a: Action, s': Sys)
    requires SysInv(L, s) && Next(L, s, a, s') && Contained(L, s')
    ensures SysInv(L, s') && |s'.procs| == |s.procs|
  {
    hide Sum, Step, HeaderOf, HeaderFits, GetWord;
    match a
    case BeginOp(p) => BeginKeeps(L, s, p);
    case TestSize(p) => PassKeeps(L, s, p);
    case DoWrite(p, b, data) => WriteKeeps(L, s, p, b, data);
    case EndOp(p) => EndKeeps(L, s, p);
    case StartCommit(p) => CommitterMeansCommitting(s, p);
    case DiskWrite(c) => DiskWriteKeeps(L, s, c);
    case CommitDone(p) => CommitDoneKeeps(L, s, p);
    case CrashNow => CrashKeepsAll(L, s);
  }

  // ------------------------------------------------------------ refinement

  /**
    The promise of the log, without a log: a file system whose `current`
    contents operations change, and whose `durable` contents are replaced in
    one indivisible step, only while no operation is in progress.
   */
  datatype Spec = Spec(durable: View, current: View, active: int)

  ghost predicate SpecWrite(a: Spec, a': Spec, b: nat, data: Block) {
    a.active > 0 && b in a.current && a' == a.(current := a.current[b := data])
  }

  ghost predicate SpecStep(a: Spec, a': Spec) {
    || a' == a
    || a' == a.(active := a.active + 1)
    || (a.active > 0 && a' == a.(active := a.active - 1))
    || (exists b, data :: SpecWrite(a, a', b, data))
    || (a.active == 0 && a' == a.(durable := a.current))
    || a' == Spec(a.durable, a.durable, 0)
  }

  ghost function Abs(L: Layout, s: Sys): Spec
    requires SysInv(L, s)
  {
    Spec(Durable(L, s.core), Current(L, s.core), s.outstanding)
  }

  lemma StartCommitShowsNothing(L: Layout, c: Core)
    requires Inv(L, c) && c.pc.Serving?
    ensures var c' := c.(pc := WriteLog(0)); Durable(L, c') == Durable(L, c) && Current(L, c') == Current(L, c)
  {
    hide GetWord, HeaderOf, Replayed;
  }

  /** Every action of the real system is one step, or none, of the promise. */
  lemma Refines(L: Layout, s: Sys, a: Action, s': Sys)
    requires SysInv(L, s) && Next(L, s, a, s') && Contained(L, s')
    ensures SysInv(L, s') && SpecStep(Abs(L, s), Abs(L, s'))
  {
    hide Sum, Step, Durable, Replayed, HeaderOf, HeaderFits, GetWord;
    NextKeeps(L, s, a, s');
    match a
    case DoWrite(p, b, data) =>
      OpMeansOutstanding(s, p);
      WriteKeeps(L, s, p, b, data);
      LogWriteKeeps(L, s.core, b, data);
      assert SpecWrite(Abs(L, s), Abs(L, s'), b, data);
    case EndOp(p) => OpMeansOutstanding(s, p);
    case StartCommit(p) => StartCommitShowsNothing(L, s.core);
    case DiskWrite(c) => StepKeeps(L, s.core, c);
    case CrashNow => CrashKeeps(L, s.core);
    case _ =>
  }

  // ------------------------------------------------------------ whole runs

  ghost predicate IsRun(L: Layout, run: seq<Sys>) {
    && |run| > 0 && Init(L, run[0])
    && forall i | 0 <= i < |run| - 1 :: CanStep(L, run[i], run[i + 1])
  }

  ghost predicate CanStep(L: Layout, s: Sys, s': Sys) {
    Sized(L, s.core) && exists a :: Next(L, s, a, s')
  }

  /**
    The invariant in every state of every run: unconditionally with a log of
    more than LOGSIZE blocks, and with a smaller one as long as the header has
    not outgrown the slots.
   */
  lemma {:induction false} RunInv(L: Layout, run: seq<Sys>, i: nat)
    requires IsRun(L, run) && i < |run| && (L.size > LOGSIZE || Contained(L, run[i]))
    ensures SysInv(L, run[i])
  {
    hide SysInv, Init, Next;
    if i == 0 {
      InitInv(L, run[0]);
    } else {
      var j := i - 1;
      assert CanStep(L, run[j], run[j + 1]);
      RunInv(L, run, j);
      var a :| Next(L, run[j], a, run[j + 1]);
      if L.size > LOGSIZE { NextContained(L, run[j], a, run[j + 1]); }
      NextKeeps(L, run[j], a, run[j + 1]);
    }
  }

  lemma InvMeansContained(L: Layout, s: Sys)
    requires SysInv(L, s)
    ensures Contained(L, s)
  {
  }

  /** Any run of the log, crashes included, is a run of the promise. */
  lemma RunRefines(L: Layout, run: seq<Sys>, i: nat)
    requires IsRun(L, run) && i + 1 < |run| && (L.size > LOGSIZE || Contained(L, run[i + 1]))
    ensures SysInv(L, run[i]) && SysInv(L, run[i + 1])
    ensures SpecStep(Abs(L, run[i]), Abs(L, run[i + 1]))
  {
    hide SysInv, Init, Next, Abs, SpecStep;
    assert CanStep(L, run[i], run[i + 1]);
    RunInv(L, run, i);
    RunInv(L, run, i + 1);
    InvMeansContained(L, run[i + 1]);
    var a :| Next(L, run[i], a, run[i + 1]);
    Refines(L, run[i], a, run[i + 1]);
  }

  /** Who is let in: an operation comes in by a begin_op that finds room, and leaves by its end_op. */
  lemma InsideStep(L: Layout, s: Sys, a: Action, s': Sys, p: nat)
    requires SysInv(L, s) && Next(L, s, a, s') && p < |s.procs|
    ensures |s'.procs| == |s.procs|
    ensures s'.procs[p].InOp? <==>
            || (a == BeginOp(p) && !s.committing && |s.core.lh| + (s.outstanding + 1) * MAXOPBLOCKS <= LOGSIZE)
            || (s.procs[p].InOp? && a != EndOp(p) && !a.CrashNow?)
  {
    hide Inv, Sum, Step;
  }

  /**
    Who sleeps: a process falls asleep in a begin_op that finds none, and is awake again
    after an end_op that is not the last, the end of a commit, or a crash.
   */
  lemma WaitingStep(L: Layout, s: Sys, a: Action, s': Sys, p: nat)
    requires SysInv(L, s) && Next(L, s, a, s') && p < |s.procs|
    ensures |s'.procs| == |s.procs|
    ensures s'.procs[p].Waiting? <==>
            || (a == BeginOp(p) && (s.committing || |s.core.lh| + (s.outstanding + 1) * MAXOPBLOCKS > LOGSIZE))
            || (s.procs[p].Waiting? && !(a.EndOp? && s.outstanding > 1) && !a.CommitDone? && !a.CrashNow?)
  {
    hide Inv, Sum, Step;
    if a.EndOp? { OpMeansOutstanding(s, a.p); }
  }

  /** In every state of every run, a process that sleeps in begin_op has no room to enter. */
  lemma NobodySleepsBesideRoom(L: Layout, run: seq<Sys>, i: nat, p: nat)
    requires IsRun(L, run) && i < |run| && (L.size > LOGSIZE || Contained(L, run[i]))
    requires p < |run[i].procs| && run[i].procs[p].Waiting?
    ensures run[i].committing || |run[i].core.lh| + (run[i].outstanding + 1) * MAXOPBLOCKS > LOGSIZE
    ensures run[i].committing || run[i].outstanding > 0
  {
    hide IsRun, Inv, Sum;
    RunInv(L, run, i);
  }

  lemma DurableMoves(a: Spec, a': Spec)
    requires SpecStep(a, a')
    ensures a'.durable == a.durable || (a.active == 0 && a'.durable == a.current)
  {
  }

  lemma StartsQuiet(L: Layout, s: Sys)
    requires Init(L, s) && SysInv(L, s)
    ensures Abs(L, s).active == 0 && Abs(L, s).current == Abs(L, s).durable
  {
  }

  /**
    Crash atomicity over whole runs: at every instant, what a crash would
    leave is the file system exactly as some earlier moment of the run saw it,
    and at that moment no operation was in progress.
   */
  lemma {:induction false} DurableIsAnEarlierQuietState(L: Layout, run: seq<Sys>, i: nat) returns (j: nat)
    requires IsRun(L, run) && i < |run| && (L.size > LOGSIZE || Contained(L, run[i]))
    ensures j <= i && SysInv(L, run[i]) && SysInv(L, run[j])
    ensures Abs(L, run[j]).active == 0 && Abs(L, run[j]).current == Abs(L, run[i]).durable
  {
    hide SysInv, Abs, SpecStep, Init, CanStep;
    RunInv(L, run, i);
    if i == 0 {
      StartsQuiet(L, run[0]);
      j := 0;
    } else {
      assert CanStep(L, run[i - 1], run[i - 1 + 1]);
      RunRefines(L, run, i - 1);
      InvMeansContained(L, run[i - 1]);
      DurableMoves(Abs(L, run[i - 1]), Abs(L, run[i]));
      j := DurableIsAnEarlierQuietState(L, run, i - 1);
      if Abs(L, run[i]).durable != Abs(L, run[i - 1]).durable {
        j := i - 1;
      }
    }
  }

  /** When nothing is in progress and no commit is running, nothing can be lost. */
  lemma QuietIsDurable(L: Layout, s: Sys)
    requires SysInv(L, s) && !s.booting && !s.committing && s.outstanding == 0
    ensures Durable(L, s.core) == Current(L, s.core)
  {
    hide Sum, GetWord;
    assert s.core.lh == [];
  }

  /** While an operation is in progress nothing it writes reaches the disk. */
  lemma OperationsAreIsolated(L: Layout, s: Sys, a: Action, s': Sys)
    requires SysInv(L, s) && Next(L, s, a, s') && s.outstanding > 0 && !a.CrashNow?
    ensures s'.core.disk == s.core.disk
  {
    hide Sum, Inv, Step;
    if a.StartCommit? { CommitterMeansCommitting(s, a.p); assert false; }
  }

  // -------------------------------------------------------------- progress

  /** How many steps of a commit or a recovery are left, the return of end_op included. */
  function StepsLeft(L: Layout, c: Core): nat {
    match c.pc
    case Serving => if c.lh == [] then 1 else 2 * |c.lh| + 4
    case WriteLog(t) => if t <= |c.lh| then 2 * |c.lh| - t + 3 else 0
    case Install(t) => if t <= |c.lh| then |c.lh| - t + 2 else 0
    case Boot =>
      if L.start < |c.mem| && HeaderFits(c.mem[L.start]) then GetWord(c.mem[L.start], 0) + 3 else 0
  }

  /** An action of the committer, or of recovery. */
  predicate Drives(a: Action) {
    a.StartCommit? || a.DiskWrite? || a.CommitDone?
  }

  /** While a commit or a recovery is under way, some action drives it on. */
  lemma SomethingDrives(L: Layout, s: Sys) returns (a: Action, s': Sys)
    requires SysInv(L, s) && (s.committing || s.booting)
    ensures Sized(L, s.core) && Drives(a) && Next(L, s, a, s')
  {
    hide HeaderOf, PutEntries, GetWord;
    var c := s.core;
    if c.pc.Serving? {
      var p := CommitterOf(s.procs);
      a := if c.lh == [] then CommitDone(p) else StartCommit(p);
      s' := if c.lh == [] then FinishCommit(s, p) else s.(core := c.(pc := WriteLog(0)));
    } else {
      var c' :=
        if c.pc.Boot? then ReadHeadStep(L, c)
        else if c.pc.WriteLog? then (if c.pc.tail < |c.lh| then WriteLogStep(L, c) else CommitStep(L, c))
        else if c.pc.tail < |c.lh| then InstallStep(L, c)
        else ClearStep(L, c);
      a, s' := DiskWrite(c'), s.(core := c', booting := s.booting && !c'.pc.Serving?);
    }
  }

  lemma {:induction false} CommitterOf(ps: seq<Proc>) returns (p: nat)
    requires Sum(ps, IsCommitter) > 0
    ensures p < |ps| && ps[p].Committing?
  {
    var n := |ps| - 1;
    if ps[n].Committing? { p := n; } else { p := CommitterOf(ps[..n]); }
  }

  /**
    Each such action brings the end one step nearer, and nothing else but a crash
    changes the number: a commit or a recovery ends after exactly so many steps of its
    own, whatever other processes do meanwhile.
   */
  lemma DrivenToTheEnd(L: Layout, s: Sys, a: Action, s': Sys)
    requires SysInv(L, s) && Next(L, s, a, s') && (s.committing || s.booting) && !a.CrashNow?
    ensures Drives(a) && s.committing && StepsLeft(L, s.core) > 1 ==>
        s'.committing && StepsLeft(L, s'.core) == StepsLeft(L, s.core) - 1
    ensures Drives(a) && s.booting && StepsLeft(L, s.core) > 2 ==>
        s'.booting && StepsLeft(L, s'.core) == StepsLeft(L, s.core) - 1
    ensures Drives(a) && s.committing && StepsLeft(L, s.core) == 1 ==>
        !s'.committing && s'.core.lh == [] && forall p | 0 <= p < |s'.procs| :: s'.procs[p].Out?
    ensures Drives(a) && s.booting && StepsLeft(L, s.core) == 2 ==> !s'.booting && s'.core.lh == []
    ensures !Drives(a) ==> s'.core == s.core && s'.committing == s.committing && s'.booting == s.booting
  {
    hide HeaderOf, PutEntries, GetWord, RestClean;
    if a.DoWrite? || a.TestSize? || a.EndOp? { OpMeansOutstanding(s, a.p); }
    if a.DiskWrite? && s.core.pc.Boot? { HeaderLength(s.core.mem[L.start]); }
    if a.CommitDone? { NobodyInside(s, a.p); }
  }

  lemma HeaderLength(b: Block)
    requires HeaderFits(b)
    ensures |HeaderOf(b)| == GetWord(b, 0)
  {
  }

  /** While a commit runs nobody is in an operation, and only one process commits. */
  lemma NobodyInside(s: Sys, p: nat)
    requires ProcsOk(s) && p < |s.procs| && s.procs[p].Committing?
    ensures forall q | 0 <= q < |s.procs| && q != p :: s.procs[q].Out? || s.procs[q].Waiting?
  {
    CommitterMeansCommitting(s, p);
    forall q | 0 <= q < |s.procs| && q != p
      ensures s.procs[q].Out? || s.procs[q].Waiting?
    {
      SumBounds(s.procs, q, IsOp);
      SumSet(s.procs, p, Out, IsCommitter);
      SumBounds(s.procs[p := Out], q, IsCommitter);
    }
  }

  // ----------------------------------------------------------------- panics

  /** end_op finds log.committing set: "log.committing". */
  lemma CommittingPanicNeverFires(L: Layout, s: Sys, p: nat)
    requires SysInv(L, s) && p < |s.procs| && s.procs[p].InOp?
    ensures !s.committing && s.outstanding >= 1
  {
    OpMeansOutstanding(s, p);
  }

  /**
    "too big a transaction" fires exactly when the header is full.  In a log of
    more than LOGSIZE blocks every operation in progress has then used up its
    whole reservation.
   */
  lemma TooBigExactly(L: Layout, s: Sys, p: nat)
    requires SysInv(L, s) && p < |s.procs| && s.procs[p].InOp?
    ensures TooBig(L, s) <==> |s.core.lh| == L.Cap()
    ensures TooBig(L, s) && L.size > LOGSIZE ==> s.procs[p].spent == MAXOPBLOCKS
  {
    SumBounds(s.procs, p, Unspent);
  }

  /** log_write panics for an operation that has reserved blocks left. */
  predicate Refused(L: Layout, s: Sys, p: nat) {
    p < |s.procs| && s.procs[p].InOp? && s.procs[p].spent < MAXOPBLOCKS && TooBig(L, s)
  }

  /** In no run is an operation refused a write that begin_op reserved. */
  ghost predicate Honoured(L: Layout) {
    forall run: seq<Sys>, i: nat, p: nat | IsRun(L, run) && i < |run| :: !Refused(L, run[i], p)
  }

  /** Reservations are honoured if and only if the log has more than LOGSIZE blocks; mkfs gives it exactly LOGSIZE. */
  lemma HonouredIff(L: Layout)
    requires L.Valid() && L.nblocks >= L.size + LOGSIZE
    ensures Honoured(L) <==> L.size > LOGSIZE
  {
    hide IsRun, SysInv;
    if L.size > LOGSIZE {
      forall run: seq<Sys>, i: nat, p: nat | IsRun(L, run) && i < |run|
        ensures !Refused(L, run[i], p)
      {
        RunInv(L, run, i);
        if p < |run[i].procs| && run[i].procs[p].InOp? { TooBigExactly(L, run[i], p); }
      }
    } else {
      var run := FillLog(L, L.Cap());
      assert Refused(L, run[|run| - 1], 2);
    }
  }

  lemma RunGrows(L: Layout, run: seq<Sys>, a: Action, s: Sys)
    requires IsRun(L, run) && Sized(L, run[|run| - 1].core) && Next(L, run[|run| - 1], a, s)
    ensures IsRun(L, run + [s])
  {
    hide Next, Init, Sized;
    var run' := run + [s];
    forall i | 0 <= i < |run'| - 1
      ensures CanStep(L, run'[i], run'[i + 1])
    {
      if i < |run| - 1 {
        assert CanStep(L, run[i], run[i + 1]);
      }
    }
  }

  /** The i-th block outside the log. */
  function HomeAt(L: Layout, i: nat): nat {
    if i < L.start then i else i + L.size
  }

  ghost predicate Entered(s: Sys, c: Core, p: int) {
    && s.core == c && s.outstanding == p && !s.committing && !s.booting
    && |s.procs| == 3 && forall q | 0 <= q < 3 :: s.procs[q] == if q < p then InOp(0, false) else Out
  }

  /** Boot on an empty disk, and three processes enter an operation. */
  lemma ThreeOperations(L: Layout) returns (run: seq<Sys>)
    requires L.Valid()
    ensures |run| > 0 && IsRun(L, run) && SysInv(L, run[|run| - 1])
    ensures var s := run[|run| - 1];
      s.core.lh == [] && s.core.pc == Serving && !s.booting &&
        s.procs == [InOp(0, false), InOp(0, false), InOp(0, false)]
  {
    hide GetWord, PutWord, PutEntries, HeaderOf, Sum;
    var disk := seq(L.nblocks, _ => ZeroBlock());
    ZeroWords(0);
    assert HeaderFits(ZeroBlock()) && HeaderOf(ZeroBlock()) == [] by { EmptyHeader(ZeroBlock()); }
    var s0 := Sys(Core(disk, disk, {}, [], Boot), [Out, Out, Out], 0, false, true);
    var s1 := s0.(core := ReadHeadStep(L, s0.core));
    assert Next(L, s0, DiskWrite(s1.core), s1);
    run := [s0];
    RunGrows(L, run, DiskWrite(s1.core), s1);
    run := run + [s1];
    var c2 := ClearStep(L, s1.core);
    var s2 := s1.(core := c2, booting := false);
    assert Next(L, s1, DiskWrite(c2), s2);
    RunGrows(L, run, DiskWrite(c2), s2);
    run := run + [s2];
    for p := 0 to 3
      invariant IsRun(L, run)
      invariant Entered(run[|run| - 1], c2, p)
    {
      var s := run[|run| - 1];
      RunGrows(L, run, BeginOp(p), Begin(s, p));
      run := run + [Begin(s, p)];
    }
    NothingLogged(c2, L);
    RunInv(L, run, |run| - 1);
  }

  lemma NothingLogged(c: Core, L: Layout)
    requires c.lh == [] && L.Valid()
    ensures |c.lh| < L.size
  {
  }

  lemma EmptyHeader(b: Block)
    requires GetWord(b, 0) == 0
    ensures HeaderFits(b) && HeaderOf(b) == []
  {
  }

  /** k different blocks are logged, by the three operations in turn. */
  ghost predicate Filled(L: Layout, run: seq<Sys>, k: nat) {
    && IsRun(L, run) && |run| > 0 && SysInv(L, run[|run| - 1]) && !run[|run| - 1].booting
    && run[|run| - 1].core.lh == Homes(L, k)
    && run[|run| - 1].procs == [InOp(Spent(k, 0), false), InOp(Spent(k, 1), false), InOp(Spent(k, 2), false)]
  }

  function Homes(L: Layout, k: nat): seq<nat> {
    seq(k, i requires 0 <= i => HomeAt(L, i))
  }

  /** What operation q has spent when k writes were made, one by each in turn. */
  function Spent(k: nat, q: nat): nat
    requires q < 3
  {
    (k + 2 - q) / 3
  }

  lemma TakeTest(L: Layout, run: seq<Sys>, p: nat)
    requires |run| > 0 && IsRun(L, run) && SysInv(L, run[|run| - 1])
    requires var s := run[|run| - 1];
      !s.booting && p < |s.procs| && s.procs[p].InOp? && !s.procs[p].passed && |s.core.lh| < L.Cap()
    ensures IsRun(L, run + [Pass(run[|run| - 1], p)]) && SysInv(L, Pass(run[|run| - 1], p))
  {
    hide SysInv, IsRun, Pass;
    var s := run[|run| - 1];
    InvMeansSized(L, s);
    RunGrows(L, run, TestSize(p), Pass(s, p));
    PassKeeps(L, s, p);
  }

  lemma TakeWrite(L: Layout, run: seq<Sys>, p: nat, b: nat)
    requires |run| > 0 && IsRun(L, run) && SysInv(L, run[|run| - 1])
    requires var s := run[|run| - 1];
      && !s.booting && p < |s.procs| && s.procs[p].InOp? && s.procs[p].passed && s.procs[p].spent < MAXOPBLOCKS
      && L.Home(b) && b !in s.core.lh
    ensures Sized(L, run[|run| - 1].core)
    ensures var s' := Write(L, run[|run| - 1], p, b, ZeroBlock());
      && IsRun(L, run + [s']) && (Contained(L, s') ==> SysInv(L, s'))
      && s'.core.lh == run[|run| - 1].core.lh + [b] && !s'.booting
      && s'.procs == run[|run| - 1].procs[p := InOp(run[|run| - 1].procs[p].spent + 1, false)]
  {
    hide SysInv, IsRun;
    var s := run[|run| - 1];
    InvMeansSized(L, s);
    var s' := Write(L, s, p, b, ZeroBlock());
    RunGrows(L, run, DoWrite(p, b, ZeroBlock()), s');
    if Contained(L, s') { WriteKeeps(L, s, p, b, ZeroBlock()); }
  }

  lemma HomesDiffer(L: Layout, k: nat, i: nat)
    requires k <= i < LOGSIZE && L.Valid() && L.nblocks >= L.size + LOGSIZE
    ensures L.Home(HomeAt(L, i)) && HomeAt(L, i) !in Homes(L, k) && Homes(L, k) + [HomeAt(L, k)] == Homes(L, k + 1)
  {
  }

  lemma OneMoreWrite(L: Layout, run: seq<Sys>, k: nat) returns (run': seq<Sys>)
    requires L.Valid() && L.nblocks >= L.size + LOGSIZE && Filled(L, run, k) && k < L.Cap()
    ensures Filled(L, run', k + 1)
  {
    hide SysInv, IsRun, Homes, HomeAt, Write;
    var s := run[|run| - 1];
    var p, b := k % 3, HomeAt(L, k);
    HomesDiffer(L, k, k);
    HomesCount(L, k);
    TakeTest(L, run, p);
    var s1 := Pass(s, p);
    TakeWrite(L, run + [s1], p, b);
    var s2 := Write(L, s1, p, b, ZeroBlock());
    run' := run + [s1] + [s2];
  }

  /** Boot, three operations, and k writes of different blocks. */
  lemma FillLog(L: Layout, k: nat) returns (run: seq<Sys>)
    requires L.Valid() && L.nblocks >= L.size + LOGSIZE && k <= L.Cap()
    ensures Filled(L, run, k)
  {
    hide SysInv, Next, Init, IsRun;
    run := ThreeOperations(L);
    for j := 0 to k
      invariant Filled(L, run, j)
    {
      run := OneMoreWrite(L, run, j);
    }
  }

  /**
    Two operations test the size while one slot is left, and both append: the
    last block of the header has its slot in the first block behind the log.
   */
  lemma TwoWritersOverrun(L: Layout) returns (run: seq<Sys>)
    requires L.Valid() && L.nblocks >= L.size + LOGSIZE && 2 <= L.size <= LOGSIZE
    ensures |run| > 0 && IsRun(L, run)
    ensures var lh := run[|run| - 1].core.lh; |lh| == L.size && L.Slot(|lh| - 1) == L.start + L.size
  {
    hide SysInv, IsRun, Homes, HomeAt, Write;
    var k := L.Cap() - 1;
    run := FillLog(L, k);
    assert |run[|run| - 1].core.lh| == k by { HomesCount(L, k); }
    var p, q := k % 3, (k + 1) % 3;
    var a, b := HomeAt(L, k), HomeAt(L, k + 1);
    HomesDiffer(L, k, k);
    HomesDiffer(L, k + 1, k + 1);
    var s := run[|run| - 1];
    TakeTest(L, run, p);
    run := run + [Pass(s, p)];
    TakeTest(L, run, q);
    run := run + [Pass(Pass(s, p), q)];
    var s2 := run[|run| - 1];
    TakeWrite(L, run, p, a);
    run := run + [Write(L, s2, p, a, ZeroBlock())];
    var s3 := run[|run| - 1];
    HomesCount(L, k + 1);
    TakeWrite(L, run, q, b);
    run := run + [Write(L, s3, q, b, ZeroBlock())];
  }

  lemma HomesCount(L: Layout, k: nat)
    ensures |Homes(L, k)| == k
  {
  }

  /** In no run does the header outgrow the slots of the log. */
  ghost predicate NeverOverruns(L: Layout) {
    forall run: seq<Sys>, i: nat | IsRun(L, run) && i < |run| :: Contained(L, run[i])
  }

  /**
    The header never outgrows the log if and only if the log has more than
    LOGSIZE blocks (or only a header block, so that no write passes the test).
   */
  lemma NeverOverrunsIff(L: Layout)
    requires L.Valid() && L.nblocks >= L.size + LOGSIZE
    ensures NeverOverruns(L) <==> L.size > LOGSIZE || L.size == 1
  {
    hide IsRun, SysInv;
    if L.size > LOGSIZE {
      forall run: seq<Sys>, i: nat | IsRun(L, run) && i < |run|
        ensures Contained(L, run[i])
      {
        RunInv(L, run, i);
        InvMeansContained(L, run[i]);
      }
    } else if L.size == 1 {
      forall run: seq<Sys>, i: nat | IsRun(L, run) && i < |run|
        ensures Contained(L, run[i])
      {
        NothingPasses(L, run, i);
      }
    } else {
      var run := TwoWritersOverrun(L);
      assert !Contained(L, run[|run| - 1]);
    }
  }

  lemma {:induction false} NothingPasses(L: Layout, run: seq<Sys>, i: nat)
    requires IsRun(L, run) && i < |run| && L.Valid() && L.size == 1
    ensures Contained(L, run[i])
    ensures forall p | 0 <= p < |run[i].procs| && run[i].procs[p].InOp? :: !run[i].procs[p].passed
  {
    hide GetWord, PutWord, PutEntries, HeaderOf;
    if i > 0 {
      var j := i - 1;
      assert CanStep(L, run[j], run[j + 1]);
      NothingPasses(L, run, j);
      RunInv(L, run, j);
      var a :| Next(L, run[j], a, run[j + 1]);
      if a.DiskWrite? { DiskWriteKeeps(L, run[j], a.next); }
    }
  }

  /** With the header full even an absorbed write, which needs no space at all, panics. */
  lemma AbsorbedWriteCanPanic(L: Layout) returns (run: seq<Sys>)
    requires L.Valid() && L.nblocks >= L.size + LOGSIZE && L.size >= 2
    ensures IsRun(L, run)
    ensures var s := run[|run| - 1];
      |s.procs| > 0 && s.procs[0].InOp? && HomeAt(L, 0) in s.core.lh && TooBig(L, s)
  {
    hide SysInv, Next, Init, IsRun;
    run := FillLog(L, L.Cap());
    assert run[|run| - 1].core.lh[0] == HomeAt(L, 0);
  }

  lemma InvMeansSized(L: Layout, s: Sys)
    requires SysInv(L, s)
    ensures Sized(L, s.core)
  {
  }
}
