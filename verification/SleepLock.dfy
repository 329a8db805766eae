/**
  acquiresleep and releasesleep of sleeplock.c on top of sleep and wakeup of
  proc.c, for one sleep-lock and any number of processes.  Each action is one
  acquire, release or plain step; lk is the inner spinlock, pt is ptable.lock.
 */
module SleepLock {
  import opened Common

  datatype Pc =
    | Out          // not in any of the calls
    | WantLk       // acquire(&lk->lk), first time or after sleep() has resumed
    | Test         // while (lk->locked)
    | WantPt       // sleep: acquire(&ptable.lock)
    | GotPt        // sleep: about to release lk
    | Marking      // sleep: about to set chan and state, and to call sched
    | Asleep       // SLEEPING on lk
    | Runnable     // woken, not yet scheduled
    | Holding      // acquiresleep has returned
    | RelWantLk    // releasesleep: acquire(&lk->lk)
    | RelHave      // about to clear lk->locked
    | RelCleared   // wakeup: acquire(&ptable.lock)
    | RelPt        // about to run wakeup1
    | RelWoken     // about to release ptable.lock
    | RelDone      // about to release lk

  datatype Sys = Sys(pcs: seq<Pc>, lk: Option<nat>, pt: Option<nat>, locked: bool, holder: Option<nat>)

  /** What one process sees: its own place, the two spinlocks, and the fields of the sleep-lock. */
  datatype View = View(pc: Pc, lk: Option<nat>, pt: Option<nat>, locked: bool, holder: Option<nat>)

  function Seen(s: Sys, p: nat): View
    requires p < |s.pcs|
  {
    View(s.pcs[p], s.lk, s.pt, s.locked, s.holder)
  }

  /** wakeup1(lk). */
  function WakeAll(pcs: seq<Pc>): seq<Pc> {
    seq(|pcs|, i requires 0 <= i < |pcs| => if pcs[i].Asleep? then Runnable else pcs[i])
  }

  /** Behind a spinlock that somebody has. */
  predicate Stuck(v: View) {
    match v.pc
    case WantLk | RelWantLk => v.lk.Some?
    case WantPt | Asleep | Runnable | RelCleared => v.pt.Some?
    case _ => false
  }

  function After(v: View, p: nat): View {
    match v.pc
    case Out => v.(pc := WantLk)
    case WantLk => v.(pc := Test, lk := Some(p))
    case Test => if v.locked then v.(pc := WantPt) else v.(pc := Holding, locked := true, holder := Some(p), lk := None)
    case WantPt => v.(pc := GotPt, pt := Some(p))
    case GotPt => v.(pc := Marking, lk := None)
    case Marking => v.(pc := Asleep, pt := None)
    case Asleep => v.(pc := Runnable)
    case Runnable => v.(pc := WantLk)
    case Holding => v.(pc := RelWantLk)
    case RelWantLk => v.(pc := RelHave, lk := Some(p))
    case RelHave => v.(pc := RelCleared, locked := false, holder := None)
    case RelCleared => v.(pc := RelPt, pt := Some(p))
    case RelPt => v.(pc := RelWoken)
    case RelWoken => v.(pc := RelDone, pt := None)
    case RelDone => v.(pc := Out, lk := None)
  }

  /** One action of process p, or kill() reaching it. */
  predicate Acts(v: View, p: nat, v': View) {
    !Stuck(v) && v' == After(v, p)
  }

  /** The others stay where they are, except that wakeup1 wakes the sleepers. */
  ghost predicate Step(s: Sys, p: nat, s': Sys) {
    && p < |s.pcs| == |s'.pcs|
    && Acts(Seen(s, p), p, Seen(s', p))
    && s'.pcs == (if s.pcs[p].RelPt? then WakeAll(s.pcs) else s.pcs)[p := s'.pcs[p]]
  }

  predicate HasLk(pc: Pc) {
    pc.Test? || pc.WantPt? || pc.GotPt? || pc.RelHave? || pc.RelCleared? || pc.RelPt? || pc.RelWoken? || pc.RelDone?
  }

  predicate HasPt(pc: Pc) {
    pc.GotPt? || pc.Marking? || pc.RelPt? || pc.RelWoken?
  }

  predicate Owns(pc: Pc) {
    pc.Holding? || pc.RelWantLk? || pc.RelHave?
  }

  /** Asleep, or past the point of no return on the way there. */
  predicate Sleeping(pc: Pc) {
    pc.WantPt? || pc.GotPt? || pc.Marking? || pc.Asleep?
  }

  /** Somebody is between clearing the lock and waking the sleepers. */
  predicate WakeupComing(s: Sys) {
    s.lk.Some? && s.lk.value < |s.pcs| && (s.pcs[s.lk.value].RelCleared? || s.pcs[s.lk.value].RelPt?)
  }

  /** The three locks are held by exactly those who think they hold them. */
  predicate LocksOk(v: View, p: nat) {
    && (HasLk(v.pc) <==> v.lk == Some(p))
    && (HasPt(v.pc) <==> v.pt == Some(p))
    && (Owns(v.pc) <==> v.holder == Some(p))
  }

  ghost predicate SleepOk(s: Sys, p: nat)
    requires p < |s.pcs|
  {
    Sleeping(s.pcs[p]) ==> s.locked || WakeupComing(s)
  }

  ghost predicate ProcOk(s: Sys, p: nat)
    requires p < |s.pcs|
  {
    LocksOk(Seen(s, p), p) && SleepOk(s, p)
  }

  ghost predicate Inv(s: Sys) {
    && s.locked == s.holder.Some?
    && (s.lk.Some? ==> s.lk.value < |s.pcs|) && (s.pt.Some? ==> s.pt.value < |s.pcs|)
    && (s.holder.Some? ==> s.holder.value < |s.pcs|)
    && forall p: nat | p < |s.pcs| :: ProcOk(s, p)
  }

  /** A lock changes hands only to or from the process that acts. */
  predicate Passes(before: Option<nat>, after: Option<nat>, p: nat) {
    after == before || ((before == None || before == Some(p)) && (after == None || after == Some(p)))
  }

  lemma LocksPass(v: View, p: nat, v': View)
    requires LocksOk(v, p) && (v.locked == v.holder.Some?) && Acts(v, p, v')
    ensures Passes(v.lk, v'.lk, p) && Passes(v.pt, v'.pt, p) && Passes(v.holder, v'.holder, p)
    ensures LocksOk(v', p) && v'.locked == v'.holder.Some?
  {
  }

  lemma OtherKeepsLocks(s: Sys, p: nat, s': Sys, r: nat)
    requires Inv(s) && Step(s, p, s') && r < |s.pcs| && r != p
    ensures LocksOk(Seen(s', r), r)
  {
    hide Acts;
    assert ProcOk(s, p) && ProcOk(s, r);
    LocksPass(Seen(s, p), p, Seen(s', p));
  }

  /** Whoever sleeps while another process acts. */
  lemma OtherStaysAwaited(s: Sys, p: nat, s': Sys, r: nat)
    requires Inv(s) && Step(s, p, s') && r < |s.pcs| && r != p
    ensures SleepOk(s', r)
  {
    assert ProcOk(s, p) && ProcOk(s, r);
    if s.lk.Some? { assert ProcOk(s, s.lk.value); }
  }

  lemma SelfStaysAwaited(s: Sys, p: nat, s': Sys)
    requires Inv(s) && Step(s, p, s')
    ensures SleepOk(s', p)
  {
    assert ProcOk(s, p);
    if s.lk.Some? { assert ProcOk(s, s.lk.value); }
  }

  lemma StepKeeps(s: Sys, p: nat, s': Sys)
    requires Inv(s) && Step(s, p, s')
    ensures Inv(s')
  {
    hide Acts, SleepOk;
    assert ProcOk(s, p);
    LocksPass(Seen(s, p), p, Seen(s', p));
    forall r: nat | r < |s'.pcs|
      ensures ProcOk(s', r)
    {
      if r == p {
        SelfStaysAwaited(s, p, s');
      } else {
        OtherKeepsLocks(s, p, s', r);
        OtherStaysAwaited(s, p, s', r);
      }
    }
  }

  ghost predicate IsRun(run: seq<Sys>, procs: seq<nat>) {
    && |run| == |procs| + 1
    && run[0] == Sys(seq(|run[0].pcs|, _ => Out), None, None, false, None)
    && forall i | 0 <= i < |procs| :: Step(run[i], procs[i], run[i + 1])
  }

  lemma {:induction false} RunInv(run: seq<Sys>, procs: seq<nat>, i: nat)
    requires IsRun(run, procs) && i <= |procs|
    ensures Inv(run[i])
  {
    if i > 0 {
      RunInv(run, procs, i - 1);
      StepKeeps(run[i - 1], procs[i - 1], run[i]);
    }
  }

  /**
    No lost wakeup: with the inner lock free and the sleep-lock unlocked, nobody
    is asleep on it or about to fall asleep.
   */
  lemma NoLostWakeup(run: seq<Sys>, procs: seq<nat>, i: nat, p: nat)
    requires IsRun(run, procs) && i <= |procs| && p < |run[i].pcs|
    requires run[i].lk.None? && !run[i].locked
    ensures !Sleeping(run[i].pcs[p])
  {
    RunInv(run, procs, i);
    assert ProcOk(run[i], p);
  }

  /** A process falls asleep at the end of sleep(), and is woken by a wakeup or a kill, and by nothing else. */
  lemma AsleepIff(s: Sys, q: nat, s': Sys, p: nat)
    requires Step(s, q, s') && p < |s.pcs|
    ensures s'.pcs[p].Asleep? <==>
            (q == p && s.pcs[p].Marking?) || (s.pcs[p].Asleep? && q != p && !s.pcs[q].RelPt?)
  {
  }

  /** At most one process holds the sleep-lock, and holdingsleep() knows which. */
  lemma MutualExclusion(run: seq<Sys>, procs: seq<nat>, i: nat, p: nat, r: nat)
    requires IsRun(run, procs) && i <= |procs| && p < |run[i].pcs| && r < |run[i].pcs|
    requires Owns(run[i].pcs[p])
    ensures run[i].locked && run[i].holder == Some(p)
    ensures Owns(run[i].pcs[r]) ==> r == p
  {
    RunInv(run, procs, i);
    assert ProcOk(run[i], p) && ProcOk(run[i], r);
  }

  // ------------------------------------------------------------- progress

  /** Whom to run so that p gets the lock: who has a spinlock, else who has the sleep-lock, else p. */
  function Mover(s: Sys, p: nat): nat {
    if s.pt.Some? then s.pt.value
    else if s.lk.Some? then s.lk.value
    else if s.holder.Some? then s.holder.value
    else p
  }

  /** For the owner of the inner lock; a rival about to take the sleep-lock has to give it back, too. */
  function InnerLeft(pc: Pc, locked: bool, own: bool): nat {
    match pc
    case Test => if locked then 60 else if own then 1 else 400
    case WantPt => 45
    case GotPt => 30
    case RelHave => 80
    case RelCleared => 70
    case RelPt => 60
    case RelWoken => 59
    case RelDone => 58
    case _ => 0
  }

  function OuterLeft(pc: Pc): nat {
    match pc
    case Holding => 203
    case RelWantLk => 202
    case RelHave => 100
    case _ => 0
  }

  function OwnLeft(pc: Pc): nat {
    match pc
    case WantPt => 13
    case GotPt => 12
    case Marking => 11
    case Asleep => 10
    case Out | Runnable => 9
    case WantLk => 8
    case Test => 6
    case Holding => 0
    case _ => 20
  }

  /** Bounds the steps until p has the sleep-lock. */
  function Left(s: Sys, p: nat): nat
    requires p < |s.pcs| && (s.lk.Some? ==> s.lk.value < |s.pcs|) && (s.holder.Some? ==> s.holder.value < |s.pcs|)
  {
    OwnLeft(s.pcs[p])
    + (if s.lk.Some? then InnerLeft(s.pcs[s.lk.value], s.locked, s.lk.value == p) else 0)
    + (if s.pt.Some? then 4 else 0)
    + (if s.holder.Some? then OuterLeft(s.pcs[s.holder.value]) else 0)
  }

  /** The state after q has acted. */
  function Stepped(s: Sys, q: nat): Sys
    requires q < |s.pcs|
  {
    var v := After(Seen(s, q), q);
    Sys((if s.pcs[q].RelPt? then WakeAll(s.pcs) else s.pcs)[q := v.pc], v.lk, v.pt, v.locked, v.holder)
  }

  /** Somebody inside is never stuck, and p is free to go when nobody is. */
  lemma MoverMay(s: Sys, p: nat)
    requires Inv(s) && p < |s.pcs| && !s.pcs[p].Holding?
    ensures Mover(s, p) < |s.pcs| && !Stuck(Seen(s, Mover(s, p)))
    ensures ProcOk(s, p) && ProcOk(s, Mover(s, p)) && (s.lk.Some? ==> ProcOk(s, s.lk.value))
  {
    var q := Mover(s, p);
    assert ProcOk(s, p) && ProcOk(s, q);
  }

  /** What the others see of a step: only wakeup1 moves them. */
  lemma OthersSame(s: Sys, q: nat, r: nat)
    requires q < |s.pcs| && r < |s.pcs| && r != q
    ensures Stepped(s, q).pcs[r] == (if s.pcs[q].RelPt? && s.pcs[r].Asleep? then Runnable else s.pcs[r])
  {
  }

  lemma InsideDrops(s: Sys, p: nat, q: nat)
    requires Inv(s) && p < |s.pcs| && !s.pcs[p].Holding? && q == Mover(s, p) && (s.pt.Some? || s.lk.Some?)
    requires q < |s.pcs| && Inv(Stepped(s, q))
    ensures Stepped(s, q).pcs[p].Holding? || Left(Stepped(s, q), p) < Left(s, p)
  {
    MoverMay(s, p);
    if p != q { OthersSame(s, q, p); }
    if s.lk.Some? && s.lk.value != q { OthersSame(s, q, s.lk.value); }
    if s.holder.Some? && s.holder.value != q { OthersSame(s, q, s.holder.value); }
    hide Inv, WakeAll;
  }

  lemma OutsideDrops(s: Sys, p: nat, q: nat)
    requires Inv(s) && p < |s.pcs| && !s.pcs[p].Holding? && q == Mover(s, p) && s.pt.None? && s.lk.None?
    requires q < |s.pcs| && Inv(Stepped(s, q))
    ensures Stepped(s, q).pcs[p].Holding? || Left(Stepped(s, q), p) < Left(s, p)
  {
    MoverMay(s, p);
    if p != q { OthersSame(s, q, p); }
    hide Inv, WakeAll;
  }

  lemma MoverMoves(s: Sys, p: nat)
    requires Inv(s) && p < |s.pcs| && !s.pcs[p].Holding?
    ensures Mover(s, p) < |s.pcs| && Step(s, Mover(s, p), Stepped(s, Mover(s, p)))
    ensures Inv(Stepped(s, Mover(s, p)))
    ensures Stepped(s, Mover(s, p)).pcs[p].Holding? || Left(Stepped(s, Mover(s, p)), p) < Left(s, p)
  {
    var q := Mover(s, p);
    MoverMay(s, p);
    hide Mover, After, Inv, ProcOk, Left;
    StepKeeps(s, q, Stepped(s, q));
    if s.pt.None? && s.lk.None? { OutsideDrops(s, p, q); } else { InsideDrops(s, p, q); }
  }

  lemma {:induction false} Driven(run: seq<Sys>, procs: seq<nat>, p: nat) returns (run': seq<Sys>, procs': seq<nat>)
    requires IsRun(run, procs) && Inv(run[|procs|]) && p < |run[|procs|].pcs|
    ensures IsRun(run', procs') && run <= run' && procs <= procs'
    ensures |run'[|procs'|].pcs| == |run[|procs|].pcs| && run'[|procs'|].pcs[p].Holding?
    decreases if run[|procs|].pcs[p].Holding? then 0 else Left(run[|procs|], p) + 1
  {
    hide Inv, Left, Stepped;
    run', procs' := run, procs;
    var s := run[|procs|];
    if !s.pcs[p].Holding? {
      var q := Mover(s, p);
      MoverMoves(s, p);
      run', procs' := Driven(run + [Stepped(s, q)], procs + [q], p);
    }
  }

  /** No deadlock: however far a run has gone, it can go on until process p holds the sleep-lock. */
  lemma CanGetIt(run: seq<Sys>, procs: seq<nat>, p: nat) returns (run': seq<Sys>, procs': seq<nat>)
    requires IsRun(run, procs) && p < |run[|procs|].pcs|
    ensures IsRun(run', procs') && run <= run' && procs <= procs'
    ensures |run'[|procs'|].pcs| == |run[|procs|].pcs| && run'[|procs'|].pcs[p].Holding?
  {
    RunInv(run, procs, |procs|);
    run', procs' := Driven(run, procs, p);
  }
}
