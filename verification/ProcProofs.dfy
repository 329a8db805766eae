/**
  Every critical section of proc.c keeps the process table in order.
 */
module ProcProofs {
  import opened Common
  import opened ProcSpec

  // ------------------------------------------------------------ exit()

  /** Some zombie among the children of cur from entry i on. */
  ghost predicate ZombieFrom(procs: seq<Proc>, cur: nat, i: nat) {
    exists j :: i <= j < |procs| && IsChild(procs, cur, j) && procs[j].state.ZOMBIE?
  }

  /** What Orphan makes of one entry. */
  ghost predicate Passed(a: Proc, b: Proc, cur: nat, init: nat, mine: bool, zombie: bool) {
    && b == a.(parent := b.parent, state := b.state)
    && b.parent == (if mine then Some(init) else a.parent)
    && b.state == (if zombie && a.state.SLEEPING? && a.chan == OnProc(init) then RUNNABLE else a.state)
  }

  lemma {:induction false} OrphanPasses(procs: seq<Proc>, cur: nat, init: nat, i: nat)
    requires i <= |procs| && cur != init
    ensures var r := Orphan(procs, cur, init, i);
      forall j | 0 <= j < |procs| ::
        Passed(procs[j], r[j], cur, init, i <= j && IsChild(procs, cur, j), ZombieFrom(procs, cur, i))
    decreases |procs| - i
  {
    if i == |procs| {
    } else if !IsChild(procs, cur, i) {
      OrphanPasses(procs, cur, init, i + 1);
      assert ZombieFrom(procs, cur, i) == ZombieFrom(procs, cur, i + 1);
    } else {
      var given := procs[i := procs[i].(parent := Some(init))];
      var next := if procs[i].state.ZOMBIE? then Wakeup(given, OnProc(init)) else given;
      OrphanPasses(next, cur, init, i + 1);
      var r := Orphan(procs, cur, init, i);
      assert forall j | i + 1 <= j < |procs| :: IsChild(next, cur, j) == IsChild(procs, cur, j);
      assert forall j | 0 <= j < |procs| :: next[j].state.ZOMBIE? == procs[j].state.ZOMBIE?;
      ZombieSplit(procs, next, cur, i);
      forall j | 0 <= j < |procs|
        ensures Passed(procs[j], r[j], cur, init, i <= j && IsChild(procs, cur, j), ZombieFrom(procs, cur, i))
      {
        assert Passed(next[j], r[j], cur, init, i + 1 <= j && IsChild(next, cur, j), ZombieFrom(next, cur, i + 1));
      }
    }
  }

  lemma ZombieSplit(procs: seq<Proc>, next: seq<Proc>, cur: nat, i: nat)
    requires i < |procs| == |next| && IsChild(procs, cur, i)
    requires forall j | i + 1 <= j < |procs| :: IsChild(next, cur, j) == IsChild(procs, cur, j)
    requires forall j | 0 <= j < |procs| :: next[j].state.ZOMBIE? == procs[j].state.ZOMBIE?
    ensures ZombieFrom(procs, cur, i) <==> procs[i].state.ZOMBIE? || ZombieFrom(next, cur, i + 1)
  {
    if j :| i + 1 <= j < |next| && IsChild(next, cur, j) && next[j].state.ZOMBIE? {
      assert IsChild(procs, cur, j);
    }
  }

  /** What exit() makes of entry j. */
  ghost predicate Left(t: Table, cur: nat, j: nat, b: Proc)
    requires cur < |t.procs| && j < |t.procs|
  {
    var a := t.procs[j];
    && b.pid == a.pid && b.killed == a.killed && b.chan == a.chan
    && b.parent == (if IsChild(t.procs, cur, j) then Some(t.init) else a.parent)
    && (j == cur ==> b.state == ZOMBIE)
    && (j != cur ==> b.state == if a.state.SLEEPING? && Woken(t, cur, a.chan) then RUNNABLE else a.state)
  }

  /** exit() wakes its parent in wait(), and init if it passes a zombie on. */
  ghost predicate Woken(t: Table, cur: nat, ch: Chan)
    requires cur < |t.procs|
  {
    || (t.procs[cur].parent.Some? && ch == OnProc(t.procs[cur].parent.value))
    || (ZombieFrom(t.procs, cur, 0) && ch == OnProc(t.init))
  }

  lemma ExitEntry(t: Table, c: nat, cur: nat, j: nat)
    requires cur < |t.procs| && c < |t.cpus| && cur != t.init && j < |t.procs|
    ensures |Exit(t, c, cur).procs| == |t.procs| && Left(t, cur, j, Exit(t, c, cur).procs[j])
  {
    hide Orphan, ZombieFrom;
    var woken := match t.procs[cur].parent case Some(p) => Wakeup(t.procs, OnProc(p)) case None => t.procs;
    OrphanPasses(woken, cur, t.init, 0);
    assert IsChild(woken, cur, j) == IsChild(t.procs, cur, j);
    StillZombie(t.procs, woken, cur);
    var passed := Orphan(woken, cur, t.init, 0);
    assert Passed(woken[j], passed[j], cur, t.init, IsChild(woken, cur, j), ZombieFrom(woken, cur, 0));
  }

  lemma StillZombie(procs: seq<Proc>, woken: seq<Proc>, cur: nat)
    requires |woken| == |procs|
    requires forall j | 0 <= j < |procs| ::
        woken[j].parent == procs[j].parent && (procs[j].state.ZOMBIE? ==> woken[j].state.ZOMBIE?)
    requires forall j | 0 <= j < |procs| :: woken[j].state.ZOMBIE? ==> procs[j].state.ZOMBIE?
    ensures ZombieFrom(procs, cur, 0) <==> ZombieFrom(woken, cur, 0)
  {
    if j :| 0 <= j < |procs| && IsChild(procs, cur, j) && procs[j].state.ZOMBIE? {
      assert IsChild(woken, cur, j);
    }
    if j :| 0 <= j < |procs| && IsChild(woken, cur, j) && woken[j].state.ZOMBIE? {
      assert IsChild(procs, cur, j);
    }
  }

  /** The entries after exit(), one by one. */
  lemma ExitEntries(t: Table, c: nat, cur: nat)
    requires cur < |t.procs| && c < |t.cpus| && cur != t.init
    ensures var t' := Exit(t, c, cur);
      && |t'.procs| == |t.procs|
      && t'.procs[cur].state == ZOMBIE && t'.procs[cur].pid == t.procs[cur].pid
      && (forall j | 0 <= j < |t.procs| ::
            && t'.procs[j].pid == t.procs[j].pid && t'.procs[j].killed == t.procs[j].killed &&
                t'.procs[j].chan == t.procs[j].chan
            && t'.procs[j].parent == (if IsChild(t.procs, cur, j) then Some(t.init) else t.procs[j].parent))
      && (forall j | 0 <= j < |t.procs| && j != cur ::
            t'.procs[j].state ==
            if t.procs[j].state.SLEEPING? && Woken(t, cur, t.procs[j].chan) then RUNNABLE else t.procs[j].state)
  {
    hide Exit, ZombieFrom, Orphan;
    ExitEntry(t, c, cur, cur);
    forall j: nat | j < |t.procs|
      ensures Left(t, cur, j, Exit(t, c, cur).procs[j])
    {
      ExitEntry(t, c, cur, j);
    }
  }

  lemma ExitKeepsCpusPids(t: Table, c: nat)
    requires Inv(t) && RunsOn(t, c) && t.cpus[c].value != t.init
    ensures CpusOk(Exit(t, c, t.cpus[c].value)) && PidsOk(Exit(t, c, t.cpus[c].value))
  {
    hide Exit, WaitersOk, ZombieFrom;
    var cur := t.cpus[c].value;
    ExitEntries(t, c, cur);
    var t' := Exit(t, c, cur);
    assert t'.cpus == t.cpus[c := None] && t'.nextpid == t.nextpid && t'.reaped == t.reaped by { ExitCpus(t, c, cur); }
    CpuDrops(t, c);
    assert Some(cur) in t.cpus;
  }

  lemma ExitCpus(t: Table, c: nat, cur: nat)
    requires cur < |t.procs| && c < |t.cpus|
    ensures var t' := Exit(t, c, cur);
      t'.cpus == t.cpus[c := None] && t'.nextpid == t.nextpid && t'.reaped == t.reaped && t'.init == t.init
  {
  }

  /** Taking the process off cpu c takes exactly that process off. */
  lemma CpuDrops(t: Table, c: nat)
    requires CpusOk(t) && RunsOn(t, c)
    ensures forall p | 0 <= p < |t.procs| :: Some(p) in t.cpus[c := None] <==> Some(p) in t.cpus && p != t.cpus[c].value
  {
    var cpus' := t.cpus[c := None];
    forall p | 0 <= p < |t.procs|
      ensures Some(p) in cpus' <==> Some(p) in t.cpus && p != t.cpus[c].value
    {
      if Some(p) in t.cpus && p != t.cpus[c].value {
        var d :| 0 <= d < |t.cpus| && t.cpus[d] == Some(p);
        assert cpus'[d] == Some(p);
      }
      if Some(p) in cpus' {
        var d :| 0 <= d < |cpus'| && cpus'[d] == Some(p);
        assert t.cpus[d] == Some(p);
      }
    }
  }

  lemma ExitKeepsParents(t: Table, c: nat)
    requires Inv(t) && RunsOn(t, c) && t.cpus[c].value != t.init
    ensures ParentsOk(Exit(t, c, t.cpus[c].value))
  {
    hide Exit, WaitersOk, ZombieFrom, PidsOk;
    var cur := t.cpus[c].value;
    ExitEntries(t, c, cur);
    ExitCpus(t, c, cur);
    assert Some(cur) in t.cpus;
    var t' := Exit(t, c, cur);
    forall p | 0 <= p < |t.procs| && t'.procs[p].parent.Some?
      ensures Live(t'.procs[p].state) && Able(t'.procs[t'.procs[p].parent.value].state) && t'.procs[p].parent.value != p
    {
      assert IsChild(t.procs, cur, p) <==> t.procs[p].parent == Some(cur);
    }
  }

  lemma ExitKeepsWaiters(t: Table, c: nat)
    requires Inv(t) && RunsOn(t, c) && t.cpus[c].value != t.init
    ensures WaitersOk(Exit(t, c, t.cpus[c].value))
  {
    hide Exit, PidsOk;
    var cur := t.cpus[c].value;
    ExitEntries(t, c, cur);
    ExitCpus(t, c, cur);
    assert Some(cur) in t.cpus;
    var t' := Exit(t, c, cur);
    forall p: nat | p < |t.procs| && InWait(t'.procs, p)
      ensures InWait(t.procs, p) && HasKids(t'.procs, p) && !t'.procs[p].killed
      ensures forall q: nat | q < |t.procs| && IsChild(t'.procs, p, q) :: !t'.procs[q].state.ZOMBIE?
    {
      ExitWaiter(t, c, p);
    }
  }

  lemma ExitWaiter(t: Table, c: nat, p: nat)
    requires Inv(t) && RunsOn(t, c) && t.cpus[c].value != t.init && p < |t.procs|
    requires var t' := Exit(t, c, t.cpus[c].value); |t'.procs| == |t.procs| && InWait(t'.procs, p)
    ensures var t' := Exit(t, c, t.cpus[c].value);
      && InWait(t.procs, p) && HasKids(t'.procs, p) && !t'.procs[p].killed
      && forall q: nat | q < |t.procs| && IsChild(t'.procs, p, q) :: !t'.procs[q].state.ZOMBIE?
  {
    hide Exit, PidsOk;
    var cur := t.cpus[c].value;
    ExitEntries(t, c, cur);
    assert Some(cur) in t.cpus;
    var t' := Exit(t, c, cur);
    assert InWait(t.procs, p);
    var k :| 0 <= k < |t.procs| && IsChild(t.procs, p, k);
    assert IsChild(t'.procs, p, k);
    assert forall q: nat | q < |t.procs| && IsChild(t.procs, cur, q) && t.procs[q].state.ZOMBIE? ::
        ZombieFrom(t.procs, cur, 0);
  }

  // ------------------------------------------------------ the other sections

  /** Same CPUs, same RUNNING processes. */
  lemma CpusFrame(t: Table, t': Table)
    requires CpusOk(t) && t'.cpus == t.cpus && |t'.procs| == |t.procs|
    requires forall p | 0 <= p < |t.procs| :: t'.procs[p].state.RUNNING? == t.procs[p].state.RUNNING?
    ensures CpusOk(t')
  {
  }

  lemma PidsFrame(t: Table, t': Table)
    requires PidsOk(t) && |t'.procs| == |t.procs| && t'.nextpid == t.nextpid && t'.reaped == t.reaped
    requires forall p | 0 <= p < |t.procs| && Live(t'.procs[p].state) ::
        Live(t.procs[p].state) && t'.procs[p].pid == t.procs[p].pid
    ensures PidsOk(t')
  {
  }

  lemma ParentsFrame(t: Table, t': Table)
    requires ParentsOk(t) && |t'.procs| == |t.procs| && t'.init == t.init
    requires forall p | 0 <= p < |t.procs| :: Able(t.procs[p].state) ==> Able(t'.procs[p].state)
    requires forall p | 0 <= p < |t.procs| :: t'.procs[p].parent == t.procs[p].parent
    requires forall p | 0 <= p < |t.procs| && t.procs[p].parent.Some? && Live(t.procs[p].state) ::
        Live(t'.procs[p].state)
    ensures ParentsOk(t')
  {
  }

  lemma KidsStay(procs: seq<Proc>, procs': seq<Proc>, p: nat)
    requires |procs'| == |procs|
    requires forall j | 0 <= j < |procs| && procs[j].parent == Some(p) :: procs'[j].parent == Some(p)
    requires HasKids(procs, p)
    ensures HasKids(procs', p)
  {
    var j :| 0 <= j < |procs| && IsChild(procs, p, j);
    assert IsChild(procs', p, j);
  }

  /** No new sleeper in wait(), no new zombie, no lost child. */
  lemma WaitersFrame(t: Table, t': Table)
    requires WaitersOk(t) && |t'.procs| == |t.procs|
    requires forall p: nat | p < |t.procs| && t'.procs[p].state.SLEEPING? && t'.procs[p].chan.OnProc? ::
      t.procs[p].state.SLEEPING? && t'.procs[p].chan == t.procs[p].chan && t'.procs[p].killed == t.procs[p].killed
    requires forall p: nat | p < |t.procs| && t'.procs[p].state.ZOMBIE? ::
      t.procs[p].state.ZOMBIE? && t'.procs[p].parent == t.procs[p].parent
    requires forall p: nat, q: nat | p < |t.procs| && q < |t.procs| && InWait(t'.procs, p) && IsChild(t.procs, p, q) ::
      IsChild(t'.procs, p, q)
    ensures WaitersOk(t')
  {
    forall p: nat | p < |t.procs| && InWait(t'.procs, p)
      ensures InWait(t.procs, p) && HasKids(t'.procs, p) && !t'.procs[p].killed
    {
      assert forall q: nat | q < |t.procs| && t.procs[q].parent == Some(p) :: IsChild(t.procs, p, q);
      KidsStay(t.procs, t'.procs, p);
    }
    forall p: nat, q: nat | p < |t.procs| && q < |t.procs| && InWait(t'.procs, p) && IsChild(t'.procs, p, q)
      ensures !t'.procs[q].state.ZOMBIE?
    {
      assert t'.procs[q].state.ZOMBIE? ==> IsChild(t.procs, p, q);
    }
  }

  lemma AllocKeeps(t: Table)
    requires Inv(t)
    ensures Inv(AllocProc(t))
  {
    hide CpusOk, PidsOk, WaitersOk;
    var t' := AllocProc(t);
    CpusFrame(t, t');
    AllocPids(t);
    ParentsFrame(t, t');
    WaitersFrame(t, t');
  }

  lemma AllocPids(t: Table)
    requires PidsOk(t)
    ensures PidsOk(AllocProc(t))
  {
  }

  lemma AllocFailsKeeps(t: Table, np: nat)
    requires Inv(t) && np < |t.procs| && t.procs[np].state.EMBRYO? && t.procs[np].parent.None?
    ensures Inv(t.(procs := t.procs[np := t.procs[np].(state := UNUSED)]))
  {
    hide CpusOk, PidsOk, WaitersOk;
    var t' := t.(procs := t.procs[np := t.procs[np].(state := UNUSED)]);
    CpusFrame(t, t');
    PidsFrame(t, t');
    ParentsFrame(t, t');
    WaitersFrame(t, t');
  }

  lemma SetParentKeeps(t: Table, cur: nat, np: nat)
    requires Inv(t) && cur < |t.procs| && np < |t.procs| && t.procs[cur].state.RUNNING? && t.procs[np].state.EMBRYO?
    requires t.procs[np].parent.None?
    ensures Inv(t.(procs := t.procs[np := t.procs[np].(parent := Some(cur))]))
  {
    hide CpusOk, PidsOk, WaitersOk;
    var t' := t.(procs := t.procs[np := t.procs[np].(parent := Some(cur))]);
    CpusFrame(t, t');
    PidsFrame(t, t');
    WaitersFrame(t, t');
  }

  lemma ForkDoneKeeps(t: Table, np: nat)
    requires Inv(t) && np < |t.procs| && t.procs[np].state.EMBRYO?
    ensures Inv(t.(procs := t.procs[np := t.procs[np].(state := RUNNABLE)]))
  {
    hide CpusOk, PidsOk, WaitersOk;
    var t' := t.(procs := t.procs[np := t.procs[np].(state := RUNNABLE)]);
    CpusFrame(t, t');
    PidsFrame(t, t');
    ParentsFrame(t, t');
    WaitersFrame(t, t');
  }

  lemma CpuTakes(t: Table, c: nat, p: nat)
    requires CpusOk(t) && c < |t.cpus| && t.cpus[c].None? && p < |t.procs| && !t.procs[p].state.RUNNING?
    ensures CpusOk(t.(procs := t.procs[p := t.procs[p].(state := RUNNING)], cpus := t.cpus[c := Some(p)]))
  {
    var t' := t.(procs := t.procs[p := t.procs[p].(state := RUNNING)], cpus := t.cpus[c := Some(p)]);
    forall q | 0 <= q < |t.procs|
      ensures Some(q) in t'.cpus <==> Some(q) in t.cpus || q == p
    {
      assert t'.cpus[c] == Some(p);
      if Some(q) in t.cpus {
        var d :| 0 <= d < |t.cpus| && t.cpus[d] == Some(q);
        assert t'.cpus[d] == Some(q);
      }
    }
  }

  lemma ScheduleKeeps(t: Table, c: nat, p: nat)
    requires Inv(t) && c < |t.cpus| && t.cpus[c].None? && p < |t.procs| && t.procs[p].state.RUNNABLE?
    ensures Inv(t.(procs := t.procs[p := t.procs[p].(state := RUNNING)], cpus := t.cpus[c := Some(p)]))
  {
    hide CpusOk, PidsOk, WaitersOk;
    var t' := t.(procs := t.procs[p := t.procs[p].(state := RUNNING)], cpus := t.cpus[c := Some(p)]);
    CpuTakes(t, c, p);
    PidsFrame(t, t');
    ParentsFrame(t, t');
    WaitersFrame(t, t');
  }

  function OffCpu(t: Table, c: nat, state: State, chan: Chan): Table
    requires RunsOn(t, c)
  {
    t.(procs := t.procs[t.cpus[c].value := t.procs[t.cpus[c].value].(state := state, chan := chan)],
      cpus := t.cpus[c := None])
  }

  lemma OffCpuCpus(t: Table, c: nat, state: State, chan: Chan)
    requires CpusOk(t) && RunsOn(t, c) && !state.RUNNING?
    ensures t.procs[t.cpus[c].value].state.RUNNING? && CpusOk(OffCpu(t, c, state, chan))
  {
    assert Some(t.cpus[c].value) in t.cpus;
    CpuDrops(t, c);
  }

  /** yield(), or sleep() on a channel that is not a process. */
  lemma OffCpuKeeps(t: Table, c: nat, state: State, chan: Chan)
    requires Inv(t) && RunsOn(t, c) && (state.RUNNABLE? || (state.SLEEPING? && chan.Other?))
    ensures Inv(OffCpu(t, c, state, chan))
  {
    hide CpusOk, PidsOk, WaitersOk;
    OffCpuCpus(t, c, state, chan);
    var t' := OffCpu(t, c, state, chan);
    PidsFrame(t, t');
    ParentsFrame(t, t');
    WaitersFrame(t, t');
  }

  lemma WakeupKeeps(t: Table, chan: Chan)
    requires Inv(t)
    ensures Inv(t.(procs := Wakeup(t.procs, chan)))
  {
    hide CpusOk, PidsOk, ParentsOk, WaitersOk;
    var t' := t.(procs := Wakeup(t.procs, chan));
    CpusFrame(t, t');
    PidsFrame(t, t');
    ParentsFrame(t, t');
    WaitersFrame(t, t');
  }

  lemma KillKeeps(t: Table, pid: nat)
    requires Inv(t)
    ensures Inv(Kill(t, pid))
  {
    hide CpusOk, PidsOk, ParentsOk, WaitersOk;
    var t' := Kill(t, pid);
    CpusFrame(t, t');
    PidsFrame(t, t');
    ParentsFrame(t, t');
    WaitersFrame(t, t');
  }

  // --------------------------------------------------------------- wait()

  function Reap(t: Table, k: nat): Table
    requires k < |t.procs|
  {
    t.(procs := t.procs[k := t.procs[k].(state := UNUSED, pid := 0, parent := None, killed := false)],
    reaped := t.reaped + {t.procs[k].pid})
  }

  lemma ReapPids(t: Table, k: nat)
    requires PidsOk(t) && k < |t.procs| && Live(t.procs[k].state)
    ensures PidsOk(Reap(t, k)) && t.procs[k].pid !in t.reaped
  {
  }

  lemma ReapParents(t: Table, k: nat)
    requires ParentsOk(t) && k < |t.procs| && t.procs[k].state.ZOMBIE?
    ensures ParentsOk(Reap(t, k))
  {
  }

  lemma ReapKeeps(t: Table, cur: nat, k: nat)
    requires Inv(t) && cur < |t.procs| && k < |t.procs| && t.procs[cur].state.RUNNING?
    requires IsChild(t.procs, cur, k) && t.procs[k].state.ZOMBIE?
    ensures Inv(Reap(t, k)) && t.procs[k].pid !in t.reaped
  {
    hide CpusOk, PidsOk, ParentsOk, WaitersOk;
    var t' := Reap(t, k);
    CpusFrame(t, t');
    ReapPids(t, k);
    ReapParents(t, k);
    WaitersFrame(t, t');
  }

  lemma WaitSleeps(t: Table, c: nat)
    requires Inv(t) && RunsOn(t, c) && WaitOutcome(t.procs, t.cpus[c].value).MustSleep?
    ensures Inv(OffCpu(t, c, SLEEPING, OnProc(t.cpus[c].value)))
  {
    hide CpusOk, PidsOk;
    var cur := t.cpus[c].value;
    OffCpuCpus(t, c, SLEEPING, OnProc(cur));
    var t' := OffCpu(t, c, SLEEPING, OnProc(cur));
    PidsFrame(t, t');
    ParentsFrame(t, t');
    forall p: nat | p < |t.procs| && InWait(t'.procs, p)
      ensures HasKids(t'.procs, p)
    {
      KidsStay(t.procs, t'.procs, p);
    }
    forall p: nat, q: nat | p < |t.procs| && q < |t.procs| && InWait(t'.procs, p) && IsChild(t'.procs, p, q)
      ensures !t'.procs[q].state.ZOMBIE?
    {
      assert p != cur ==> InWait(t.procs, p);
      assert IsChild(t.procs, p, q);
    }
  }

  lemma WaitKeeps(t: Table, c: nat)
    requires Inv(t) && RunsOn(t, c)
    ensures Inv(Wait(t, c, t.cpus[c].value))
  {
    hide PidsOk, ParentsOk, WaitersOk, HasKids;
    var cur := t.cpus[c].value;
    assert Some(cur) in t.cpus;
    var k := FirstZombie(t.procs, cur, 0);
    match WaitOutcome(t.procs, cur)
    case Reaped(_) => ReapKeeps(t, cur, k);
    case NoChild =>
    case MustSleep => WaitSleeps(t, c);
  }

  // ------------------------------------------------------------ whole runs

  lemma NextKeeps(t: Table, a: Action, t': Table)
    requires Inv(t) && Next(t, a, t')
    ensures Inv(t')
  {
    hide Inv, Exit, Wait, Kill, AllocProc, Wakeup;
    match a
    case DoAlloc => AllocKeeps(t);
    case AllocFails(np) => AllocFailsKeeps(t, np);
    case SetParent(cur, np) => SetParentKeeps(t, cur, np);
    case ForkDone(np) => ForkDoneKeeps(t, np);
    case Schedule(c, p) => ScheduleKeeps(t, c, p);
    case Yield(c) => OffCpuKeeps(t, c, RUNNABLE, t.procs[t.cpus[c].value].chan);
    case SleepOn(c, n) => OffCpuKeeps(t, c, SLEEPING, Other(n));
    case WakeupOn(n) => WakeupKeeps(t, Other(n));
    case DoWait(c) => WaitKeeps(t, c);
    case DoExit(c) => ExitKeeps(t, c);
    case DoKill(pid) => KillKeeps(t, pid);
  }

  lemma ExitKeeps(t: Table, c: nat)
    requires Inv(t) && RunsOn(t, c) && t.cpus[c].value != t.init
    ensures Inv(Exit(t, c, t.cpus[c].value))
  {
    hide Exit, CpusOk, PidsOk, ParentsOk, WaitersOk;
    ExitKeepsCpusPids(t, c);
    ExitKeepsParents(t, c);
    ExitKeepsWaiters(t, c);
  }

  /** Just after userinit(): only init exists. */
  ghost predicate Init(t: Table) {
    && t.init < |t.procs| && t.procs[t.init] == Proc(RUNNABLE, 1, None, NoChan, false) && t.nextpid == 2 &&
        t.reaped == {}
    && (forall p | 0 <= p < |t.procs| && p != t.init :: t.procs[p] == Proc(UNUSED, 0, None, NoChan, false))
    && (forall c | 0 <= c < |t.cpus| :: t.cpus[c].None?)
  }

  ghost predicate IsRun(run: seq<Table>, acts: seq<Action>) {
    && |run| == |acts| + 1 && Init(run[0])
    && forall i | 0 <= i < |acts| :: Next(run[i], acts[i], run[i + 1])
  }

  /** In every run, whenever ptable.lock is free, the table is in order. */
  lemma {:induction false} RunInv(run: seq<Table>, acts: seq<Action>, i: nat)
    requires IsRun(run, acts) && i <= |acts|
    ensures Inv(run[i])
  {
    hide Next;
    if i > 0 {
      RunInv(run, acts, i - 1);
      NextKeeps(run[i - 1], acts[i - 1], run[i]);
    }
  }

  /** wait() never returns a pid twice. */
  lemma PidReturnedOnce(run: seq<Table>, acts: seq<Action>, i: nat, c: nat)
    requires IsRun(run, acts) && i < |acts| && acts[i] == DoWait(c) && RunsOn(run[i], c)
    requires WaitOutcome(run[i].procs, run[i].cpus[c].value).Reaped?
    ensures var pid := WaitOutcome(run[i].procs, run[i].cpus[c].value).pid;
      pid !in run[i].reaped && pid in run[i + 1].reaped
  {
    RunInv(run, acts, i);
    var cur := run[i].cpus[c].value;
    assert Some(cur) in run[i].cpus;
    ReapKeeps(run[i], cur, FirstZombie(run[i].procs, cur, 0));
    assert Next(run[i], acts[i], run[i + 1]);
  }

  lemma {:induction false} ReapedStays(run: seq<Table>, acts: seq<Action>, i: nat, j: nat)
    requires IsRun(run, acts) && i <= j <= |acts|
    ensures run[i].reaped <= run[j].reaped
    decreases j - i
  {
    if i < j {
      assert Next(run[i], acts[i], run[i + 1]);
      ReapedStays(run, acts, i + 1, j);
    }
  }
}
