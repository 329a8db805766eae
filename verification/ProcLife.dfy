/**
  The whole history of an entry of the process table: when it is in use, who its
  parent is, when it runs, sleeps, is killed or a zombie, each from the steps of the
  run that made it so and the steps that ended it.
 */
module ProcLife {
  import opened Common
  import opened ProcSpec
  import opened ProcProofs

  // --------------------------------------------------------- what a step does

  /** p is the process that runs on cpu c. */
  predicate Acting(t: Table, c: nat, p: nat) {
    c < |t.cpus| && t.cpus[c] == Some(p) && p < |t.procs|
  }

  predicate ZombieChild(t: Table, cur: nat, k: nat) {
    k < |t.procs| && t.procs[k].parent == Some(cur) && t.procs[k].state.ZOMBIE?
  }

  /** wait() by the process on the cpu finds p, its first zombie child, and frees it. */
  ghost predicate Reaps(t: Table, a: Action, p: nat) {
    && a.DoWait? && RunsOn(t, a.c) && ZombieChild(t, t.cpus[a.c].value, p)
    && forall k: nat | k < p :: !ZombieChild(t, t.cpus[a.c].value, k)
  }

  /** wait() by p has to sleep: a child, no zombie among them, and p not killed. */
  ghost predicate WaitsOn(t: Table, a: Action, p: nat) {
    && a.DoWait? && Acting(t, a.c, p) && !t.procs[p].killed
    && (exists k: nat :: k < |t.procs| && IsChild(t.procs, p, k)) && forall k: nat :: !ZombieChild(t, p, k)
  }

  /** kill() finds entry p: the first with the pid. */
  ghost predicate Hits(t: Table, a: Action, p: nat) {
    a.DoKill? && p < |t.procs| && t.procs[p].pid == a.pid && forall k | 0 <= k < p :: t.procs[k].pid != a.pid
  }

  /** allocproc() takes entry p: the first unused one. */
  ghost predicate Takes(t: Table, a: Action, p: nat) {
    a.DoAlloc? && p < |t.procs| && t.procs[p].state.UNUSED? && forall k | 0 <= k < p :: Live(t.procs[k].state)
  }

  predicate Exits(t: Table, a: Action, p: nat) {
    a.DoExit? && Acting(t, a.c, p)
  }

  predicate GivesUp(a: Action, p: nat) {
    a == AllocFails(p)
  }

  /** An exit whose wakeups reach a sleeper on this channel: the parent, or init for a zombie passed to it. */
  ghost predicate ExitWakes(t: Table, a: Action, ch: Chan) {
    && a.DoExit? && RunsOn(t, a.c)
    && var cur := t.cpus[a.c].value;
       || (t.procs[cur].parent.Some? && ch == OnProc(t.procs[cur].parent.value))
       || (ch == OnProc(t.init) && exists k: nat :: ZombieChild(t, cur, k))
  }

  // ----------------------------------------------------------------- the facts

  datatype Fact =
    | InUse
    | Unborn
    | HasPid(n: nat)
    | ChildOf(q: nat)
    | OnCpu(c: nat)
    | AsleepOn(ch: Chan)
    | IsKilled
    | IsZombie

  predicate True(t: Table, p: nat, f: Fact)
    requires p < |t.procs|
  {
    var e := t.procs[p];
    match f
    case InUse => !e.state.UNUSED?
    case Unborn => e.state.EMBRYO?
    case HasPid(n) => e.pid == n
    case ChildOf(q) => e.parent == Some(q)
    case OnCpu(c) => c < |t.cpus| && t.cpus[c] == Some(p)
    case AsleepOn(ch) => e.state.SLEEPING? && e.chan == ch
    case IsKilled => e.killed
    case IsZombie => e.state.ZOMBIE?
  }

  /** The step makes the fact true of entry p. */
  ghost predicate Begins(t: Table, a: Action, p: nat, f: Fact) {
    match f
    case InUse => Takes(t, a, p)
    case Unborn => Takes(t, a, p)
    case HasPid(n) => (Takes(t, a, p) && n == t.nextpid) || (Reaps(t, a, p) && n == 0)
    case ChildOf(q) =>
      || a == SetParent(q, p)
      || (q == t.init && a.DoExit? && RunsOn(t, a.c) && p < |t.procs| && t.procs[p].parent == t.cpus[a.c])
    case OnCpu(c) => a == Schedule(c, p)
    case AsleepOn(ch) =>
      (a.SleepOn? && Acting(t, a.c, p) && ch == Other(a.n)) || (WaitsOn(t, a, p) && ch == OnProc(p))
    case IsKilled => Hits(t, a, p)
    case IsZombie => Exits(t, a, p)
  }

  /** The step ends it. */
  ghost predicate Ends(t: Table, a: Action, p: nat, f: Fact) {
    match f
    case InUse => Reaps(t, a, p) || GivesUp(a, p)
    case Unborn => a == ForkDone(p) || GivesUp(a, p)
    case HasPid(n) => Takes(t, a, p) || Reaps(t, a, p)
    case ChildOf(q) => Reaps(t, a, p) || Exits(t, a, q)
    case OnCpu(c) => a == Yield(c) || (a.SleepOn? && a.c == c) || a == DoExit(c) || (WaitsOn(t, a, p) && a.c == c)
    case AsleepOn(ch) => (a.WakeupOn? && ch == Other(a.n)) || Hits(t, a, p) || ExitWakes(t, a, ch)
    case IsKilled => Reaps(t, a, p)
    case IsZombie => Reaps(t, a, p)
  }

  // ------------------------------------------------------- each step, each fact

  lemma FirstZombieIs(t: Table, cur: nat, p: nat)
    requires cur < |t.procs| && p < |t.procs|
    ensures FirstZombie(t.procs, cur, 0) == p
       <==> ZombieChild(t, cur, p) && forall k: nat | k < p :: !ZombieChild(t, cur, k)
    ensures FirstZombie(t.procs, cur, 0) == |t.procs| <==> forall k: nat :: !ZombieChild(t, cur, k)
  {
    hide FirstZombie;
    var z := FirstZombie(t.procs, cur, 0);
    assert z < |t.procs| ==> ZombieChild(t, cur, z);
    assert forall k: nat | k < z :: !ZombieChild(t, cur, k);
  }

  /** What wait() answers: a zombie child's pid; -1 only without children or when killed; else it sleeps. */
  lemma WaitAnswers(t: Table, cur: nat)
    requires cur < |t.procs|
    ensures WaitOutcome(t.procs, cur).Reaped? <==> exists k: nat :: ZombieChild(t, cur, k)
    ensures WaitOutcome(t.procs, cur).Reaped? ==>
        exists k: nat :: ZombieChild(t, cur, k) && t.procs[k].pid == WaitOutcome(t.procs, cur).pid
    ensures WaitOutcome(t.procs, cur).NoChild? <==>
        && (forall k: nat :: !ZombieChild(t, cur, k))
        && (t.procs[cur].killed || forall k: nat | k < |t.procs| :: !IsChild(t.procs, cur, k))
  {
    hide FirstZombie;
    var z := FirstZombie(t.procs, cur, 0);
    FirstZombieIs(t, cur, if z < |t.procs| then z else cur);
  }

  lemma AllocStep(t: Table, t': Table, p: nat, f: Fact)
    requires Inv(t) && Next(t, DoAlloc, t') && p < |t.procs|
    ensures |t'.procs| == |t.procs|
    ensures True(t', p, f) <==> Begins(t, DoAlloc, p, f) || (True(t, p, f) && !Ends(t, DoAlloc, p, f))
  {
    hide FirstUnused, WaitersOk;
    var k := FirstUnused(t.procs, 0);
    assert Takes(t, DoAlloc, p) <==> p == k;
  }

  lemma KillStep(t: Table, pid: nat, t': Table, p: nat, f: Fact)
    requires Inv(t) && Next(t, DoKill(pid), t') && p < |t.procs|
    ensures |t'.procs| == |t.procs|
    ensures True(t', p, f) <==> Begins(t, DoKill(pid), p, f) || (True(t, p, f) && !Ends(t, DoKill(pid), p, f))
  {
    hide WithPid, Inv;
    var k := WithPid(t.procs, pid, 0);
    assert Hits(t, DoKill(pid), p) <==> p == k;
  }

  lemma WaitStep(t: Table, c: nat, t': Table, p: nat, f: Fact)
    requires Inv(t) && Next(t, DoWait(c), t') && p < |t.procs|
    ensures |t'.procs| == |t.procs|
    ensures True(t', p, f) <==> Begins(t, DoWait(c), p, f) || (True(t, p, f) && !Ends(t, DoWait(c), p, f))
  {
    hide FirstZombie, PidsOk, WaitersOk, WaitOutcome, Reaps, WaitsOn, ZombieChild, HasKids;
    var cur := t.cpus[c].value;
    assert Some(cur) in t.cpus;
    WaitEvents(t, c, p);
    OutcomeFinds(t, cur);
  }

  lemma OutcomeFinds(t: Table, cur: nat)
    requires cur < |t.procs|
    ensures WaitOutcome(t.procs, cur).Reaped? <==> FirstZombie(t.procs, cur, 0) < |t.procs|
  {
  }

  lemma WaitEvents(t: Table, c: nat, p: nat)
    requires RunsOn(t, c) && p < |t.procs|
    ensures Reaps(t, DoWait(c), p) <==> FirstZombie(t.procs, t.cpus[c].value, 0) == p
    ensures WaitsOn(t, DoWait(c), p) <==> p == t.cpus[c].value && WaitOutcome(t.procs, t.cpus[c].value).MustSleep?
  {
    hide FirstZombie;
    FirstZombieIs(t, t.cpus[c].value, p);
    WaitAnswers(t, t.cpus[c].value);
  }

  lemma ZombieMeans(t: Table, cur: nat)
    ensures ZombieFrom(t.procs, cur, 0) <==> exists k: nat :: ZombieChild(t, cur, k)
  {
    if k: nat :| ZombieChild(t, cur, k) { assert IsChild(t.procs, cur, k); }
    if j :| 0 <= j < |t.procs| && IsChild(t.procs, cur, j) && t.procs[j].state.ZOMBIE? {
      assert ZombieChild(t, cur, j);
    }
  }

  lemma ExitStep(t: Table, c: nat, t': Table, p: nat, f: Fact)
    requires Inv(t) && Next(t, DoExit(c), t') && p < |t.procs|
    ensures |t'.procs| == |t.procs|
    ensures True(t', p, f) <==> Begins(t, DoExit(c), p, f) || (True(t, p, f) && !Ends(t, DoExit(c), p, f))
  {
    hide Exit, PidsOk, ZombieFrom, ZombieChild;
    var cur := t.cpus[c].value;
    ExitEntries(t, c, cur);
    ExitCpus(t, c, cur);
    ZombieMeans(t, cur);
    assert Some(cur) in t.cpus;
  }

  /** fork() and the scheduler. */
  lemma ForkStep(t: Table, a: Action, t': Table, p: nat, f: Fact)
    requires Next(t, a, t') && p < |t.procs| && (a.AllocFails? || a.SetParent? || a.ForkDone? || a.Schedule?)
    ensures |t'.procs| == |t.procs|
    ensures True(t', p, f) <==> Begins(t, a, p, f) || (True(t, p, f) && !Ends(t, a, p, f))
  {
    hide Takes, Reaps, WaitsOn, Hits, ExitWakes, ZombieChild;
    NotThose(t, a, p);
  }

  /** yield(), sleep() and wakeup(). */
  lemma SwitchStep(t: Table, a: Action, t': Table, p: nat, f: Fact)
    requires CpusOk(t) && Next(t, a, t') && p < |t.procs| && (a.Yield? || a.SleepOn? || a.WakeupOn?)
    ensures |t'.procs| == |t.procs|
    ensures True(t', p, f) <==> Begins(t, a, p, f) || (True(t, p, f) && !Ends(t, a, p, f))
  {
    hide Takes, Reaps, WaitsOn, Hits, ExitWakes, ZombieChild;
    NotThose(t, a, p);
    if !a.WakeupOn? { assert Some(t.cpus[a.c].value) in t.cpus; }
  }

  lemma NotThose(t: Table, a: Action, p: nat)
    requires !(a.DoAlloc? || a.DoKill? || a.DoWait? || a.DoExit?)
    ensures !Takes(t, a, p) && !Reaps(t, a, p) && !WaitsOn(t, a, p) && !Hits(t, a, p)
    ensures forall ch :: !ExitWakes(t, a, ch)
  {
  }

  /** A fact holds of an entry after a step, if the step makes it true, or it held and the step does not end it. */
  lemma FactStep(t: Table, a: Action, t': Table, p: nat, f: Fact)
    requires Inv(t) && Next(t, a, t') && p < |t.procs|
    ensures |t'.procs| == |t.procs|
    ensures True(t', p, f) <==> Begins(t, a, p, f) || (True(t, p, f) && !Ends(t, a, p, f))
  {
    hide True, Begins, Ends, Next, CpusOk, PidsOk, ParentsOk, WaitersOk;
    match a
    case DoAlloc => AllocStep(t, t', p, f);
    case DoKill(pid) => KillStep(t, pid, t', p, f);
    case DoWait(c) => WaitStep(t, c, t', p, f);
    case DoExit(c) => ExitStep(t, c, t', p, f);
    case _ =>
      if a.Yield? || a.SleepOn? || a.WakeupOn? { SwitchStep(t, a, t', p, f); } else { ForkStep(t, a, t', p, f); }
  }

  // ------------------------------------------------------------- whole runs

  ghost predicate BegunAt(run: seq<Table>, acts: seq<Action>, p: nat, f: Fact, j: nat, i: nat)
    requires i <= |acts| < |run|
  {
    j < i && Begins(run[j], acts[j], p, f) && forall h: nat | j < h < i :: !Ends(run[h], acts[h], p, f)
  }

  /** The fact held at the start, or some step made it true; and no step has ended it since. */
  ghost predicate Since(run: seq<Table>, acts: seq<Action>, p: nat, f: Fact, i: nat)
    requires i <= |acts| < |run| && p < |run[0].procs|
  {
    || (True(run[0], p, f) && forall h: nat | h < i :: !Ends(run[h], acts[h], p, f))
    || exists j: nat :: BegunAt(run, acts, p, f, j, i)
  }

  lemma SinceStep(run: seq<Table>, acts: seq<Action>, p: nat, f: Fact, i: nat)
    requires i < |acts| < |run| && p < |run[0].procs|
    ensures Since(run, acts, p, f, i + 1) <==>
            Begins(run[i], acts[i], p, f) || (Since(run, acts, p, f, i) && !Ends(run[i], acts[i], p, f))
  {
    hide Begins, Ends, True;
    var i' := i + 1;
    if Begins(run[i], acts[i], p, f) { assert BegunAt(run, acts, p, f, i, i'); }
    if j: nat :| BegunAt(run, acts, p, f, j, i) {
      if !Ends(run[i], acts[i], p, f) { assert BegunAt(run, acts, p, f, j, i'); }
    }
    if j: nat :| BegunAt(run, acts, p, f, j, i') {
      if j < i { assert BegunAt(run, acts, p, f, j, i); }
    }
  }

  /**
    The history of an entry: at every moment of every run it is in use, unborn, has
    that pid or parent, is on that CPU, asleep on that channel, killed or a zombie, if
    and only if it was so at the start or a step made it so, and none has ended it since.
   */
  lemma {:induction false} HistoryIff(run: seq<Table>, acts: seq<Action>, p: nat, f: Fact, i: nat)
    requires IsRun(run, acts) && i <= |acts| && p < |run[0].procs|
    ensures |run[i].procs| == |run[0].procs|
    ensures True(run[i], p, f) <==> Since(run, acts, p, f, i)
  {
    hide Next, Since, Begins, Ends, True;
    if i == 0 {
      NothingYet(run, acts, p, f);
    } else {
      HistoryIff(run, acts, p, f, i - 1);
      RunInv(run, acts, i - 1);
      FactStep(run[i - 1], acts[i - 1], run[i - 1 + 1], p, f);
      SinceStep(run, acts, p, f, i - 1);
    }
  }

  lemma NothingYet(run: seq<Table>, acts: seq<Action>, p: nat, f: Fact)
    requires |acts| < |run| && p < |run[0].procs|
    ensures Since(run, acts, p, f, 0) <==> True(run[0], p, f)
  {
    hide True;
  }

  lemma Length(run: seq<Table>, acts: seq<Action>, i: nat)
    requires IsRun(run, acts) && i <= |acts|
    ensures |run[i].procs| == |run[0].procs|
  {
    HistoryIff(run, acts, run[0].init, InUse, i);
  }

  /** A process that kill() has just found is marked, and sleeps on no channel. */
  lemma KilledIsAwake(t: Table, pid: nat, t': Table, p: nat)
    requires Inv(t) && Next(t, DoKill(pid), t') && Hits(t, DoKill(pid), p)
    ensures |t'.procs| == |t.procs| && t'.procs[p].killed && !t'.procs[p].state.SLEEPING?
  {
    hide Next, Inv;
    FactStep(t, DoKill(pid), t', p, IsKilled);
    FactStep(t, DoKill(pid), t', p, AsleepOn(t'.procs[p].chan));
  }

  // ------------------------------------------------------------ who can do what

  ghost predicate Can(t: Table, a: Action) {
    exists t' :: Next(t, a, t')
  }

  /** Whoever has a CPU, whichever, can give it up, sleep, wait, and exit unless it is init. */
  lemma RunnerCan(t: Table, c: nat, n: nat)
    requires RunsOn(t, c)
    ensures Can(t, Yield(c)) && Can(t, SleepOn(c, n)) && Can(t, DoWait(c))
    ensures Can(t, DoExit(c)) <==> t.cpus[c].value != t.init
  {
    hide Orphan, Wakeup;
    var p := t.cpus[c].value;
    var off := t.cpus[c := None];
    assert Next(t, Yield(c), t.(procs := t.procs[p := t.procs[p].(state := RUNNABLE)], cpus := off));
    assert Next(t, SleepOn(c, n),
                t.(procs := t.procs[p := t.procs[p].(state := SLEEPING, chan := Other(n))], cpus := off));
    assert Next(t, DoWait(c), Wait(t, c, p));
    if p != t.init { assert Next(t, DoExit(c), Exit(t, c, p)); }
  }

  /** An idle CPU can take any runnable process, and no other. */
  lemma CanScheduleIff(t: Table, c: nat, p: nat)
    ensures Can(t, Schedule(c, p)) <==>
            c < |t.cpus| && t.cpus[c].None? && p < |t.procs| && t.procs[p].state.RUNNABLE?
  {
    if c < |t.cpus| && t.cpus[c].None? && p < |t.procs| && t.procs[p].state.RUNNABLE? {
      assert Next(t, Schedule(c, p),
                  t.(procs := t.procs[p := t.procs[p].(state := RUNNING)], cpus := t.cpus[c := Some(p)]));
    }
  }

  // -------------------------------------------------------------------- pids

  /** Whatever its state, no two entries have the same pid other than 0, and none has one that wait() returned. */
  ghost predicate PidsApart(t: Table) {
    && (forall p | 0 <= p < |t.procs| :: t.procs[p].pid < t.nextpid && t.procs[p].pid !in t.reaped)
    && (forall p, q | 0 <= p < q < |t.procs| && t.procs[p].pid == t.procs[q].pid :: t.procs[p].pid == 0)
    && (forall n | n in t.reaped :: 0 < n < t.nextpid)
  }

  lemma PidStep(t: Table, a: Action, t': Table, p: nat)
    requires Inv(t) && Next(t, a, t') && p < |t.procs|
    ensures |t'.procs| == |t.procs| && t'.procs[p].pid ==
            if Takes(t, a, p) then t.nextpid else if Reaps(t, a, p) then 0 else t.procs[p].pid
  {
    hide Next, Inv, Takes, Reaps;
    FactStep(t, a, t', p, InUse);
    FactStep(t, a, t', p, HasPid(t'.procs[p].pid));
    FactStep(t, a, t', p, HasPid(t.procs[p].pid));
    assert !(Takes(t, a, p) && Reaps(t, a, p)) by { NotBoth(t, a, p); }
  }

  lemma NotBoth(t: Table, a: Action, p: nat)
    ensures !(Takes(t, a, p) && Reaps(t, a, p))
  {
  }

  lemma CountersStep(t: Table, a: Action, t': Table)
    requires Next(t, a, t')
    ensures t'.nextpid == t.nextpid || (a.DoAlloc? && t'.nextpid == t.nextpid + 1)
    ensures a.DoAlloc? ==> (t'.nextpid == t.nextpid <==> forall k: nat | k < |t.procs| :: !Takes(t, a, k))
    ensures t'.reaped == t.reaped || exists k: nat :: Reaps(t, a, k) && t'.reaped == t.reaped + {t.procs[k].pid}
    ensures forall k: nat | Reaps(t, a, k) :: k < |t.procs| && t'.reaped == t.reaped + {t.procs[k].pid}
  {
    hide FirstZombie, FirstUnused, Wakeup, HasKids;
    if a.DoExit? { ExitCpus(t, a.c, t.cpus[a.c].value); }
    if a.DoWait? {
      forall k: nat | k < |t.procs|
        ensures Reaps(t, a, k) <==> FirstZombie(t.procs, t.cpus[a.c].value, 0) == k
      {
        WaitEvents(t, a.c, k);
      }
    }
    if a.DoAlloc? {
      var k := FirstUnused(t.procs, 0);
      assert k < |t.procs| ==> Takes(t, a, k);
    }
  }

  lemma PairApart(t: Table, a: Action, t': Table, p: nat, q: nat)
    requires Inv(t) && PidsApart(t) && Next(t, a, t') && p < q < |t.procs|
    ensures |t'.procs| == |t.procs| && (t'.procs[p].pid == t'.procs[q].pid ==> t'.procs[p].pid == 0)
  {
    hide Next, Inv, Reaps, Takes;
    PidStep(t, a, t', p);
    PidStep(t, a, t', q);
    OneEach(t, a, p, q);
  }

  lemma EntryApart(t: Table, a: Action, t': Table, p: nat)
    requires Inv(t) && PidsApart(t) && Next(t, a, t') && p < |t.procs|
    ensures |t'.procs| == |t.procs| && t'.procs[p].pid < t'.nextpid && t'.procs[p].pid !in t'.reaped
  {
    PidStep(t, a, t', p);
    CountersStep(t, a, t');
    hide Next, Reaps, Takes, CpusOk, ParentsOk, WaitersOk;
    if k: nat :| Reaps(t, a, k) && t'.reaped == t.reaped + {t.procs[k].pid} {
      ReapedIsLive(t, a, k, p);
    }
  }

  lemma ReapedIsLive(t: Table, a: Action, k: nat, p: nat)
    requires Inv(t) && Reaps(t, a, k)
    ensures k < |t.procs| && 0 < t.procs[k].pid < t.nextpid && !Takes(t, a, p) && (Reaps(t, a, p) ==> p == k)
  {
    hide CpusOk, ParentsOk, WaitersOk;
    if p != k { OneEach(t, a, p, k); }
  }

  lemma PidsApartStep(t: Table, a: Action, t': Table)
    requires Inv(t) && PidsApart(t) && Next(t, a, t')
    ensures PidsApart(t')
  {
    hide Inv;
    assert |t.procs| > 0 && t.nextpid > 0 by { SomeEntry(t); }
    forall p: nat | p < |t.procs| {
      EntryApart(t, a, t', p);
    }
    assert |t'.procs| == |t.procs| by { EntryApart(t, a, t', 0); }
    forall p: nat, q: nat | p < q < |t.procs| {
      PairApart(t, a, t', p, q);
    }
    CountersStep(t, a, t');
    hide Next, Reaps, Takes;
    if k: nat :| Reaps(t, a, k) && t'.reaped == t.reaped + {t.procs[k].pid} {
      ReapedIsLive(t, a, k, k);
    }
  }

  lemma SomeEntry(t: Table)
    requires Inv(t)
    ensures |t.procs| > 0 && t.nextpid > 0
  {
  }

  lemma OneEach(t: Table, a: Action, p: nat, q: nat)
    requires p != q
    ensures !(Takes(t, a, p) && Takes(t, a, q)) && !(Reaps(t, a, p) && Reaps(t, a, q))
  {
    hide ZombieChild;
  }

  /**
    Pids over whole runs: a pid that wait() has returned stands in no entry any more,
    used or not, so kill() does not find it; and kill() finds at most one entry.
   */
  lemma {:induction false} ReapedIsGone(run: seq<Table>, acts: seq<Action>, i: nat)
    requires IsRun(run, acts) && i <= |acts|
    ensures PidsApart(run[i])
  {
    hide Next, Inv, PidsApart;
    if i == 0 {
      assert PidsApart(run[0]) by { StartsApart(run[0]); }
    } else {
      ReapedIsGone(run, acts, i - 1);
      RunInv(run, acts, i - 1);
      PidsApartStep(run[i - 1], acts[i - 1], run[i - 1 + 1]);
    }
  }

  lemma StartsApart(t: Table)
    requires ProcProofs.Init(t)
    ensures PidsApart(t)
  {
  }

  // ------------------------------------------------------------ born killed

  /**
    A new process starts out killed if and only if a kill() found its table entry
    while the entry was unused, or while an earlier process was given up in it, with
    no wait() on the entry since.
   */
  lemma BornKilledIff(run: seq<Table>, acts: seq<Action>, i: nat, p: nat)
    requires IsRun(run, acts) && i < |acts| && Takes(run[i], acts[i], p)
    ensures p < |run[0].procs| && |run[i + 1].procs| == |run[0].procs|
    ensures run[i + 1].procs[p].state.EMBRYO? && run[i + 1].procs[p].pid == run[i].nextpid
    ensures run[i + 1].procs[p].killed <==> Since(run, acts, p, IsKilled, i)
  {
    hide Since, Inv, Next;
    Length(run, acts, i);
    Length(run, acts, i + 1);
    var t, a, t' := run[i], acts[i], run[i + 1];
    RunInv(run, acts, i);
    HistoryIff(run, acts, p, IsKilled, i);
    FactStep(t, a, t', p, IsKilled);
    FactStep(t, a, t', p, Unborn);
    FactStep(t, a, t', p, HasPid(t.nextpid));
  }

  /** What kill(0) finds, if anything, is an unused entry. */
  lemma KillZeroHitsUnused(t: Table, p: nat)
    requires Inv(t) && Hits(t, DoKill(0), p)
    ensures t.procs[p].state.UNUSED?
  {
  }

  /** With init alone, kill(0) marks a free entry, and the next process is killed before it has run. */
  lemma KillZeroKillsNext() returns (run: seq<Table>)
    ensures IsRun(run, [DoKill(0), DoAlloc])
    ensures run[2].procs == [Proc(RUNNABLE, 1, None, NoChan, false), Proc(EMBRYO, 2, None, NoChan, true)]
  {
    var init, free := Proc(RUNNABLE, 1, None, NoChan, false), Proc(UNUSED, 0, None, NoChan, false);
    var t := Table([init, free], [], 2, 0, {});
    assert WithPid(t.procs, 0, 0) == 1;
    assert FirstUnused(Kill(t, 0).procs, 0) == 1;
    run := [t, Kill(t, 0), AllocProc(Kill(t, 0))];
  }

  // ------------------------------------------------------- the life of a child

  /** The states of a run in which init forks, waits, and gets its child's pid. */
  function LifeState(i: nat): Table {
    var init, free := Proc(RUNNABLE, 1, None, NoChan, false), Proc(UNUSED, 0, None, NoChan, false);
    var up := init.(state := RUNNING);
    var asleep := init.(state := SLEEPING, chan := OnProc(0));
    var child := Proc(EMBRYO, 2, Some(0), NoChan, false);
    match i
    case 0 => Table([init, free], [None], 2, 0, {})
    case 1 => Table([up, free], [Some(0)], 2, 0, {})
    case 2 => Table([up, child.(parent := None)], [Some(0)], 3, 0, {})
    case 3 => Table([up, child], [Some(0)], 3, 0, {})
    case 4 => Table([up, child.(state := RUNNABLE)], [Some(0)], 3, 0, {})
    case 5 => Table([asleep, child.(state := RUNNABLE)], [None], 3, 0, {})
    case 6 => Table([asleep, child.(state := RUNNING)], [Some(1)], 3, 0, {})
    case 7 => Table([asleep.(state := RUNNABLE), child.(state := ZOMBIE)], [None], 3, 0, {})
    case 8 => Table([asleep.(state := RUNNING), child.(state := ZOMBIE)], [Some(0)], 3, 0, {})
    case _ => Table([asleep.(state := RUNNING), free], [Some(0)], 3, 0, {2})
  }

  const LIFE: seq<Action> :=
    [Schedule(0, 0), DoAlloc, SetParent(0, 1), ForkDone(1), DoWait(0), Schedule(0, 1), DoExit(0), Schedule(0, 0),
     DoWait(0)]

  lemma LifeScheduled(i: nat)
    requires i == 0 || i == 2 || i == 3 || i == 5 || i == 7
    ensures Next(LifeState(i), LIFE[i], LifeState(i + 1))
  {
  }

  lemma LifeAlloc()
    ensures Next(LifeState(1), LIFE[1], LifeState(2))
  {
    assert FirstUnused(LifeState(1).procs, 0) == 1;
  }

  lemma LifeWaits(i: nat)
    requires i == 4 || i == 8
    ensures Next(LifeState(i), LIFE[i], LifeState(i + 1))
  {
    var procs := LifeState(i).procs;
    assert IsChild(procs, 0, 1) && !IsChild(procs, 0, 0);
    assert FirstZombie(procs, 0, 1) == if i == 8 then 1 else 2;
    assert FirstZombie(procs, 0, 0) == FirstZombie(procs, 0, 1);
  }

  lemma LifeExits()
    ensures Next(LifeState(6), LIFE[6], LifeState(7))
  {
    var t := LifeState(6);
    var woken := Wakeup(t.procs, OnProc(0));
    assert woken == [t.procs[0].(state := RUNNABLE), t.procs[1]];
    assert !IsChild(woken, 1, 0) && !IsChild(woken, 1, 1);
    assert Orphan(woken, 1, 0, 1) == Orphan(woken, 1, 0, 2) == woken;
    assert Orphan(woken, 1, 0, 0) == woken;
  }

  /** init forks a child, sleeps in wait() for it, is woken by its exit, and returns its pid. */
  lemma LifeOfAChild() returns (run: seq<Table>)
    ensures IsRun(run, LIFE) && |run[5].procs| == 2 && run[5].procs[0].state.SLEEPING?
    ensures |run[9].procs| == 2 && run[9].procs[1] == Proc(UNUSED, 0, None, NoChan, false) && run[9].reaped == {2}
  {
    run := seq(10, i requires 0 <= i => LifeState(i));
    hide Next;
    forall i | 0 <= i < 9
      ensures Next(run[i], LIFE[i], run[i + 1])
    {
      if i == 1 {
        LifeAlloc();
      } else if i == 4 || i == 8 {
        LifeWaits(i);
      } else if i == 6 {
        LifeExits();
      } else {
        LifeScheduled(i);
      }
    }
  }
}
