/**
  The process table of proc.c as a value, and what each critical section under
  ptable.lock does to it.  A run is any interleaving of these sections.
 */
module ProcSpec {
  import opened Common

  datatype State = UNUSED | EMBRYO | SLEEPING | RUNNABLE | RUNNING | ZOMBIE

  /** Sleep channels: a process sleeps on its own entry in wait(). */
  datatype Chan = NoChan | OnProc(i: nat) | Other(n: nat)

  datatype Proc = Proc(state: State, pid: nat, parent: Option<nat>, chan: Chan, killed: bool)

  /** `reaped` are the pids that wait() has returned so far. */
  datatype Table = Table(procs: seq<Proc>, cpus: seq<Option<nat>>, nextpid: nat, init: nat, reaped: set<nat>)

  predicate IsChild(procs: seq<Proc>, i: nat, p: nat)
    requires p < |procs|
  {
    procs[p].parent == Some(i)
  }

  // ---------------------------------------------------------- the sections

  /** wakeup1(chan). */
  function Wakeup(procs: seq<Proc>, chan: Chan): (r: seq<Proc>)
    ensures |r| == |procs|
  {
    seq(|procs|, i requires 0 <= i < |procs| =>
      if procs[i].state.SLEEPING? && procs[i].chan == chan then procs[i].(state := RUNNABLE) else procs[i])
  }

  /** The index of the first entry from i on that is UNUSED; |procs| if none. */
  function FirstUnused(procs: seq<Proc>, i: nat): (k: nat)
    requires i <= |procs|
    ensures i <= k <= |procs| && (k < |procs| ==> procs[k].state.UNUSED?)
    ensures forall j | i <= j < k :: !procs[j].state.UNUSED?
    decreases |procs| - i
  {
    if i == |procs| || procs[i].state.UNUSED? then i else FirstUnused(procs, i + 1)
  }

  /** allocproc(), its first section. */
  function AllocProc(t: Table): Table {
    var k := FirstUnused(t.procs, 0);
    if k == |t.procs| then t
    else t.(procs := t.procs[k := t.procs[k].(state := EMBRYO, pid := t.nextpid)], nextpid := t.nextpid + 1)
  }

  /** The first zombie child of cur from i on; |procs| if none. */
  function FirstZombie(procs: seq<Proc>, cur: nat, i: nat): (k: nat)
    requires i <= |procs|
    ensures i <= k <= |procs| && (k < |procs| ==> IsChild(procs, cur, k) && procs[k].state.ZOMBIE?)
    ensures forall j | i <= j < k :: !(IsChild(procs, cur, j) && procs[j].state.ZOMBIE?)
    decreases |procs| - i
  {
    if i == |procs| || (IsChild(procs, cur, i) && procs[i].state.ZOMBIE?) then i else FirstZombie(procs, cur, i + 1)
  }

  predicate HasKids(procs: seq<Proc>, cur: nat) {
    exists j :: 0 <= j < |procs| && IsChild(procs, cur, j)
  }

  datatype WaitResult = Reaped(pid: nat) | NoChild | MustSleep

  function WaitOutcome(procs: seq<Proc>, cur: nat): WaitResult
    requires cur < |procs|
  {
    var k := FirstZombie(procs, cur, 0);
    if k < |procs| then Reaped(procs[k].pid)
    else if !HasKids(procs, cur) || procs[cur].killed then NoChild
    else MustSleep
  }

  /** One turn of the loop of wait() by cur, running on cpu c. */
  function Wait(t: Table, c: nat, cur: nat): Table
    requires cur < |t.procs| && c < |t.cpus|
  {
    var k := FirstZombie(t.procs, cur, 0);
    match WaitOutcome(t.procs, cur)
    case Reaped(pid) =>
      t.(procs := t.procs[k := t.procs[k].(state := UNUSED, pid := 0, parent := None, killed := false)],
         reaped := t.reaped + {pid})
    case NoChild => t
    case MustSleep =>
      t.(procs := t.procs[cur := t.procs[cur].(state := SLEEPING, chan := OnProc(cur))], cpus := t.cpus[c := None])
  }

  /** The loop of exit() that passes children to init, from entry i on. */
  function Orphan(procs: seq<Proc>, cur: nat, init: nat, i: nat): (r: seq<Proc>)
    requires i <= |procs|
    ensures |r| == |procs|
    decreases |procs| - i
  {
    if i == |procs| then procs
    else if !IsChild(procs, cur, i) then Orphan(procs, cur, init, i + 1)
    else
      var given := procs[i := procs[i].(parent := Some(init))];
      Orphan(if procs[i].state.ZOMBIE? then Wakeup(given, OnProc(init)) else given, cur, init, i + 1)
  }

  /** exit() from the acquire of ptable.lock to sched(). */
  function Exit(t: Table, c: nat, cur: nat): Table
    requires cur < |t.procs| && c < |t.cpus|
  {
    var woken := match t.procs[cur].parent case Some(p) => Wakeup(t.procs, OnProc(p)) case None => t.procs;
    var passed := Orphan(woken, cur, t.init, 0);
    t.(procs := passed[cur := passed[cur].(state := ZOMBIE)], cpus := t.cpus[c := None])
  }

  /** The entry that kill(pid) hits; |procs| if none. */
  function WithPid(procs: seq<Proc>, pid: nat, i: nat): (k: nat)
    requires i <= |procs|
    ensures i <= k <= |procs| && (k < |procs| ==> procs[k].pid == pid)
    ensures forall j | i <= j < k :: procs[j].pid != pid
    decreases |procs| - i
  {
    if i == |procs| || procs[i].pid == pid then i else WithPid(procs, pid, i + 1)
  }

  function Kill(t: Table, pid: nat): Table {
    var k := WithPid(t.procs, pid, 0);
    if k == |t.procs| then t
    else t.(procs := t.procs[k := t.procs[k].(killed := true,
              state := if t.procs[k].state.SLEEPING? then RUNNABLE else t.procs[k].state)])
  }

  datatype Action =
    | DoAlloc
    | AllocFails(np: nat)
    | SetParent(cur: nat, np: nat)
    | ForkDone(np: nat)
    | Schedule(c: nat, p: nat)
    | Yield(c: nat)
    | SleepOn(c: nat, n: nat)
    | WakeupOn(n: nat)
    | DoWait(c: nat)
    | DoExit(c: nat)
    | DoKill(pid: nat)

  predicate RunsOn(t: Table, c: nat) {
    c < |t.cpus| && t.cpus[c].Some? && t.cpus[c].value < |t.procs|
  }

  /** The sections, and when the code reaches them. */
  ghost predicate Next(t: Table, a: Action, t': Table) {
    match a
    case DoAlloc => t' == AllocProc(t)
    case AllocFails(np) =>
      && np < |t.procs| && t.procs[np].state.EMBRYO? && t.procs[np].parent.None? && np != t.init
      && t' == t.(procs := t.procs[np := t.procs[np].(state := UNUSED)])
    case SetParent(cur, np) =>
      && cur < |t.procs| && np < |t.procs| && t.procs[cur].state.RUNNING? && t.procs[np].state.EMBRYO?
      && t.procs[np].parent.None?
      && t' == t.(procs := t.procs[np := t.procs[np].(parent := Some(cur))])
    case ForkDone(np) =>
      && np < |t.procs| && t.procs[np].state.EMBRYO? && t.procs[np].parent.Some?
      && t' == t.(procs := t.procs[np := t.procs[np].(state := RUNNABLE)])
    case Schedule(c, p) =>
      && c < |t.cpus| && t.cpus[c].None? && p < |t.procs| && t.procs[p].state.RUNNABLE?
      && t' == t.(procs := t.procs[p := t.procs[p].(state := RUNNING)], cpus := t.cpus[c := Some(p)])
    case Yield(c) =>
      && RunsOn(t, c)
      && t' == t.(procs := t.procs[t.cpus[c].value := t.procs[t.cpus[c].value].(state := RUNNABLE)],
                  cpus := t.cpus[c := None])
    case SleepOn(c, n) =>
      && RunsOn(t, c)
      && t' == t.(procs := t.procs[t.cpus[c].value := t.procs[t.cpus[c].value].(state := SLEEPING, chan := Other(n))],
                  cpus := t.cpus[c := None])
    case WakeupOn(n) => t' == t.(procs := Wakeup(t.procs, Other(n)))
    case DoWait(c) => RunsOn(t, c) && t' == Wait(t, c, t.cpus[c].value)
    case DoExit(c) => RunsOn(t, c) && t.cpus[c].value != t.init && t' == Exit(t, c, t.cpus[c].value)
    case DoKill(pid) => t' == Kill(t, pid)
  }

  // ------------------------------------------------------------- invariant

  predicate Live(s: State) {
    !s.UNUSED?
  }

  /** States in which a process can be somebody's parent. */
  predicate Able(s: State) {
    s.RUNNABLE? || s.RUNNING? || s.SLEEPING?
  }

  /** A process is RUNNING exactly when exactly one CPU points to it. */
  ghost predicate CpusOk(t: Table) {
    && (forall p | 0 <= p < |t.procs| :: t.procs[p].state.RUNNING? <==> Some(p) in t.cpus)
    && (forall c | 0 <= c < |t.cpus| && t.cpus[c].Some? :: t.cpus[c].value < |t.procs|)
    && (forall c, d | 0 <= c < d < |t.cpus| && t.cpus[c].Some? :: t.cpus[c] != t.cpus[d])
  }

  ghost predicate PidsOk(t: Table) {
    && (forall p | 0 <= p < |t.procs| && Live(t.procs[p].state) ::
          0 < t.procs[p].pid < t.nextpid && t.procs[p].pid !in t.reaped)
    && (forall p, q | 0 <= p < q < |t.procs| && Live(t.procs[p].state) && Live(t.procs[q].state) ::
          t.procs[p].pid != t.procs[q].pid)
    && (forall pid | pid in t.reaped :: 0 < pid < t.nextpid) && t.nextpid > 0
  }

  ghost predicate ParentsOk(t: Table) {
    && t.init < |t.procs| && Able(t.procs[t.init].state) && t.procs[t.init].parent.None?
    && (forall p | 0 <= p < |t.procs| && t.procs[p].parent.Some? ::
          && Live(t.procs[p].state) && t.procs[p].parent.value < |t.procs|
          && Able(t.procs[t.procs[p].parent.value].state) && t.procs[p].parent.value != p)
  }

  predicate InWait(procs: seq<Proc>, p: nat)
    requires p < |procs|
  {
    procs[p].state.SLEEPING? && procs[p].chan == OnProc(p)
  }

  /** Who sleeps in wait() has a child, no zombie child, and is not killed. */
  ghost predicate WaitersOk(t: Table) {
    && (forall p: nat, q: nat | p < |t.procs| && q < |t.procs| && InWait(t.procs, p) ::
          IsChild(t.procs, p, q) ==> !t.procs[q].state.ZOMBIE?)
    && (forall p: nat | p < |t.procs| && InWait(t.procs, p) :: HasKids(t.procs, p) && !t.procs[p].killed)
    && (forall p: nat | p < |t.procs| && t.procs[p].state.SLEEPING? && t.procs[p].chan.OnProc? ::
        t.procs[p].chan.i == p)
  }

  ghost predicate Inv(t: Table) {
    CpusOk(t) && PidsOk(t) && ParentsOk(t) && WaitersOk(t)
  }
}
