/**
  The loops of proc.c over the process table, as they scan and update it in
  place; each is proved to perform the corresponding section of ProcSpec.
 */
module Proc {
  import opened Common
  import opened ProcSpec

  class PTable {
    const proc: array<Proc>
    var nextpid: nat
    const init: nat

    /** The table with the given CPUs and returned pids. */
    ghost function State(cpus: seq<Option<nat>>, reaped: set<nat>): Table
      reads this, proc
    {
      Table(proc[..], cpus, nextpid, init, reaped)
    }

    constructor (n: nat, init: nat)
      requires init < n
      ensures fresh(proc) && this.init == init && nextpid == 1 && proc.Length == n
      ensures forall i | 0 <= i < n :: proc[i] == Proc(UNUSED, 0, None, NoChan, false)
    {
      proc := new Proc[n](_ => Proc(UNUSED, 0, None, NoChan, false));
      nextpid := 1;
      this.init := init;
    }

    /** allocproc(), up to the release of ptable.lock. */
    method AllocProc() returns (k: nat, found: bool)
      modifies this`nextpid, proc
      ensures forall cpus, reaped :: State(cpus, reaped) == ProcSpec.AllocProc(old(State(cpus, reaped)))
      ensures found ==> k < proc.Length && old(proc[k].state.UNUSED?) && proc[k].state.EMBRYO?
      ensures found <==> exists j :: 0 <= j < proc.Length && old(proc[..])[j].state.UNUSED?
    {
      k := 0;
      while k < proc.Length && !proc[k].state.UNUSED?
        invariant k <= proc.Length && FirstUnused(proc[..], 0) == FirstUnused(proc[..], k)
      {
        k := k + 1;
      }
      found := k < proc.Length;
      if found {
        proc[k] := proc[k].(state := EMBRYO, pid := nextpid);
        nextpid := nextpid + 1;
      }
    }

    /** wakeup1(). */
    method Wakeup1(chan: Chan)
      modifies proc
      ensures proc[..] == Wakeup(old(proc[..]), chan)
    {
      var p := 0;
      while p < proc.Length
        invariant p <= proc.Length
        invariant forall j | 0 <= j < p :: proc[j] == Wakeup(old(proc[..]), chan)[j]
        invariant forall j | p <= j < proc.Length :: proc[j] == old(proc[..])[j]
      {
        if proc[p].state.SLEEPING? && proc[p].chan == chan {
          proc[p] := proc[p].(state := RUNNABLE);
        }
        p := p + 1;
      }
    }

    /** The loop of exit() that passes abandoned children to init. */
    method PassChildren(cur: nat)
      modifies proc
      ensures proc[..] == Orphan(old(proc[..]), cur, init, 0)
    {
      hide Wakeup;
      var p := 0;
      while p < proc.Length
        invariant p <= proc.Length && Orphan(old(proc[..]), cur, init, 0) == Orphan(proc[..], cur, init, p)
      {
        ghost var before := proc[..];
        if proc[p].parent == Some(cur) {
          proc[p] := proc[p].(parent := Some(init));
          assert proc[..] == before[p := before[p].(parent := Some(init))];
          if proc[p].state.ZOMBIE? {
            Wakeup1(OnProc(init));
          }
        }
        p := p + 1;
      }
    }

    /** exit(), from the acquire of ptable.lock to the call of sched(). */
    method Exit(cur: nat, ghost c: nat, ghost cpus: seq<Option<nat>>, ghost reaped: set<nat>)
      requires cur < proc.Length && c < |cpus|
      modifies proc
      ensures State(cpus[c := None], reaped) == ProcSpec.Exit(old(State(cpus, reaped)), c, cur)
    {
      hide Wakeup, Orphan;
      if proc[cur].parent.Some? {
        Wakeup1(OnProc(proc[cur].parent.value));
      }
      PassChildren(cur);
      proc[cur] := proc[cur].(state := ZOMBIE);
    }

    /** One scan of wait(): reap a zombie child, give up, or go to sleep. */
    method WaitOnce(cur: nat) returns (r: WaitResult, ghost k: nat)
      requires cur < proc.Length
      modifies proc
      ensures r == WaitOutcome(old(proc[..]), cur) && k == FirstZombie(old(proc[..]), cur, 0)
      ensures r.Reaped? ==> k < proc.Length
                            && proc[..] == old(proc[..])[k := old(proc[k]).(state := UNUSED, pid := 0, parent := None,
                                killed := false)]
      ensures r.NoChild? ==> proc[..] == old(proc[..])
      ensures r.MustSleep? ==> proc[..] == old(proc[..])[cur := old(proc[cur]).(state := SLEEPING, chan := OnProc(cur))]
    {
      hide HasKids;
      var havekids := false;
      var p := 0;
      k := FirstZombie(proc[..], cur, 0);
      while p < proc.Length
        invariant p <= proc.Length && proc[..] == old(proc[..])
        invariant k == FirstZombie(proc[..], cur, p)
        invariant havekids <==> KidsBelow(proc[..], cur, p)
      {
        KidsStep(proc[..], cur, p);
        if proc[p].parent == Some(cur) {
          havekids := true;
          if proc[p].state.ZOMBIE? {
            var pid := proc[p].pid;
            proc[p] := proc[p].(state := UNUSED, pid := 0, parent := None, killed := false);
            return Reaped(pid), k;
          }
        }
        p := p + 1;
      }
      KidsAll(proc[..], cur);
      if !havekids || proc[cur].killed {
        return NoChild, k;
      }
      proc[cur] := proc[cur].(state := SLEEPING, chan := OnProc(cur));
      return MustSleep, k;
    }

    /** kill(). */
    method Kill(pid: nat) returns (found: bool)
      modifies proc
      ensures forall cpus, reaped :: State(cpus, reaped) == ProcSpec.Kill(old(State(cpus, reaped)), pid)
      ensures found <==> WithPid(old(proc[..]), pid, 0) < proc.Length
    {
      var p := 0;
      while p < proc.Length
        invariant p <= proc.Length && proc[..] == old(proc[..])
        invariant WithPid(proc[..], pid, 0) == WithPid(proc[..], pid, p)
      {
        if proc[p].pid == pid {
          proc[p] := proc[p].(killed := true);
          if proc[p].state.SLEEPING? {
            proc[p] := proc[p].(state := RUNNABLE);
          }
          return true;
        }
        p := p + 1;
      }
      return false;
    }

    /** The scheduler's scan from entry p on: the next RUNNABLE process runs. */
    method PickFrom(p: nat, ghost c: nat, ghost cpus: seq<Option<nat>>, ghost reaped: set<nat>) returns (q: nat)
      requires p <= proc.Length && c < |cpus| && cpus[c].None?
      modifies proc
      ensures p <= q <= proc.Length
      ensures forall j | p <= j < q :: !old(proc[j].state.RUNNABLE?)
      ensures q < proc.Length ==> Next(old(State(cpus, reaped)), Schedule(c, q), State(cpus[c := Some(q)], reaped))
      ensures q == proc.Length ==> proc[..] == old(proc[..])
    {
      q := p;
      while q < proc.Length && !proc[q].state.RUNNABLE?
        invariant p <= q <= proc.Length
        invariant forall j | p <= j < q :: !proc[j].state.RUNNABLE?
      {
        q := q + 1;
      }
      if q < proc.Length {
        proc[q] := proc[q].(state := RUNNING);
      }
    }
  }

  ghost predicate KidsBelow(procs: seq<Proc>, cur: nat, p: nat)
    requires p <= |procs|
  {
    exists j :: 0 <= j < p && IsChild(procs, cur, j)
  }

  lemma KidsStep(procs: seq<Proc>, cur: nat, p: nat)
    requires p < |procs|
    ensures KidsBelow(procs, cur, p + 1) <==> KidsBelow(procs, cur, p) || IsChild(procs, cur, p)
  {
    if j :| 0 <= j < p && IsChild(procs, cur, j) {
      assert 0 <= j < p + 1 && IsChild(procs, cur, j);
    }
  }

  lemma KidsAll(procs: seq<Proc>, cur: nat)
    ensures KidsBelow(procs, cur, |procs|) <==> HasKids(procs, cur)
  {
  }
}
