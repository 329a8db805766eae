/**
  What the holders of references to cached inodes can do, and that none of them waits
  for ever: a run can always go on until a given reference has been put.
 */
module InodeSteps {
  import opened Common
  import opened InodeCache

  ghost predicate Can(c: ICache, a: Action) {
    exists c' :: Next(c, a, c')
  }

  lemma InRange(c: ICache, t: nat)
    requires Inv(c) && t in c.tokens
    ensures At(c, t, c.tokens[t].stage) && Slot(c, t).inum < |c.disk| && Slot(c, t).ref > 0
  {
    RefOfHolder(c, t);
  }

  /** A plain reference can be copied, and locked or put when nobody has the lock; ilock may find no type. */
  lemma UserCan(c: ICache, t: nat, t': nat)
    requires Inv(c) && At(c, t, Using)
    ensures Can(c, Lock(t)) <==> Slot(c, t).lock == None && !LockPanics(c, t)
    ensures Can(c, PutLock(t)) <==> Slot(c, t).lock == None
    ensures Can(c, Dup(t, t')) <==> t' !in c.tokens && t' !in c.marks
  {
    InRange(c, t);
    hide Inv;
    if Slot(c, t).lock == None {
      assert Next(c, PutLock(t), Stepped(c, t, Putting, Slot(c, t).(lock := Some(t))));
      if !LockPanics(c, t) {
        assert Next(c, Lock(t), Stepped(c, t, Held, Loaded(c, Slot(c, t)).(lock := Some(t))));
      }
    }
    if t' !in c.tokens && t' !in c.marks { assert Next(c, Dup(t, t'), Duped(c, t, t')); }
  }

  /** Who has the lock can change the link count, copy the reference, and unlock. */
  lemma HolderCan(c: ICache, t: nat, t': nat, n: nat)
    requires Inv(c) && At(c, t, Held)
    ensures Can(c, SetLinks(t, n)) && Can(c, Unlock(t))
    ensures Can(c, Dup(t, t')) <==> t' !in c.tokens && t' !in c.marks
  {
    InRange(c, t);
    hide Inv;
    var i := Slot(c, t).inum;
    assert Next(c, SetLinks(t, n),
                Stepped(c, t, Held, Slot(c, t).(nlink := n)).(disk := c.disk[i := c.disk[i].(nlink := n)]));
    assert Next(c, Unlock(t), Stepped(c, t, Using, Slot(c, t).(lock := None)));
    if t' !in c.tokens && t' !in c.marks { assert Next(c, Dup(t, t'), Duped(c, t, t')); }
  }

  /** iget fails exactly if the inode is not in the cache and every entry is in use. */
  lemma CanGetIff(c: ICache, t: nat, inum: nat)
    requires t !in c.tokens && t !in c.marks && inum < |c.disk|
    ensures (exists k: nat :: Can(c, Get(t, inum, k))) <==>
            exists k: nat :: k < |c.slots| && (c.slots[k].ref == 0 || c.slots[k].inum == inum)
  {
    if k: nat :| Can(c, Get(t, inum, k)) {
      assert Gets(c.slots, inum, k);
    }
    if j: nat :| j < |c.slots| && (c.slots[j].ref == 0 || c.slots[j].inum == inum) {
      if k: nat :| k < |c.slots| && c.slots[k].ref > 0 && c.slots[k].inum == inum {
        assert Next(c, Get(t, inum, k), Got(c, t, inum, k));
        assert Can(c, Get(t, inum, k));
      } else {
        assert Next(c, Get(t, inum, j), Got(c, t, inum, j));
        assert Can(c, Get(t, inum, j));
      }
    }
  }

  /** ialloc can give any free inode any type. */
  lemma CanMarkIff(c: ICache, t: nat, inum: nat, typ: nat)
    requires t !in c.tokens && t !in c.marks
    ensures Can(c, Mark(t, inum, typ)) <==> inum < |c.disk| && c.disk[inum].typ == 0 && typ != 0
  {
    if inum < |c.disk| && c.disk[inum].typ == 0 && typ != 0 {
      assert Next(c, Mark(t, inum, typ),
                  c.(marks := c.marks[t := inum], disk := c.disk[inum := DInode(typ, 0)]));
    }
  }

  // --------------------------------------------------------------- progress

  /** On the way out: unlock, or take the next stage of iput. */
  function Outward(t: nat, stage: Stage): Action {
    match stage
    case Using => PutLock(t)
    case Held => Unlock(t)
    case Putting => PutDecide(t)
    case Freeing => FreeOnDisk(t)
    case Freed => Invalidate(t)
    case Dropping => Drop(t)
  }

  function StageLeft(stage: Stage): nat {
    match stage
    case Held => 7
    case Using => 6
    case Putting => 5
    case Freeing => 4
    case Freed => 3
    case Dropping => 2
  }

  /** Whom to run so that t goes: whoever has its lock, else its own holder. */
  function Mover(c: ICache, t: nat): nat
    requires t in c.tokens && c.tokens[t].slot < |c.slots|
  {
    if Slot(c, t).lock.Some? then Slot(c, t).lock.value else t
  }

  /** Bounds the steps until t is gone. */
  function Left(c: ICache, t: nat): nat
    requires t in c.tokens && c.tokens[t].slot < |c.slots|
  {
    var u := Mover(c, t);
    StageLeft(c.tokens[t].stage) + if u != t && u in c.tokens then StageLeft(c.tokens[u].stage) else 0
  }

  lemma CanMoveOut(c: ICache, t: nat) returns (c': ICache)
    requires Inv(c) && t in c.tokens && (c.tokens[t].stage.Using? ==> Slot(c, t).lock == None)
    ensures Next(c, Outward(t, c.tokens[t].stage), c')
  {
    InRange(c, t);
    hide Inv;
    var e := Slot(c, t);
    match c.tokens[t].stage {
      case Using => c' := Stepped(c, t, Putting, e.(lock := Some(t)));
      case Held => c' := Stepped(c, t, Using, e.(lock := None));
      case Putting =>
        c' := if LastPut(e) then Stepped(c, t, Freeing, e) else Stepped(c, t, Dropping, e.(lock := None));
      case Freeing => c' := Stepped(c, t, Freed, e.(typ := 0)).(disk := c.disk[e.inum := DInode(0, 0)]);
      case Freed => c' := Stepped(c, t, Dropping, e.(valid := false, lock := None));
      case Dropping => c' := c.(slots := c.slots[c.tokens[t].slot := e.(ref := e.ref - 1)], tokens := c.tokens - {t});
    }
  }

  lemma LockOwner(c: ICache, t: nat)
    requires Inv(c) && t in c.tokens
    ensures c.tokens[t].slot < |c.slots| && Mover(c, t) in c.tokens
    ensures c.tokens[Mover(c, t)].slot == c.tokens[t].slot
    ensures Mover(c, t) != t || c.tokens[t].stage.Using? ==>
        Slot(c, t).lock.None? || Locking(c.tokens[Mover(c, t)].stage)
    ensures Locking(c.tokens[t].stage) ==> Mover(c, t) == t
  {
    RefOfHolder(c, t);
    assert TokenOk(c, t) && EntryOk(c, c.tokens[t].slot);
  }

  /** What such a step does to references and to the lock. */
  lemma MovedOut(c: ICache, u: nat, c': ICache)
    requires Inv(c) && u in c.tokens && c.tokens[u].slot < |c.slots| && Next(c, Outward(u, c.tokens[u].stage), c')
    ensures |c'.slots| == |c.slots| && (c.tokens[u].stage.Dropping? <==> u !in c'.tokens)
    ensures forall w | w != u && w in c.tokens :: w in c'.tokens && c'.tokens[w] == c.tokens[w]
    ensures u in c'.tokens ==>
        && c'.tokens[u].slot == c.tokens[u].slot && StageLeft(c'.tokens[u].stage) < StageLeft(c.tokens[u].stage)
        && Slot(c', u).lock == if Locking(c'.tokens[u].stage) then Some(u) else None
  {
    assert TokenOk(c, u);
    hide Inv;
  }

  lemma MoverMoves(c: ICache, t: nat) returns (a: Action, c': ICache)
    requires Inv(c) && t in c.tokens
    ensures Next(c, a, c') && Inv(c') && c.tokens[t].slot < |c.slots|
    ensures t in c'.tokens ==> c'.tokens[t].slot < |c'.slots| && Left(c', t) < Left(c, t)
  {
    LockOwner(c, t);
    var u := Mover(c, t);
    a := Outward(u, c.tokens[u].stage);
    c' := CanMoveOut(c, u);
    NextKeeps(c, a, c');
    MovedOut(c, u, c');
    hide Inv, Next, Outward, StageLeft;
  }

  lemma {:induction false} Driven(run: seq<ICache>, acts: seq<Action>, t: nat)
    returns (run': seq<ICache>, acts': seq<Action>)
    requires IsRun(run, acts) && Inv(run[|acts|])
    requires t in run[|acts|].tokens ==> run[|acts|].tokens[t].slot < |run[|acts|].slots|
    ensures IsRun(run', acts') && run <= run' && acts <= acts' && t !in run'[|acts'|].tokens
    decreases if t in run[|acts|].tokens then Left(run[|acts|], t) + 1 else 0
  {
    hide Inv, Next, Init, Left;
    run', acts' := run, acts;
    if t in run[|acts|].tokens {
      var a, c := MoverMoves(run[|acts|], t);
      run', acts' := Driven(run + [c], acts + [a], t);
    }
  }

  /** No deadlock: however far a run has gone, it can go on until the reference t has been put. */
  lemma CanBePut(run: seq<ICache>, acts: seq<Action>, t: nat) returns (run': seq<ICache>, acts': seq<Action>)
    requires IsRun(run, acts)
    ensures IsRun(run', acts') && run <= run' && acts <= acts' && t !in run'[|acts'|].tokens
  {
    RunInv(run, acts, |acts|);
    if t in run[|acts|].tokens { LockOwner(run[|acts|], t); }
    run', acts' := Driven(run, acts, t);
  }
}
