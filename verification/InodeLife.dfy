/**
  What the references of InodeCache are worth: when ilock can panic for lack of
  a type, when an inode is freed under somebody's hands, and when an unlinked
  inode is never freed.
 */
module InodeLife {
  import opened Common
  import opened InodeCache

  // ------------------------------------------------- which igets are safe

  /** Stages in which a holder may still lock the inode, or is about to decide its fate. */
  predicate Active(c: ICache, t: nat) {
    At(c, t, Using) || At(c, t, Held) || At(c, t, Putting)
  }

  /** The inode has a type, and no iput is past its decision to free it. */
  ghost predicate SafeGet(c: ICache, inum: nat) {
    && inum < |c.disk| && c.disk[inum].typ != 0
    && forall u | u in c.tokens && At(c, u, Freeing) :: Slot(c, u).inum != inum
  }

  /** The same, of the inode that t points to, for iputs other than its own. */
  ghost predicate TokenSafe(c: ICache, t: nat) {
    && t in c.tokens && c.tokens[t].slot < |c.slots|
    && Slot(c, t).inum < |c.disk| && c.disk[Slot(c, t).inum].typ != 0
    && forall u | u in c.tokens && u != t && At(c, u, Freeing) :: c.tokens[u].slot != c.tokens[t].slot
  }

  /** A linked inode is always safe to get. */
  lemma LinkedIsSafe(c: ICache, inum: nat)
    requires Inv(c) && inum < |c.disk| && c.disk[inum].nlink > 0
    ensures SafeGet(c, inum)
  {
    forall u | u in c.tokens && At(c, u, Freeing)
      ensures Slot(c, u).inum != inum
    {
      FreeingIsUnlinked(c, u);
    }
  }

  lemma FreeingIsUnlinked(c: ICache, u: nat)
    requires Inv(c) && At(c, u, Freeing)
    ensures Slot(c, u).inum < |c.disk| && c.disk[Slot(c, u).inum].nlink == 0 && c.disk[Slot(c, u).inum].typ != 0
  {
    RefOfHolder(c, u);
    assert TokenOk(c, u) && EntryOk(c, c.tokens[u].slot);
  }

  lemma SameInode(c: ICache, t: nat, u: nat)
    requires Inv(c) && t in c.tokens && u in c.tokens
    ensures c.tokens[t].slot < |c.slots| && c.tokens[u].slot < |c.slots|
    ensures Slot(c, t).inum == Slot(c, u).inum <==> c.tokens[t].slot == c.tokens[u].slot
  {
    RefOfHolder(c, t);
    RefOfHolder(c, u);
  }

  lemma GetGivesSafe(c: ICache, t: nat, inum: nat, k: nat, c': ICache)
    requires Inv(c) && Next(c, Get(t, inum, k), c')
    ensures TokenSafe(c', t) <==> SafeGet(c, inum)
  {
    NextKeeps(c, Get(t, inum, k), c');
    forall u | u in c.tokens
      ensures At(c', u, Freeing) <==> At(c, u, Freeing)
      ensures c'.tokens[u].slot == k <==> Slot(c, u).inum == inum
    {
      RefOfHolder(c, u);
      SameInode(c', t, u);
    }
    if !SafeGet(c, inum) && c.disk[inum].typ != 0 {
      var u :| u in c.tokens && At(c, u, Freeing) && Slot(c, u).inum == inum;
      assert At(c', u, Freeing);
    }
  }

  /** Safety lasts as long as the reference is in use. */
  lemma SafeStays(c: ICache, a: Action, c': ICache, t: nat)
    requires Inv(c) && Next(c, a, c') && Active(c, t) && Active(c', t) && TokenSafe(c, t)
    ensures TokenSafe(c', t)
  {
    hide Inv, EntryOk, TokenOk;
    NextKeeps(c, a, c');
    RefOfHolder(c, t);
    SlotStays(c, a, c', t);
    TypeStays(c, a, c', t);
    forall u | u in c'.tokens && u != t && At(c', u, Freeing)
      ensures c'.tokens[u].slot != c'.tokens[t].slot
    {
      FreeingBegins(c, a, c', t, u);
    }
  }

  lemma SlotStays(c: ICache, a: Action, c': ICache, t: nat)
    requires Inv(c) && Next(c, a, c') && t in c.tokens && t in c'.tokens
    ensures c'.tokens[t].slot == c.tokens[t].slot < |c.slots| == |c'.slots| && Slot(c', t).inum == Slot(c, t).inum
    ensures |c'.disk| == |c.disk|
  {
    RefOfHolder(c, t);
  }

  lemma TypeStays(c: ICache, a: Action, c': ICache, t: nat)
    requires Inv(c) && Next(c, a, c') && Active(c, t) && Active(c', t) && TokenSafe(c, t)
    ensures Slot(c, t).inum < |c'.disk| && c'.disk[Slot(c, t).inum].typ != 0
  {
    hide Inv;
    if a.FreeOnDisk? { SameInode(c, t, a.t); }
  }

  lemma FreeingBegins(c: ICache, a: Action, c': ICache, t: nat, u: nat)
    requires Inv(c) && Next(c, a, c') && Active(c, t) && t in c'.tokens && TokenSafe(c, t)
    requires u in c'.tokens && u != t && At(c', u, Freeing)
    ensures c'.tokens[u].slot != c.tokens[t].slot
  {
    hide Inv;
    if a == PutDecide(u) && c.tokens[u].slot == c.tokens[t].slot {
      if LastPut(Slot(c, u)) { OnlyHolder(c, u, t); }
    }
  }

  ghost predicate IsPath(path: seq<ICache>, acts: seq<Action>) {
    |path| == |acts| + 1 && forall i | 0 <= i < |acts| :: Next(path[i], acts[i], path[i + 1])
  }

  /** However the system goes on from c, ilock by t does not panic while t keeps its reference. */
  ghost predicate NeverPanics(c: ICache, t: nat) {
    forall path: seq<ICache>, acts: seq<Action> | IsPath(path, acts) && path[0] == c && Keeps(path, t) ::
      !LockPanics(path[|acts|], t)
  }

  ghost predicate Keeps(path: seq<ICache>, t: nat) {
    forall i | 0 <= i < |path| :: t in path[i].tokens
  }

  lemma {:induction false} PathInv(path: seq<ICache>, acts: seq<Action>, i: nat)
    requires IsPath(path, acts) && i <= |acts| && Inv(path[0])
    ensures Inv(path[i])
  {
    hide Inv, Next;
    if i > 0 {
      PathInv(path, acts, i - 1);
      NextKeeps(path[i - 1], acts[i - 1], path[i - 1 + 1]);
    }
  }

  /** Once past its decision, an iput does not come back. */
  lemma NoWayBack(c: ICache, a: Action, c': ICache, t: nat)
    requires Inv(c) && Next(c, a, c') && t in c.tokens && !Active(c, t)
    ensures !Active(c', t)
  {
    RefOfHolder(c, t);
  }

  lemma {:induction false} SafeAlong(path: seq<ICache>, acts: seq<Action>, t: nat, i: nat)
    requires IsPath(path, acts) && Keeps(path, t) && i <= |acts| && Inv(path[0]) && TokenSafe(path[0], t)
    ensures Active(path[i], t) ==> TokenSafe(path[i], t)
  {
    hide Inv, Next, TokenSafe;
    if i > 0 {
      var j := i - 1;
      PathInv(path, acts, j);
      SafeAlong(path, acts, t, j);
      assert Next(path[j], acts[j], path[j + 1]);
      if Active(path[j], t) {
        if Active(path[i], t) { SafeStays(path[j], acts[j], path[i], t); }
      } else {
        NoWayBack(path[j], acts[j], path[i], t);
      }
    }
  }

  lemma SafeNeverPanics(c: ICache, t: nat)
    requires Inv(c) && TokenSafe(c, t)
    ensures NeverPanics(c, t)
  {
    hide Inv, Next;
    forall path: seq<ICache>, acts: seq<Action> | IsPath(path, acts) && path[0] == c && Keeps(path, t)
      ensures !LockPanics(path[|acts|], t)
    {
      SafeAlong(path, acts, t, |acts|);
    }
  }

  /** Without a type, or with its freeing under way, some continuation of at most two steps panics. */
  lemma UnsafePanics(c: ICache, t: nat)
    requires Inv(c) && At(c, t, Using) && !TokenSafe(c, t)
    ensures !NeverPanics(c, t)
  {
    var e := Slot(c, t);
    RefOfHolder(c, t);
    if c.disk[e.inum].typ == 0 {
      TypelessPanics(c, t);
    } else {
      var u :| u in c.tokens && u != t && At(c, u, Freeing) && c.tokens[u].slot == c.tokens[t].slot;
      FreeingPanics(c, t, u);
    }
  }

  lemma TypelessPanics(c: ICache, t: nat)
    requires Inv(c) && At(c, t, Using) && Slot(c, t).inum < |c.disk| && c.disk[Slot(c, t).inum].typ == 0
    ensures !NeverPanics(c, t)
  {
    var k, e := c.tokens[t].slot, Slot(c, t);
    RefOfHolder(c, t);
    assert EntryOk(c, k);
    if e.lock == None {
      assert LockPanics(c, t);
      OnePath(c, t);
    } else {
      var u := e.lock.value;
      assert TokenOk(c, u);
      if c.tokens[u].stage.Freed? {
        InvalidatePanics(c, t, u);
      } else {
        var c1 := Stepped(c, u, Dropping, e.(lock := None));
        assert Next(c, PutDecide(u), c1);
        assert LockPanics(c1, t);
        TwoPath(c, PutDecide(u), c1, t);
      }
    }
  }

  lemma InvalidatePanics(c: ICache, t: nat, u: nat)
    requires At(c, t, Using) && At(c, u, Freed) && c.tokens[u].slot == c.tokens[t].slot
    requires Slot(c, t).inum < |c.disk| && c.disk[Slot(c, t).inum].typ == 0
    ensures !NeverPanics(c, t)
  {
    var c1 := Stepped(c, u, Dropping, Slot(c, u).(valid := false, lock := None));
    assert Next(c, Invalidate(u), c1);
    assert LockPanics(c1, t);
    TwoPath(c, Invalidate(u), c1, t);
  }

  lemma FreeingPanics(c: ICache, t: nat, u: nat)
    requires At(c, t, Using) && u != t && At(c, u, Freeing) && c.tokens[u].slot == c.tokens[t].slot
    requires Slot(c, t).inum < |c.disk|
    ensures !NeverPanics(c, t)
  {
    var c1 := Stepped(c, u, Freed, Slot(c, u).(typ := 0)).(disk := c.disk[Slot(c, u).inum := DInode(0, 0)]);
    assert Next(c, FreeOnDisk(u), c1);
    InvalidatePanics(c1, t, u);
    Extends(c, FreeOnDisk(u), c1, t);
  }

  lemma OnePath(c: ICache, t: nat)
    requires LockPanics(c, t)
    ensures !NeverPanics(c, t)
  {
    var acts: seq<Action> := [];
    assert IsPath([c], acts) && Keeps([c], t) && [c][|acts|] == c;
  }

  lemma TwoPath(c: ICache, a: Action, c1: ICache, t: nat)
    requires Next(c, a, c1) && LockPanics(c1, t) && t in c.tokens
    ensures !NeverPanics(c, t)
  {
    hide Next;
    OnePath(c1, t);
    Extends(c, a, c1, t);
  }

  lemma Extends(c: ICache, a: Action, c1: ICache, t: nat)
    requires Next(c, a, c1) && !NeverPanics(c1, t) && t in c.tokens
    ensures !NeverPanics(c, t)
  {
    hide Next, LockPanics;
    var path: seq<ICache>, acts: seq<Action> :|
      IsPath(path, acts) && path[0] == c1 && Keeps(path, t) && LockPanics(path[|acts|], t);
    var path', acts' := [c] + path, [a] + acts;
    forall i | 0 <= i < |acts'|
      ensures Next(path'[i], acts'[i], path'[i + 1])
    {
      if i > 0 { assert Next(path[i - 1], acts[i - 1], path[i - 1 + 1]); }
    }
    assert IsPath(path', acts') && Keeps(path', t) && path'[|acts'|] == path[|acts|];
  }

  /**
    "ilock: no type": it can never happen through the reference that this iget
    gives, if and only if at the iget the inode has a type and no iput is past
    its decision to free it.
   */
  lemma GetSafeIff(c: ICache, t: nat, inum: nat, k: nat, c': ICache)
    requires Inv(c) && Next(c, Get(t, inum, k), c')
    ensures NeverPanics(c', t) <==> SafeGet(c, inum)
  {
    hide NeverPanics, TokenSafe, SafeGet;
    NextKeeps(c, Get(t, inum, k), c');
    GetGivesSafe(c, t, inum, k, c');
    if SafeGet(c, inum) { SafeNeverPanics(c', t); } else { UnsafePanics(c', t); }
  }

  // --------------------------------------------------- runs of safe igets

  ghost predicate SafeGets(run: seq<ICache>, acts: seq<Action>) {
    |run| == |acts| + 1 && forall i | 0 <= i < |acts| && acts[i].Get? :: SafeGet(run[i], acts[i].inum)
  }

  ghost predicate AllSafe(c: ICache) {
    forall t | t in c.tokens && Active(c, t) :: TokenSafe(c, t)
  }

  lemma NewIsSafe(c: ICache, a: Action, c': ICache, t: nat)
    requires Inv(c) && AllSafe(c) && Next(c, a, c') && (a.Get? ==> SafeGet(c, a.inum))
    requires t !in c.tokens && t in c'.tokens
    ensures TokenSafe(c', t)
  {
    hide Inv;
    match a
    case Get(_, inum, k) => GetGivesSafe(c, t, inum, k, c');
    case Dup(v, _) => assert TokenSafe(c, v);
    case _ =>
  }

  lemma AllSafeStays(c: ICache, a: Action, c': ICache)
    requires Inv(c) && AllSafe(c) && Next(c, a, c') && (a.Get? ==> SafeGet(c, a.inum))
    ensures AllSafe(c')
  {
    hide Inv, TokenSafe, Next;
    forall t | t in c'.tokens && Active(c', t)
      ensures TokenSafe(c', t)
    {
      if t !in c.tokens {
        NewIsSafe(c, a, c', t);
      } else if Active(c, t) {
        SafeStays(c, a, c', t);
      } else {
        NoWayBack(c, a, c', t);
      }
    }
  }

  lemma {:induction false} SafeRun(run: seq<ICache>, acts: seq<Action>, i: nat)
    requires IsRun(run, acts) && SafeGets(run, acts) && i <= |acts|
    ensures AllSafe(run[i])
  {
    hide Inv, Next, SafeGet, TokenSafe;
    if i > 0 {
      SafeRun(run, acts, i - 1);
      RunInv(run, acts, i - 1);
      AllSafeStays(run[i - 1], acts[i - 1], run[i - 1 + 1]);
    }
  }

  /**
    An inode that ialloc has given a type and not yet got: nobody is using it, and
    no other ialloc is on its way to it.
   */
  ghost predicate Reserved(c: ICache, t: nat)
    requires t in c.marks
  {
    var inum := c.marks[t];
    && inum < |c.disk| && c.disk[inum].typ != 0 && c.disk[inum].nlink == 0
    && (forall u | u in c.tokens && (Active(c, u) || At(c, u, Freeing)) :: Slot(c, u).inum != inum)
    && (forall t' | t' in c.marks && t' != t :: c.marks[t'] != inum)
  }

  ghost predicate AllReserved(c: ICache) {
    forall t | t in c.marks :: Reserved(c, t)
  }

  /** An iget outside ialloc is of a linked inode. */
  ghost predicate LinkedGet(c: ICache, a: Action) {
    a.Get? && a.t !in c.marks && a.inum < |c.disk| ==> c.disk[a.inum].nlink > 0
  }

  lemma LinkedOrReserved(c: ICache, a: Action, c': ICache)
    requires Inv(c) && AllReserved(c) && Next(c, a, c') && LinkedGet(c, a) && a.Get?
    ensures SafeGet(c, a.inum)
  {
    hide Inv;
    if a.t in c.marks {
      assert Reserved(c, a.t);
    } else {
      LinkedIsSafe(c, a.inum);
    }
  }

  /** The store of ialloc goes to an inode without a type, so to nobody's. */
  lemma MarkReserves(c: ICache, t: nat, inum: nat, typ: nat, c': ICache)
    requires Inv(c) && AllSafe(c) && AllReserved(c) && Next(c, Mark(t, inum, typ), c')
    ensures Reserved(c', t)
  {
    hide Inv;
    forall u | u in c'.tokens && (Active(c', u) || At(c', u, Freeing))
      ensures Slot(c', u).inum != inum
    {
      if Active(c, u) { assert TokenSafe(c, u); } else { FreeingIsUnlinked(c, u); }
    }
    forall t' | t' in c'.marks && t' != t
      ensures c'.marks[t'] != inum
    {
      assert Reserved(c, t');
    }
  }

  lemma ReservedStays(c: ICache, a: Action, c': ICache, t: nat)
    requires Inv(c) && AllReserved(c) && Next(c, a, c') && LinkedGet(c, a) && t in c.marks && t in c'.marks
    ensures Reserved(c', t)
  {
    hide Inv;
    NextKeeps(c, a, c');
    assert Reserved(c, t);
    forall u | u in c'.tokens && (Active(c', u) || At(c', u, Freeing))
      ensures Slot(c', u).inum != c.marks[t]
    {
      ReservedFromAll(c, a, c', t, u);
    }
    DiskReserved(c, a, c', t);
  }

  /** Whoever is active or freeing now was so before, or got its reference by this step. */
  lemma StillOpen(c: ICache, a: Action, c': ICache, u: nat)
    requires Inv(c) && Next(c, a, c') && u in c'.tokens && (Active(c', u) || At(c', u, Freeing))
    ensures u in c.tokens ==> Active(c, u) || At(c, u, Freeing)
    ensures u !in c.tokens ==> (a.Get? && u == a.t) || (a.Dup? && u == a.t')
  {
    if u in c.tokens { RefOfHolder(c, u); }
  }

  lemma ReservedFromAll(c: ICache, a: Action, c': ICache, t: nat, u: nat)
    requires t in c.marks && Inv(c) && Reserved(c, t) && Next(c, a, c') && LinkedGet(c, a) && t in c'.marks
    requires u in c'.tokens && (Active(c', u) || At(c', u, Freeing))
    ensures c'.tokens[u].slot < |c'.slots| && Slot(c', u).inum != c.marks[t]
  {
    hide Inv;
    StillOpen(c, a, c', u);
    if u in c.tokens { SlotStays(c, a, c', u); }
  }

  lemma DiskReserved(c: ICache, a: Action, c': ICache, t: nat)
    requires t in c.marks && Inv(c) && Reserved(c, t) && Next(c, a, c') && t in c'.marks
    ensures c'.marks[t] == c.marks[t] < |c'.disk| && c'.disk[c.marks[t]] == c.disk[c.marks[t]]
    ensures forall t' | t' in c'.marks && t' != t :: c'.marks[t'] != c.marks[t]
  {
    hide Inv;
    assert a.SetLinks? ==> Active(c, a.t);
    assert a.FreeOnDisk? ==> At(c, a.t, Freeing);
  }

  lemma {:induction false} LinkedRun(run: seq<ICache>, acts: seq<Action>, i: nat)
    requires IsRun(run, acts) && i <= |acts| && forall j | 0 <= j < |acts| :: LinkedGet(run[j], acts[j])
    ensures AllSafe(run[i]) && AllReserved(run[i])
  {
    hide Inv, Next, TokenSafe, SafeGet, Reserved, LinkedGet;
    if i > 0 {
      var j := i - 1;
      LinkedRun(run, acts, j);
      RunInv(run, acts, j);
      assert Next(run[j], acts[j], run[j + 1]) && LinkedGet(run[j], acts[j]);
      if acts[j].Get? { LinkedOrReserved(run[j], acts[j], run[i]); }
      AllSafeStays(run[j], acts[j], run[i]);
      forall t | t in run[i].marks
        ensures Reserved(run[i], t)
      {
        if t in run[j].marks {
          ReservedStays(run[j], acts[j], run[i], t);
        } else {
          NewMark(run[j], acts[j], run[i], t);
        }
      }
    }
  }

  lemma NewMark(c: ICache, a: Action, c': ICache, t: nat)
    requires Inv(c) && AllSafe(c) && AllReserved(c) && Next(c, a, c') && t in c'.marks && t !in c.marks
    ensures Reserved(c', t)
  {
    hide Inv, Reserved, TokenSafe;
    assert a.Mark? && a.t == t;
    MarkReserves(c, t, a.inum, a.typ, c');
  }

  /**
    When every iget outside ialloc is of a linked inode, all igets of a run are
    safe, those of ialloc included: nobody else reaches the inode between the
    store of its type and the iget.
   */
  lemma LinkedGetsAreSafe(run: seq<ICache>, acts: seq<Action>)
    requires IsRun(run, acts) && forall i | 0 <= i < |acts| :: LinkedGet(run[i], acts[i])
    ensures SafeGets(run, acts)
  {
    hide Inv, SafeGet, AllReserved, AllSafe, LinkedGet, Next;
    forall i | 0 <= i < |acts| && acts[i].Get?
      ensures SafeGet(run[i], acts[i].inum)
    {
      RunInv(run, acts, i);
      LinkedRun(run, acts, i);
      assert Next(run[i], acts[i], run[i + 1]) && LinkedGet(run[i], acts[i]);
      LinkedOrReserved(run[i], acts[i], run[i + 1]);
    }
  }

  /** In a run whose igets are all safe ilock always finds a type. */
  lemma LockFindsType(run: seq<ICache>, acts: seq<Action>, i: nat, t: nat)
    requires IsRun(run, acts) && SafeGets(run, acts) && i <= |acts| && At(run[i], t, Using)
    ensures Slot(run[i], t).inum < |run[i].disk| && run[i].disk[Slot(run[i], t).inum].typ != 0 && !LockPanics(run[i], t)
  {
    SafeRun(run, acts, i);
    assert TokenSafe(run[i], t);
  }

  // ------------------------------------------------ the iget inside ialloc

  /** An iput decides to free the inode. */
  predicate Frees(c: ICache, a: Action, inum: nat) {
    a.PutDecide? && At(c, a.t, Putting) && LastPut(Slot(c, a.t)) && Slot(c, a.t).inum == inum
  }

  predicate Marks(a: Action, inum: nat) {
    a.Mark? && a.inum == inum
  }

  /** A safe inode becomes unsafe by a decision to free it, and safe again by ialloc's store. */
  lemma SafeGetStep(c: ICache, a: Action, c': ICache, inum: nat)
    requires Inv(c) && Next(c, a, c')
    ensures SafeGet(c', inum) <==> Marks(a, inum) || (SafeGet(c, inum) && !Frees(c, a, inum))
  {
    hide Inv;
    NextKeeps(c, a, c');
    if Marks(a, inum) {
      forall u | u in c'.tokens && At(c', u, Freeing)
        ensures Slot(c', u).inum != inum
      {
        FreeingIsUnlinked(c, u);
      }
    } else if SafeGet(c, inum) {
      SafeGetEnds(c, a, c', inum);
    } else {
      UnsafeStays(c, a, c', inum);
    }
  }

  lemma SafeGetEnds(c: ICache, a: Action, c': ICache, inum: nat)
    requires Inv(c) && Next(c, a, c') && SafeGet(c, inum) && !Marks(a, inum)
    ensures SafeGet(c', inum) <==> !Frees(c, a, inum)
  {
    hide Inv;
    assert a.FreeOnDisk? ==> At(c, a.t, Freeing);
    forall u | u in c'.tokens && At(c', u, Freeing)
      ensures Slot(c', u).inum == inum ==> Frees(c, a, inum)
    {
      StillOpen(c, a, c', u);
      if u in c.tokens { SlotStays(c, a, c', u); }
    }
    assert Frees(c, a, inum) ==> a.t in c'.tokens && At(c', a.t, Freeing);
  }

  lemma UnsafeStays(c: ICache, a: Action, c': ICache, inum: nat)
    requires Inv(c) && Next(c, a, c') && !SafeGet(c, inum) && !Marks(a, inum)
    ensures !SafeGet(c', inum)
  {
    hide Inv;
    if inum < |c.disk| && c.disk[inum].typ != 0 {
      var u :| u in c.tokens && At(c, u, Freeing) && Slot(c, u).inum == inum;
      assert u in c'.tokens;
      SlotStays(c, a, c', u);
      StageStays(c, a, c', u);
    }
  }

  ghost predicate MarkedBetween(acts: seq<Action>, j: nat, g: nat, inum: nat)
    requires g <= |acts|
  {
    exists i | j < i < g :: Marks(acts[i], inum)
  }

  /** Between m and g every decision to free the inode was followed by an ialloc that took it again. */
  ghost predicate Retaken(run: seq<ICache>, acts: seq<Action>, m: nat, g: nat, inum: nat)
    requires g <= |acts| < |run|
  {
    forall j: nat | m < j < g && Frees(run[j], acts[j], inum) :: MarkedBetween(acts, j, g, inum)
  }

  lemma {:induction false} SafeSinceMark(run: seq<ICache>, acts: seq<Action>, m: nat, g: nat, inum: nat)
    requires IsRun(run, acts) && m < g <= |acts| && Marks(acts[m], inum)
    ensures SafeGet(run[g], inum) <==> Retaken(run, acts, m, g, inum)
  {
    hide Inv, Next, SafeGet, Frees;
    var j := g - 1;
    RunInv(run, acts, j);
    SafeGetStep(run[j], acts[j], run[j + 1], inum);
    if j > m {
      SafeSinceMark(run, acts, m, j, inum);
      if Marks(acts[j], inum) {
        NotBoth(run[j], acts[j], inum);
      } else {
        RetakenStep(run, acts, m, j, inum);
      }
    }
  }

  lemma NotBoth(c: ICache, a: Action, inum: nat)
    ensures !(Marks(a, inum) && Frees(c, a, inum))
  {
  }

  lemma RetakenStep(run: seq<ICache>, acts: seq<Action>, m: nat, g: nat, inum: nat)
    requires m < g < |acts| < |run| && !Marks(acts[g], inum)
    ensures Retaken(run, acts, m, g + 1, inum) <==> Retaken(run, acts, m, g, inum) && !Frees(run[g], acts[g], inum)
  {
    hide Frees, Marks, MarkedBetween;
    var g' := g + 1;
    forall j: nat | m < j < g'
      ensures MarkedBetween(acts, j, g', inum) <==> j < g && MarkedBetween(acts, j, g, inum)
    {
      BetweenStep(acts, j, g, inum);
    }
  }

  lemma BetweenStep(acts: seq<Action>, j: nat, g: nat, inum: nat)
    requires g < |acts| && !Marks(acts[g], inum)
    ensures MarkedBetween(acts, j, g + 1, inum) <==> MarkedBetween(acts, j, g, inum)
    ensures j >= g ==> !MarkedBetween(acts, j, g, inum)
  {
    hide Marks;
  }

  /**
    ialloc stores the type at step m and calls iget at step g.  ilock can never
    panic through the reference it gives, if and only if no iput decided to free the
    inode in between, unless yet another ialloc took it again after that.
   */
  lemma AllocSafeIff(run: seq<ICache>, acts: seq<Action>, m: nat, g: nat, t: nat, inum: nat, typ: nat, k: nat)
    requires IsRun(run, acts) && m < g < |acts| && acts[m] == Mark(t, inum, typ) && acts[g] == Get(t, inum, k)
    ensures NeverPanics(run[g + 1], t) <==> Retaken(run, acts, m, g, inum)
  {
    hide Inv, Next, SafeGet, NeverPanics, Retaken;
    RunInv(run, acts, g);
    assert Next(run[g], acts[g], run[g + 1]);
    SafeSinceMark(run, acts, m, g, inum);
    GetSafeIff(run[g], t, inum, k, run[g + 1]);
  }

  // ------------------------------------------------------ freeing alone

  /** iput frees exactly when the entry is valid, unlinked, and nobody else has a pointer. */
  lemma PutFreesIff(c: ICache, t: nat, c': ICache)
    requires Inv(c) && At(c, t, Putting) && Next(c, PutDecide(t), c')
    ensures c'.tokens[t].stage.Freeing? <==>
        Slot(c, t).valid && Slot(c, t).nlink == 0 && Holders(c, c.tokens[t].slot) == {t}
  {
    RefOfHolder(c, t);
    assert EntryOk(c, c.tokens[t].slot);
    assert t in Holders(c, c.tokens[t].slot);
    if Slot(c, t).ref == 1 {
      forall u | u in Holders(c, c.tokens[t].slot)
        ensures u == t
      {
        OnlyHolder(c, t, u);
      }
    }
  }

  /** While t frees the inode, whoever else points to the entry is stuck before its sleep-lock. */
  ghost predicate OthersWait(c: ICache, t: nat)
    requires t in c.tokens
  {
    forall u | u in c.tokens && u != t && c.tokens[u].slot == c.tokens[t].slot :: c.tokens[u].stage == Using
  }

  lemma OthersKeepWaiting(c: ICache, a: Action, c': ICache, t: nat)
    requires Inv(c) && Next(c, a, c') && At(c, t, Freeing) && At(c', t, Freeing) && OthersWait(c, t)
    ensures OthersWait(c', t)
  {
    RefOfHolder(c, t);
    assert TokenOk(c, t);
  }

  lemma AloneStep(c: ICache, a: Action, c': ICache, t: nat)
    requires Inv(c) && Next(c, a, c') && At(c, t, Freeing) && At(c', t, Freeing) && OthersWait(c, t)
    ensures Holders(c', c.tokens[t].slot) == {t}
       <==> Holders(c, c.tokens[t].slot) == {t} && !(a.Get? && a.inum == Slot(c, t).inum)
  {
    var k := c.tokens[t].slot;
    FreeingIsUnlinked(c, t);
    RefOfHolder(c, t);
    assert t in Holders(c, k) && t in Holders(c', k);
    if a.Get? && a.inum == Slot(c, t).inum {
      assert a.k == k;
      assert a.t in Holders(c', k) && a.t != t;
    } else if Holders(c, k) != {t} {
      var u :| u in Holders(c, k) && u != t;
      assert u in Holders(c', k);
    } else {
      forall u | u in Holders(c', k)
        ensures u == t
      {
        NobodyJoins(c, a, c', t, u);
      }
    }
  }

  lemma NobodyJoins(c: ICache, a: Action, c': ICache, t: nat, u: nat)
    requires Inv(c) && Next(c, a, c') && At(c, t, Freeing) && Holders(c, c.tokens[t].slot) == {t}
    requires !(a.Get? && a.inum == Slot(c, t).inum) && u in Holders(c', c.tokens[t].slot)
    ensures u == t
  {
    FreeingIsUnlinked(c, t);
    RefOfHolder(c, t);
    assert a.Dup? ==> (a.t in Holders(c, c.tokens[t].slot) <==> c.tokens[a.t].slot == c.tokens[t].slot);
    assert u in c.tokens ==> (u in Holders(c, c.tokens[t].slot) <==> c.tokens[u].slot == c.tokens[t].slot);
  }

  /**
    An inode is freed with no other reference to it, if and only if nobody got
    it between the decision of iput and the freeing; whoever does gets an inode
    with a type and no links.
   */
  lemma {:induction false} FreedAloneIff(run: seq<ICache>, acts: seq<Action>, d: nat, i: nat, t: nat)
    requires IsRun(run, acts) && d < i <= |acts| && acts[d] == PutDecide(t)
    requires At(run[i], t, Freeing) && forall j | d < j <= i :: At(run[j], t, Freeing)
    ensures OthersWait(run[i], t)
    ensures Holders(run[i], run[i].tokens[t].slot) == {t}
       <==> forall j | d < j < i :: !(acts[j].Get? && acts[j].inum == Slot(run[i], t).inum)
    ensures Slot(run[i], t).inum < |run[i].disk| && run[i].disk[Slot(run[i], t).inum].nlink == 0
    ensures run[i].disk[Slot(run[i], t).inum].typ != 0
  {
    hide Inv;
    RunInv(run, acts, i);
    FreeingIsUnlinked(run[i], t);
    if i == d + 1 {
      RunInv(run, acts, d);
      PutFreesIff(run[d], t, run[d + 1]);
      assert Holders(run[d + 1], run[d].tokens[t].slot) == {t};
      assert forall u | u in run[i].tokens && run[i].tokens[u].slot == run[i].tokens[t].slot ::
          u in Holders(run[i], run[i].tokens[t].slot);
    } else {
      var j := i - 1;
      RunInv(run, acts, j);
      FreedAloneIff(run, acts, d, j, t);
      assert Next(run[j], acts[j], run[j + 1]);
      SlotStays(run[j], acts[j], run[i], t);
      OthersKeepWaiting(run[j], acts[j], run[i], t);
      AloneStep(run[j], acts[j], run[i], t);
    }
  }

  // ----------------------------------------------------------- abandoned

  /** Some ialloc has given the inode a type and not yet got it. */
  ghost predicate Marked(c: ICache, inum: nat) {
    exists t :: t in c.marks && c.marks[t] == inum
  }

  /** Allocated, without links, nobody points to it, and no ialloc is about to. */
  ghost predicate Abandoned(c: ICache, inum: nat) {
    && inum < |c.disk| && c.disk[inum].typ != 0 && c.disk[inum].nlink == 0
    && (forall k | 0 <= k < |c.slots| && c.slots[k].ref > 0 :: c.slots[k].inum != inum)
    && !Marked(c, inum)
  }

  /** Every holder of slot k is past its decision in iput. */
  ghost predicate AllDecided(c: ICache, k: nat) {
    forall t | t in Holders(c, k) :: !Active(c, t)
  }

  /** Between the last decision on slot k, by u in state c, and state c'. */
  ghost predicate Since(c: ICache, u: nat, k: nat, c': ICache) {
    && At(c, u, Putting) && c.tokens[u].slot == k && k < |c'.slots| && c.slots[k].inum < |c.disk| == |c'.disk|
    && c'.slots[k].inum == c.slots[k].inum
    && (Marked(c, c.slots[k].inum) ==> Marked(c', c.slots[k].inum))
    && if LastPut(c.slots[k]) then
         && (forall t | t in Holders(c', k) :: t == u)
         && (At(c', u, Freeing) || c'.disk[c.slots[k].inum] == DInode(0, 0) || Marked(c', c.slots[k].inum))
       else
         && (forall t | t in Holders(c', k) :: At(c', t, Dropping))
         && Untouched(c, c', c.slots[k].inum)
  }

  /** The inode is as it was, or it had no type and ialloc has taken it. */
  ghost predicate Untouched(c: ICache, c': ICache, inum: nat) {
    && inum < |c.disk| == |c'.disk|
    && ((c'.disk[inum] == c.disk[inum] && (Marked(c', inum) ==> Marked(c, inum)))
        || (c.disk[inum].typ == 0 && Marked(c', inum)))
  }

  predicate DecidesOn(c: ICache, a: Action, k: nat) {
    a.PutDecide? && a.t in c.tokens && c.tokens[a.t].slot == k
  }

  lemma SinceStarts(c: ICache, u: nat, k: nat, c': ICache)
    requires Inv(c) && Next(c, PutDecide(u), c') && c.tokens[u].slot == k && AllDecided(c', k)
    ensures Since(c, u, k, c')
  {
    RefOfHolder(c, u);
    assert TokenOk(c, u);
    forall t | t in Holders(c', k)
      ensures LastPut(c.slots[k]) || At(c', t, Dropping)
    {
      assert TokenOk(c, t);
    }
    if LastPut(c.slots[k]) {
      forall t | t in Holders(c', k)
        ensures t == u
      {
        OnlyHolder(c, u, t);
      }
    }
  }

  lemma ActiveStays(c: ICache, a: Action, c': ICache, t: nat)
    requires Next(c, a, c') && Active(c, t) && a != PutDecide(t)
    ensures Active(c', t) && t in Holders(c', c.tokens[t].slot)
  {
  }

  lemma DecidedBefore(c: ICache, a: Action, c': ICache, k: nat)
    requires Inv(c) && Next(c, a, c') && k < |c'.slots| && AllDecided(c', k) && Holders(c', k) != {}
    requires !DecidesOn(c, a, k)
    ensures AllDecided(c, k) && Holders(c, k) != {} && k < |c.slots|
  {
    var v :| v in Holders(c', k);
    NewIsActive(c, a, c', v);
    assert v in c.tokens by { assert !Active(c', v); }
    SlotStays(c, a, c', v);
    assert v in Holders(c, k);
    hide Next, Inv;
    forall t | t in Holders(c, k)
      ensures !Active(c, t)
    {
      if Active(c, t) { ActiveStays(c, a, c', t); }
    }
  }

  lemma NewIsActive(c: ICache, a: Action, c': ICache, t: nat)
    requires Next(c, a, c') && t in c'.tokens
    ensures t in c.tokens || (Active(c', t) && (a.Get? ==> t == a.t && c'.tokens[t].slot == a.k))
  {
  }

  lemma GetsSlot(c: ICache, inum: nat, k': nat, k: nat)
    requires Inv(c) && Gets(c.slots, inum, k') && k < |c.slots| && c.slots[k].ref > 0 && c.slots[k].inum == inum
    ensures k' == k
  {
  }

  /** Past its decision a token goes its way by its own actions only. */
  lemma StageStays(c: ICache, a: Action, c': ICache, t: nat)
    requires Next(c, a, c') && t in c.tokens && t in c'.tokens
    ensures At(c, t, Dropping) ==> At(c', t, Dropping)
    ensures At(c, t, Freeing) ==> At(c', t, Freeing) || a == FreeOnDisk(t)
  {
  }

  lemma SinceLasts(c0: ICache, u: nat, c: ICache, a: Action, c': ICache, k: nat)
    requires Inv(c) && Since(c0, u, k, c) && Next(c, a, c') && AllDecided(c, k) && Holders(c, k) != {}
    requires AllDecided(c', k) && Holders(c', k) != {} && !DecidesOn(c, a, k)
    ensures Since(c0, u, k, c')
  {
    hide Next, Inv, AllDecided, Marked;
    var v :| v in Holders(c, k);
    DiskSince(c, a, c', k, v);
    if a.FreeOnDisk? { FreesAsHolder(c, a, c', k); }
    forall t | t in Holders(c', k)
      ensures t in Holders(c, k)
      ensures At(c, t, Dropping) ==> At(c', t, Dropping)
    {
      HolderBefore(c, a, c', k, t);
    }
    if At(c, u, Freeing) && u in c'.tokens { StageStays(c, a, c', u); }
    hide Holders;
  }

  lemma FreesAsHolder(c: ICache, a: Action, c': ICache, k: nat)
    requires Next(c, a, c') && a.FreeOnDisk?
    ensures At(c, a.t, Freeing) && (a.t in Holders(c, k) <==> c.tokens[a.t].slot == k)
  {
  }

  lemma HolderBefore(c: ICache, a: Action, c': ICache, k: nat, t: nat)
    requires Inv(c) && Next(c, a, c') && AllDecided(c', k) && t in Holders(c', k)
    ensures t in Holders(c, k)
    ensures At(c, t, Dropping) ==> At(c', t, Dropping)
  {
    hide Next, Inv;
    NewIsActive(c, a, c', t);
    SlotStaysBack(c, a, c', t);
    StageStays(c, a, c', t);
  }

  lemma SlotStaysBack(c: ICache, a: Action, c': ICache, t: nat)
    requires Inv(c) && Next(c, a, c') && t in c.tokens && t in c'.tokens
    ensures c'.tokens[t].slot == c.tokens[t].slot
  {
    SlotStays(c, a, c', t);
  }

  /** While all holders have decided, only the one that frees and the store of ialloc write the inode. */
  lemma DiskSince(c: ICache, a: Action, c': ICache, k: nat, v: nat)
    requires Inv(c) && Next(c, a, c') && AllDecided(c, k) && v in Holders(c, k) && AllDecided(c', k)
    ensures k < |c.slots| == |c'.slots| && c'.slots[k].inum == c.slots[k].inum < |c.disk| == |c'.disk|
    ensures a.FreeOnDisk? && c.tokens[a.t].slot == k ==> c'.disk[c.slots[k].inum] == DInode(0, 0)
    ensures !(a.FreeOnDisk? && c.tokens[a.t].slot == k) ==> Untouched(c, c', c.slots[k].inum)
    ensures Marked(c, c.slots[k].inum) ==> Marked(c', c.slots[k].inum)
  {
    hide Inv;
    RefOfHolder(c, v);
    match a
    case Mark(t, inum, typ) =>
      assert t in c'.marks && c'.marks[t] == inum;
      MarksStay(c, a, c', c.slots[k].inum);
    case SetLinks(t, n) =>
      SameInode(c, t, v);
      assert c.tokens[t].slot == k ==> t in Holders(c, k);
    case FreeOnDisk(t) => SameInode(c, t, v);
    case Get(t, inum, k') =>
      NewIsActive(c, a, c', t);
      assert t in Holders(c', k) <==> k' == k;
      if inum == c.slots[k].inum { GetsSlot(c, inum, k', k); }
      MarksStay(c, a, c', c.slots[k].inum);
    case _ =>
  }

  /** A mark goes when its ialloc gets the inode. */
  lemma MarksStay(c: ICache, a: Action, c': ICache, inum: nat)
    requires Next(c, a, c') && !(a.Get? && a.inum == inum)
    ensures Marked(c, inum) ==> Marked(c', inum)
    ensures Marked(c', inum) ==> Marked(c, inum) || (a.Mark? && a.inum == inum)
  {
    if Marked(c, inum) {
      var t :| t in c.marks && c.marks[t] == inum;
      assert t in c'.marks && c'.marks[t] == inum;
    }
    if Marked(c', inum) && !(a.Mark? && a.inum == inum) {
      var t :| t in c'.marks && c'.marks[t] == inum;
      assert t in c.marks && c.marks[t] == inum;
    }
  }

  /** Who decided last on the entry, and what has become of the inode since. */
  lemma {:induction false} LastDecision(run: seq<ICache>, acts: seq<Action>, i: nat, k: nat) returns (d: nat, u: nat)
    requires IsRun(run, acts) && i <= |acts| && k < |run[i].slots| && AllDecided(run[i], k) && Holders(run[i], k) != {}
    ensures d < i && acts[d] == PutDecide(u) && Since(run[d], u, k, run[i])
    ensures forall j | d < j < i :: !DecidesOn(run[j], acts[j], k)
    ensures forall t | t in Holders(run[d], k) && t != u :: !Active(run[d], t)
  {
    hide Inv, Next, Since, AllDecided, DecidesOn;
    assert i > 0 by { NoHoldersYet(run[0], k); }
    var j := i - 1;
    RunInv(run, acts, j);
    assert Next(run[j], acts[j], run[j + 1]);
    if DecidesOn(run[j], acts[j], k) {
      u := DeciderOf(run[j], acts[j], k);
      d := j;
      SinceStarts(run[j], u, k, run[i]);
      OthersDecided(run[j], u, k, run[i]);
    } else {
      DecidedBefore(run[j], acts[j], run[i], k);
      d, u := LastDecision(run, acts, j, k);
      SinceLasts(run[d], u, run[j], acts[j], run[i], k);
    }
  }

  lemma NoHoldersYet(c: ICache, k: nat)
    requires c.tokens == map[]
    ensures Holders(c, k) == {}
  {
  }

  lemma DeciderOf(c: ICache, a: Action, k: nat) returns (u: nat)
    requires DecidesOn(c, a, k)
    ensures a == PutDecide(u) && u in c.tokens && c.tokens[u].slot == k
  {
    u := a.t;
  }

  lemma OthersDecided(c: ICache, u: nat, k: nat, c': ICache)
    requires Next(c, PutDecide(u), c') && c.tokens[u].slot == k && AllDecided(c', k)
    ensures forall t | t in Holders(c, k) && t != u :: !Active(c, t)
  {
    forall t | t in Holders(c, k) && t != u
      ensures !Active(c, t)
    {
      assert t in Holders(c', k);
    }
  }

  /** iput decides not to free an allocated inode without links that no ialloc is on its way to. */
  ghost predicate GivesUp(c: ICache, u: nat)
    requires At(c, u, Putting)
  {
    var e := Slot(c, u);
    && e.inum < |c.disk| && c.disk[e.inum].typ != 0 && c.disk[e.inum].nlink == 0
    && (!e.valid || Holders(c, c.tokens[u].slot) != {u}) && !Marked(c, e.inum)
  }

  lemma LastPutIff(c: ICache, u: nat)
    requires Inv(c) && At(c, u, Putting)
    ensures LastPut(Slot(c, u)) <==> Slot(c, u).valid && Slot(c, u).nlink == 0 && Holders(c, c.tokens[u].slot) == {u}
    ensures Slot(c, u).valid ==> Slot(c, u).inum < |c.disk| && Slot(c, u).nlink == c.disk[Slot(c, u).inum].nlink
  {
    RefOfHolder(c, u);
    var k := c.tokens[u].slot;
    assert TokenOk(c, u) && EntryOk(c, k);
    assert u in Holders(c, k);
    if Slot(c, u).ref == 1 {
      forall t | t in Holders(c, k)
        ensures t == u
      {
        OnlyHolder(c, u, t);
      }
    }
  }

  /**
    The drop that takes the count to zero leaves the inode allocated without
    links and without holders, if and only if the last iput to decide found it
    so and gave up: its entry was not valid, or another iput had decided and not
    yet dropped its reference.
   */
  lemma AbandonedIff(run: seq<ICache>, acts: seq<Action>, i: nat, t: nat) returns (d: nat, u: nat)
    requires IsRun(run, acts) && i < |acts| && acts[i] == Drop(t) && At(run[i], t, Dropping) && Slot(run[i], t).ref == 1
    ensures d < i && acts[d] == PutDecide(u) && At(run[d], u, Putting) && run[d].tokens[u].slot == run[i].tokens[t].slot
    ensures forall j | d < j < i :: !DecidesOn(run[j], acts[j], run[i].tokens[t].slot)
    ensures Abandoned(run[i + 1], Slot(run[i], t).inum) <==> GivesUp(run[d], u)
    ensures forall v | v in Holders(run[d], run[d].tokens[u].slot) && v != u :: !Active(run[d], v)
  {
    hide Inv, DecidesOn;
    var c, c', k := run[i], run[i + 1], run[i].tokens[t].slot;
    RunInv(run, acts, i);
    assert Next(c, acts[i], c');
    SoleHolder(c, t);
    d, u := LastDecision(run, acts, i, k);
    RunInv(run, acts, d);
    LastPutIff(run[d], u);
    assert t in Holders(c, k);
    AfterDrop(c, t, c');
  }

  lemma SoleHolder(c: ICache, t: nat)
    requires Inv(c) && At(c, t, Dropping) && Slot(c, t).ref == 1
    ensures t in Holders(c, c.tokens[t].slot) && AllDecided(c, c.tokens[t].slot)
  {
    forall u | u in Holders(c, c.tokens[t].slot)
      ensures u == t
    {
      OnlyHolder(c, t, u);
    }
  }

  lemma AfterDrop(c: ICache, t: nat, c': ICache)
    requires Inv(c) && Next(c, Drop(t), c') && Slot(c, t).ref == 1
    ensures var inum := Slot(c, t).inum;
      Abandoned(c', inum) <==> inum < |c.disk| && c.disk[inum].typ != 0 && c.disk[inum].nlink == 0 && !Marked(c, inum)
  {
    RefOfHolder(c, t);
  }

  // ----------------------------------------------------- when nothing is

  /** iputs of one entry do not overlap, and an iput of an unlinked inode finds its entry loaded. */
  ghost predicate Orderly(run: seq<ICache>, acts: seq<Action>) {
    |run| == |acts| + 1 && forall i | 0 <= i < |acts| && acts[i].PutDecide? && At(run[i], acts[i].t, Putting) ::
      OrderlyPut(run[i], acts[i].t)
  }

  ghost predicate OrderlyPut(c: ICache, u: nat)
    requires At(c, u, Putting)
  {
    && (forall t | t in Holders(c, c.tokens[u].slot) && t != u :: Active(c, t))
    && (Slot(c, u).inum < |c.disk| && c.disk[Slot(c, u).inum].typ != 0 && c.disk[Slot(c, u).inum].nlink == 0 ==>
          Slot(c, u).valid)
  }

  /** Only a drop to zero abandons an inode. */
  lemma AbandonedByDrop(c: ICache, a: Action, c': ICache, inum: nat)
    requires Inv(c) && Next(c, a, c') && Abandoned(c', inum) && !Abandoned(c, inum)
    ensures a.Drop? && At(c, a.t, Dropping) && Slot(c, a.t).ref == 1 && Slot(c, a.t).inum == inum
  {
    hide Inv;
    NextKeeps(c, a, c');
    match a
    case Get(t, _, k) => StillReferenced(c, a, c', inum);
    case Mark(t, i, typ) =>
      assert t in c'.marks && c'.marks[t] == i;
      StillReferenced(c, a, c', inum);
    case SetLinks(t, n) =>
      RefOfHolder(c', t);
      StillReferenced(c, a, c', inum);
    case Drop(t) =>
      if !(Slot(c, t).ref == 1 && Slot(c, t).inum == inum) { StillReferenced(c, a, c', inum); }
    case _ => StillReferenced(c, a, c', inum);
  }

  /** Other actions free no entry, and give no inode a type or a link count of zero without holding it. */
  lemma StillReferenced(c: ICache, a: Action, c': ICache, inum: nat)
    requires Inv(c) && Next(c, a, c') && Abandoned(c', inum)
    requires a.Drop? ==> !(Slot(c, a.t).ref == 1 && Slot(c, a.t).inum == inum)
    requires a.Mark? ==> a.inum != inum
    requires a.SetLinks? ==> Slot(c, a.t).inum != inum
    ensures Abandoned(c, inum)
  {
    GotIsReferenced(c, a, c', inum);
    MarksStay(c, a, c', inum);
    forall k | 0 <= k < |c.slots| && c.slots[k].ref > 0
      ensures c.slots[k].inum != inum
    {
      assert c'.slots[k].ref > 0 || (a.Drop? && c.tokens[a.t].slot == k);
    }
  }

  lemma GotIsReferenced(c: ICache, a: Action, c': ICache, inum: nat)
    requires Next(c, a, c') && Abandoned(c', inum)
    ensures !(a.Get? && a.inum == inum)
  {
    assert a.Get? ==> c'.slots[a.k].ref > 0 && c'.slots[a.k].inum == a.inum;
  }

  /** In an orderly run no inode is ever abandoned. */
  lemma {:induction false} NoneAbandoned(run: seq<ICache>, acts: seq<Action>, i: nat, inum: nat)
    requires IsRun(run, acts) && Orderly(run, acts) && i <= |acts| && !Abandoned(run[0], inum)
    ensures !Abandoned(run[i], inum)
  {
    hide Inv, Next, Abandoned, Orderly, OrderlyPut, GivesUp;
    if i > 0 {
      var j := i - 1;
      NoneAbandoned(run, acts, j, inum);
      assert Next(run[j], acts[j], run[j + 1]);
      if Abandoned(run[i], inum) {
        RunInv(run, acts, j);
        AbandonedByDrop(run[j], acts[j], run[i], inum);
        var d, u := AbandonedIff(run, acts, j, acts[j].t);
        OrderlyNeverGivesUp(run, acts, d, u);
      }
    }
  }

  lemma OrderlyNeverGivesUp(run: seq<ICache>, acts: seq<Action>, d: nat, u: nat)
    requires Orderly(run, acts) && d < |acts| && acts[d] == PutDecide(u) && At(run[d], u, Putting)
    requires forall v | v in Holders(run[d], run[d].tokens[u].slot) && v != u :: !Active(run[d], v)
    ensures !GivesUp(run[d], u)
  {
    assert OrderlyPut(run[d], u);
    assert u in Holders(run[d], run[d].tokens[u].slot);
    assert Holders(run[d], run[d].tokens[u].slot) == {u};
  }

  // -------------------------------------------------------- what can happen

  /** The states of a run in which tokens 7 and 8 put the same unlinked inode 1. */
  function LeakState(i: nat): ICache {
    var linked, unlinked := [DInode(0, 0), DInode(2, 1)], [DInode(0, 0), DInode(2, 0)];
    var e := Entry(1, 1, true, 2, 1, Some(7));
    var one := Entry(1, 1, true, 2, 0, None);
    var two := one.(ref := 2);
    match i
    case 0 => ICache([Entry(0, 0, false, 0, 0, None)], map[], map[], linked)
    case 1 => ICache([Entry(1, 1, false, 0, 0, None)], map[7 := Token(0, Using)], map[], linked)
    case 2 => ICache([e], map[7 := Token(0, Held)], map[], linked)
    case 3 => ICache([e.(nlink := 0)], map[7 := Token(0, Held)], map[], unlinked)
    case 4 => ICache([one], map[7 := Token(0, Using)], map[], unlinked)
    case 5 => ICache([two], map[7 := Token(0, Using), 8 := Token(0, Using)], map[], unlinked)
    case 6 => ICache([two.(lock := Some(7))], map[7 := Token(0, Putting), 8 := Token(0, Using)], map[], unlinked)
    case 7 => ICache([two], map[7 := Token(0, Dropping), 8 := Token(0, Using)], map[], unlinked)
    case 8 => ICache([two.(lock := Some(8))], map[7 := Token(0, Dropping), 8 := Token(0, Putting)], map[], unlinked)
    case 9 => ICache([two], map[7 := Token(0, Dropping), 8 := Token(0, Dropping)], map[], unlinked)
    case 10 => ICache([one], map[8 := Token(0, Dropping)], map[], unlinked)
    case _ => ICache([one.(ref := 0)], map[], map[], unlinked)
  }

  const LEAK: seq<Action> :=
    [Get(7, 1, 0), Lock(7), SetLinks(7, 0), Unlock(7), Dup(7, 8), PutLock(7), PutDecide(7),
     PutLock(8), PutDecide(8), Drop(7), Drop(8)]

  lemma LeakBegins(i: nat)
    requires i < 5
    ensures Next(LeakState(i), LEAK[i], LeakState(i + 1))
  {
  }

  lemma LeakEnds(i: nat)
    requires 5 <= i < 11
    ensures Next(LeakState(i), LEAK[i], LeakState(i + 1))
  {
  }

  /**
    Two last holders that call iput at the same time each see a count of two:
    neither frees, both drop, and an unlinked inode stays allocated for good.
   */
  lemma UnlinkedInodeCanLeak() returns (run: seq<ICache>)
    ensures IsRun(run, LEAK) && run[11].tokens == map[]
    ensures |run[11].slots| == 1 && run[11].slots[0].ref == 0
    ensures |run[11].disk| == 2 && run[11].disk[1] == DInode(2, 0) && Abandoned(run[11], 1)
  {
    run := seq(12, i requires 0 <= i => LeakState(i));
    hide Next;
    forall i | 0 <= i < 11
      ensures Next(run[i], LEAK[i], run[i + 1])
    {
      if i < 5 { LeakBegins(i); } else { LeakEnds(i); }
    }
  }

  /** The states of a run in which token 7 frees inode 1, and token 8 gets it afterwards. */
  function RemovedState(i: nat): ICache {
    var linked, unlinked := [DInode(0, 0), DInode(2, 1)], [DInode(0, 0), DInode(2, 0)];
    var gone := [DInode(0, 0), DInode(0, 0)];
    var e := Entry(1, 1, true, 2, 0, Some(7));
    match i
    case 0 => ICache([Entry(0, 0, false, 0, 0, None)], map[], map[], linked)
    case 1 => ICache([Entry(1, 1, false, 0, 0, None)], map[7 := Token(0, Using)], map[], linked)
    case 2 => ICache([e.(nlink := 1)], map[7 := Token(0, Held)], map[], linked)
    case 3 => ICache([e], map[7 := Token(0, Held)], map[], unlinked)
    case 4 => ICache([e.(lock := None)], map[7 := Token(0, Using)], map[], unlinked)
    case 5 => ICache([e], map[7 := Token(0, Putting)], map[], unlinked)
    case 6 => ICache([e], map[7 := Token(0, Freeing)], map[], unlinked)
    case 7 => ICache([e.(typ := 0)], map[7 := Token(0, Freed)], map[], gone)
    case 8 => ICache([Entry(1, 1, false, 0, 0, None)], map[7 := Token(0, Dropping)], map[], gone)
    case 9 => ICache([Entry(1, 0, false, 0, 0, None)], map[], map[], gone)
    case _ => ICache([Entry(1, 1, false, 0, 0, None)], map[8 := Token(0, Using)], map[], gone)
  }

  const REMOVED: seq<Action> :=
    [Get(7, 1, 0), Lock(7), SetLinks(7, 0), Unlock(7), PutLock(7), PutDecide(7),
     FreeOnDisk(7), Invalidate(7), Drop(7), Get(8, 1, 0)]

  lemma RemovedBegins(i: nat)
    requires i < 5
    ensures Next(RemovedState(i), REMOVED[i], RemovedState(i + 1))
  {
  }

  lemma RemovedEnds(i: nat)
    requires 5 <= i < 10
    ensures Next(RemovedState(i), REMOVED[i], RemovedState(i + 1))
  {
  }

  /**
    A directory is removed and its inode freed; ".." of a directory that was
    removed before it still names that inode, and ilock panics on it.
   */
  lemma RemovedParentPanics() returns (run: seq<ICache>)
    ensures IsRun(run, REMOVED) && LockPanics(run[10], 8) && !SafeGet(run[9], 1)
  {
    run := seq(11, i requires 0 <= i => RemovedState(i));
    hide Next;
    forall i | 0 <= i < 10
      ensures Next(run[i], REMOVED[i], run[i + 1])
    {
      if i < 5 { RemovedBegins(i); } else { RemovedEnds(i); }
    }
  }

  /** The same with the iget between decision and freeing: the inode goes from under token 8. */
  lemma FreedUnderHolder() returns (run: seq<ICache>, acts: seq<Action>)
    ensures IsRun(run, acts) && |acts| == 7 && At(run[7], 7, Freeing) && Holders(run[7], 0) == {7, 8}
  {
    var c := RemovedState(6);
    var c' := Got(c, 8, 1, 0);
    assert Next(c, Get(8, 1, 0), c');
    run := seq(7, i requires 0 <= i => RemovedState(i)) + [c'];
    acts := REMOVED[..6] + [Get(8, 1, 0)];
    hide Next;
    forall i | 0 <= i < 7
      ensures Next(run[i], acts[i], run[i + 1])
    {
      if i < 5 { RemovedBegins(i); } else if i == 5 { RemovedEnds(i); }
    }
  }

  /** One process is enough: an inode that was allocated and never locked is not freed by iput. */
  lemma UnlockedAllocLeaks() returns (run: seq<ICache>)
    ensures IsRun(run, [Mark(7, 1, 2), Get(7, 1, 0), PutLock(7), PutDecide(7), Drop(7)]) && Abandoned(run[5], 1)
  {
    var free, used := [DInode(0, 0), DInode(0, 0)], [DInode(0, 0), DInode(2, 0)];
    var e := Entry(1, 1, false, 0, 0, None);
    run := [ICache([e.(inum := 0, ref := 0)], map[], map[], free),
            ICache([e.(inum := 0, ref := 0)], map[], map[7 := 1], used),
            ICache([e], map[7 := Token(0, Using)], map[], used),
            ICache([e.(lock := Some(7))], map[7 := Token(0, Putting)], map[], used),
            ICache([e], map[7 := Token(0, Dropping)], map[], used),
            ICache([e.(ref := 0)], map[], map[], used)];
  }

  /** The states of a run in which token 8 gets and frees inode 1 before the ialloc of token 7 gets it. */
  function RacedState(i: nat): ICache {
    var free, used := [DInode(0, 0), DInode(0, 0)], [DInode(0, 0), DInode(2, 0)];
    var none := Entry(0, 0, false, 0, 0, None);
    var e := Entry(1, 1, true, 2, 0, Some(8));
    match i
    case 0 => ICache([none], map[], map[], free)
    case 1 => ICache([none], map[], map[7 := 1], used)
    case 2 => ICache([none.(inum := 1, ref := 1)], map[8 := Token(0, Using)], map[7 := 1], used)
    case 3 => ICache([e], map[8 := Token(0, Held)], map[7 := 1], used)
    case 4 => ICache([e.(lock := None)], map[8 := Token(0, Using)], map[7 := 1], used)
    case 5 => ICache([e], map[8 := Token(0, Putting)], map[7 := 1], used)
    case 6 => ICache([e], map[8 := Token(0, Freeing)], map[7 := 1], used)
    case 7 => ICache([e.(typ := 0)], map[8 := Token(0, Freed)], map[7 := 1], free)
    case 8 => ICache([none.(inum := 1, ref := 1)], map[8 := Token(0, Dropping)], map[7 := 1], free)
    case 9 => ICache([none.(inum := 1)], map[], map[7 := 1], free)
    case _ => ICache([none.(inum := 1, ref := 1)], map[7 := Token(0, Using)], map[], free)
  }

  const RACED: seq<Action> :=
    [Mark(7, 1, 2), Get(8, 1, 0), Lock(8), Unlock(8), PutLock(8), PutDecide(8),
     FreeOnDisk(8), Invalidate(8), Drop(8), Get(7, 1, 0)]

  lemma RacedBegins(i: nat)
    requires i < 5
    ensures Next(RacedState(i), RACED[i], RacedState(i + 1))
  {
  }

  lemma RacedEnds(i: nat)
    requires 5 <= i < 10
    ensures Next(RacedState(i), RACED[i], RacedState(i + 1))
  {
  }

  /**
    ialloc stores the type and only then calls iget.  A ".." that still names the
    inode number reaches the inode in between; its iget is safe, its iput finds the
    last reference to an inode without links and frees it, and the ilock of the
    process that allocated it panics.
   */
  lemma AllocatedInodeFreedFirst() returns (run: seq<ICache>)
    ensures IsRun(run, RACED) && Marked(run[1], 1) && SafeGet(run[1], 1)
    ensures !SafeGet(run[9], 1) && LockPanics(run[10], 7)
  {
    run := seq(11, i requires 0 <= i => RacedState(i));
    assert run[1].marks[7] == 1;
    hide Next;
    forall i | 0 <= i < 10
      ensures Next(run[i], RACED[i], run[i + 1])
    {
      if i < 5 { RacedBegins(i); } else { RacedEnds(i); }
    }
  }
}
