/**
  iget, idup, ilock, iput of fs.c by many processes at once.

  A token stands for one in-memory pointer to a cache entry.  Each action is
  one critical section under icache.lock or under the entry's sleep-lock.
 */
module InodeCache {
  import opened Common

  const NINODE := 50

  /** lock: the token whose holder has the sleep-lock. */
  datatype Entry = Entry(inum: nat, ref: nat, valid: bool, typ: nat, nlink: nat, lock: Option<nat>)

  /**
    Using: a plain reference.  Held: between ilock and iunlock.
    Putting, Freeing, Freed, Dropping: the stages of iput.
   */
  datatype Stage = Using | Held | Putting | Freeing | Freed | Dropping

  datatype Token = Token(slot: nat, stage: Stage)

  datatype DInode = DInode(typ: nat, nlink: nat)

  /**
    marks: the callers of ialloc that have given an inode a type on disk and not
    yet called iget for it, and that inode.
   */
  datatype ICache = ICache(slots: seq<Entry>, tokens: map<nat, Token>, marks: map<nat, nat>, disk: seq<DInode>)

  // --------------------------------------------------------------- actions

  /** The entry that iget settles on: a referenced match, else an unused one. */
  ghost predicate Gets(slots: seq<Entry>, inum: nat, k: nat) {
    && k < |slots|
    && if slots[k].ref > 0 then slots[k].inum == inum
       else forall j | 0 <= j < |slots| && slots[j].ref > 0 :: slots[j].inum != inum
  }

  function Referenced(e: Entry, inum: nat): Entry {
    if e.ref > 0 then e.(ref := e.ref + 1) else e.(inum := inum, ref := 1, valid := false)
  }

  function Got(c: ICache, t: nat, inum: nat, k: nat): ICache
    requires k < |c.slots|
  {
    var slots' := c.slots[k := Referenced(c.slots[k], inum)];
    c.(slots := slots', tokens := c.tokens[t := Token(k, Using)], marks := c.marks - {t})
  }

  function Stepped(c: ICache, t: nat, stage: Stage, e: Entry): ICache
    requires t in c.tokens && c.tokens[t].slot < |c.slots|
  {
    c.(slots := c.slots[c.tokens[t].slot := e], tokens := c.tokens[t := Token(c.tokens[t].slot, stage)])
  }

  datatype Action =
    | Get(t: nat, inum: nat, k: nat)
    | Mark(t: nat, inum: nat, typ: nat)
    | Dup(t: nat, t': nat)
    | Lock(t: nat)
    | SetLinks(t: nat, n: nat)
    | Unlock(t: nat)
    | PutLock(t: nat)
    | PutDecide(t: nat)
    | FreeOnDisk(t: nat)
    | Invalidate(t: nat)
    | Drop(t: nat)

  predicate At(c: ICache, t: nat, stage: Stage) {
    t in c.tokens && c.tokens[t].stage == stage && c.tokens[t].slot < |c.slots|
  }

  function Slot(c: ICache, t: nat): Entry
    requires t in c.tokens && c.tokens[t].slot < |c.slots|
  {
    c.slots[c.tokens[t].slot]
  }

  /** ilock's load from disk, when the entry is not valid. */
  function Loaded(c: ICache, e: Entry): Entry
    requires e.inum < |c.disk|
  {
    if e.valid then e else e.(valid := true, typ := c.disk[e.inum].typ, nlink := c.disk[e.inum].nlink)
  }

  /** iput goes on to free the inode. */
  predicate LastPut(e: Entry) {
    e.valid && e.nlink == 0 && e.ref == 1
  }

  /** ilock would load an inode without a type: the panic "ilock: no type". */
  predicate LockPanics(c: ICache, t: nat) {
    && At(c, t, Using) && Slot(c, t).lock == None && !Slot(c, t).valid
    && Slot(c, t).inum < |c.disk| && c.disk[Slot(c, t).inum].typ == 0
  }

  /**
    Get is iget for any inode number, whatever directory it was read from.  Mark
    is the first half of ialloc, the store of a type into a free inode; its second
    half is a Get.  A panic is the end of a run.
   */
  ghost predicate Next(c: ICache, a: Action, c': ICache) {
    match a
    case Get(t, inum, k) =>
      && t !in c.tokens && (t in c.marks ==> c.marks[t] == inum) && inum < |c.disk| && Gets(c.slots, inum, k)
      && c' == Got(c, t, inum, k)
    case Mark(t, inum, typ) =>
      && t !in c.tokens && t !in c.marks && inum < |c.disk| && c.disk[inum].typ == 0 && typ != 0
      && c' == c.(marks := c.marks[t := inum], disk := c.disk[inum := DInode(typ, 0)])
    case Dup(t, t') =>
      && (At(c, t, Using) || At(c, t, Held)) && t' !in c.tokens && t' !in c.marks
      && c' == Duped(c, t, t')
    case Lock(t) =>
      && At(c, t, Using) && Slot(c, t).lock == None && Slot(c, t).inum < |c.disk| && !LockPanics(c, t)
      && c' == Stepped(c, t, Held, Loaded(c, Slot(c, t)).(lock := Some(t)))
    case SetLinks(t, n) =>
      && At(c, t, Held) && Slot(c, t).inum < |c.disk|
      && c' == Stepped(c, t, Held, Slot(c, t).(nlink := n)).(
                 disk := c.disk[Slot(c, t).inum := c.disk[Slot(c, t).inum].(nlink := n)])
    case Unlock(t) =>
      && At(c, t, Held)
      && c' == Stepped(c, t, Using, Slot(c, t).(lock := None))
    case PutLock(t) =>
      && At(c, t, Using) && Slot(c, t).lock == None
      && c' == Stepped(c, t, Putting, Slot(c, t).(lock := Some(t)))
    case PutDecide(t) =>
      && At(c, t, Putting)
      && c' == (if LastPut(Slot(c, t)) then Stepped(c, t, Freeing, Slot(c, t))
                else Stepped(c, t, Dropping, Slot(c, t).(lock := None)))
    case FreeOnDisk(t) =>
      && At(c, t, Freeing) && Slot(c, t).inum < |c.disk|
      && c' == Stepped(c, t, Freed, Slot(c, t).(typ := 0)).(
                 disk := c.disk[Slot(c, t).inum := DInode(0, 0)])
    case Invalidate(t) =>
      && At(c, t, Freed)
      && c' == Stepped(c, t, Dropping, Slot(c, t).(valid := false, lock := None))
    case Drop(t) =>
      && At(c, t, Dropping) && Slot(c, t).ref > 0
      && c' == c.(slots := c.slots[c.tokens[t].slot := Slot(c, t).(ref := Slot(c, t).ref - 1)],
                  tokens := c.tokens - {t})
  }

  // ------------------------------------------------------------- invariant

  ghost function Holders(c: ICache, k: nat): set<nat> {
    set t | t in c.tokens && c.tokens[t].slot == k
  }

  /** Stages in which the token's holder has the sleep-lock. */
  predicate Locking(s: Stage) {
    s.Held? || s.Putting? || s.Freeing? || s.Freed?
  }

  /** Some holder of slot k has freed the inode and not yet invalidated the entry. */
  ghost predicate BeingFreed(c: ICache, k: nat) {
    k < |c.slots| && c.slots[k].lock.Some? && c.slots[k].lock.value in c.tokens
    && c.tokens[c.slots[k].lock.value].stage == Freed
  }

  ghost predicate EntryOk(c: ICache, k: nat)
    requires k < |c.slots|
  {
    var e := c.slots[k];
    && e.ref == |Holders(c, k)|
    && (e.ref > 0 ==> e.inum < |c.disk|)
    && (e.lock.Some? ==> e.lock.value in c.tokens && c.tokens[e.lock.value].slot == k
                         && Locking(c.tokens[e.lock.value].stage))
    && (e.ref > 0 && e.valid && !BeingFreed(c, k) ==> DInode(e.typ, e.nlink) == c.disk[e.inum] && e.typ != 0)
  }

  ghost predicate TokenOk(c: ICache, t: nat)
    requires t in c.tokens
  {
    var tok := c.tokens[t];
    && tok.slot < |c.slots|
    && (Locking(tok.stage) ==> c.slots[tok.slot].lock == Some(t))
    && (tok.stage.Held? || tok.stage.Freeing? || tok.stage.Freed? ==> c.slots[tok.slot].valid)
    && (tok.stage.Freeing? ==> c.slots[tok.slot].nlink == 0)
  }

  ghost predicate Inv(c: ICache) {
    && (forall k: nat | k < |c.slots| :: EntryOk(c, k))
    && (forall t | t in c.tokens :: TokenOk(c, t))
    && (forall j, k | 0 <= j < k < |c.slots| && c.slots[j].ref > 0 && c.slots[k].ref > 0 ::
        c.slots[j].inum != c.slots[k].inum)
    && (forall i | 0 <= i < |c.disk| :: c.disk[i].nlink > 0 ==> c.disk[i].typ != 0)
  }

  // ------------------------------------------------------ every step keeps it

  /** Only token t, entry k and the disk inode i may differ. */
  ghost predicate Local(c: ICache, c': ICache, t: nat, k: nat, i: nat) {
    && |c'.slots| == |c.slots| && k < |c.slots| && |c'.disk| == |c.disk|
    && (forall j | 0 <= j < |c.slots| && j != k ::
        c'.slots[j] == c.slots[j] && (c.slots[j].ref > 0 ==> c.slots[j].inum != i))
    && (forall u | u != t :: (u in c.tokens <==> u in c'.tokens) && (u in c.tokens ==> c'.tokens[u] == c.tokens[u]))
    && (t in c.tokens ==> c.tokens[t].slot == k) && (t in c'.tokens ==> c'.tokens[t].slot == k)
    && (forall j | 0 <= j < |c.disk| && j != i :: c'.disk[j] == c.disk[j])
  }

  lemma OthersKept(c: ICache, c': ICache, t: nat, k: nat, i: nat)
    requires Inv(c) && Local(c, c', t, k, i)
    ensures forall j: nat | j < |c.slots| && j != k :: EntryOk(c', j)
    ensures forall u | u in c'.tokens && u != t && c'.tokens[u].slot != k :: TokenOk(c', u)
  {
    forall j: nat | j < |c.slots| && j != k
      ensures EntryOk(c', j)
    {
      assert EntryOk(c, j);
      assert Holders(c', j) == Holders(c, j);
    }
    forall u | u in c'.tokens && u != t && c'.tokens[u].slot != k
      ensures TokenOk(c', u)
    {
      assert TokenOk(c, u);
      RefOfHolder(c, u);
    }
  }

  /** An entry that somebody points to has a positive count. */
  lemma RefOfHolder(c: ICache, t: nat)
    requires Inv(c) && t in c.tokens
    ensures c.tokens[t].slot < |c.slots| && c.slots[c.tokens[t].slot].ref > 0
    ensures c.slots[c.tokens[t].slot].inum < |c.disk|
  {
    assert TokenOk(c, t);
    var k := c.tokens[t].slot;
    assert EntryOk(c, k);
    assert t in Holders(c, k);
  }

  /** With count one, nobody else points to the entry. */
  lemma OnlyHolder(c: ICache, t: nat, u: nat)
    requires Inv(c) && t in c.tokens && u in c.tokens && c.tokens[u].slot == c.tokens[t].slot
    requires c.tokens[t].slot < |c.slots| && c.slots[c.tokens[t].slot].ref == 1
    ensures u == t
  {
    var k := c.tokens[t].slot;
    assert EntryOk(c, k);
    var h := Holders(c, k);
    assert t in h && u in h;
    assert h - {t} == {} by { assert |h - {t}| == 0; }
  }

  ghost predicate MayGet(c: ICache, t: nat, inum: nat, k: nat) {
    t !in c.tokens && inum < |c.disk| && Gets(c.slots, inum, k)
  }

  lemma GetEntry(c: ICache, t: nat, inum: nat, k: nat)
    requires Inv(c) && MayGet(c, t, inum, k)
    ensures EntryOk(Got(c, t, inum, k), k)
  {
    assert EntryOk(c, k);
    GetHolders(c, t, inum, k);
    if c.slots[k].ref > 0 { GetFreed(c, t, inum, k); }
    hide Inv, Holders, BeingFreed;
  }

  lemma GetHolders(c: ICache, t: nat, inum: nat, k: nat)
    requires MayGet(c, t, inum, k) && EntryOk(c, k)
    ensures |Holders(Got(c, t, inum, k), k)| == c.slots[k].ref + 1
    ensures c.slots[k].ref == 0 ==> c.slots[k].lock == None
  {
    assert Holders(Got(c, t, inum, k), k) == Holders(c, k) + {t};
    assert c.slots[k].lock.Some? ==> c.slots[k].lock.value in Holders(c, k);
  }

  lemma GetFreed(c: ICache, t: nat, inum: nat, k: nat)
    requires MayGet(c, t, inum, k) && EntryOk(c, k) && c.slots[k].ref > 0
    ensures BeingFreed(Got(c, t, inum, k), k) == BeingFreed(c, k)
  {
  }

  lemma GetToken(c: ICache, t: nat, inum: nat, k: nat, u: nat)
    requires Inv(c) && MayGet(c, t, inum, k) && u in c.tokens && c.tokens[u].slot == k
    ensures TokenOk(Got(c, t, inum, k), u)
  {
    assert TokenOk(c, u);
    assert EntryOk(c, k);
    RefOfHolder(c, u);
  }

  lemma GetKeeps(c: ICache, t: nat, inum: nat, k: nat)
    requires Inv(c) && MayGet(c, t, inum, k)
    ensures Inv(Got(c, t, inum, k))
  {
    hide Inv, EntryOk, TokenOk;
    var c' := Got(c, t, inum, k);
    InvParts(c);
    OthersKept(c, c', t, k, inum);
    GetEntry(c, t, inum, k);
    forall u | u in c'.tokens && u != t && c'.tokens[u].slot == k
      ensures TokenOk(c', u)
    {
      GetToken(c, t, inum, k, u);
    }
    assert TokenOk(c', t) by { FreshToken(c', t); }
    Assemble(c, c', t, k);
  }

  /** No entry claims to know an inode that has no type on disk, so giving it one contradicts none. */
  lemma MarkKeeps(c: ICache, t: nat, inum: nat, typ: nat)
    requires Inv(c) && inum < |c.disk| && c.disk[inum].typ == 0 && typ != 0
    ensures Inv(c.(marks := c.marks[t := inum], disk := c.disk[inum := DInode(typ, 0)]))
  {
    var c' := c.(marks := c.marks[t := inum], disk := c.disk[inum := DInode(typ, 0)]);
    forall k: nat | k < |c.slots|
      ensures EntryOk(c', k)
    {
      assert EntryOk(c, k);
      assert Holders(c', k) == Holders(c, k);
      assert BeingFreed(c', k) == BeingFreed(c, k);
    }
    forall u | u in c.tokens
      ensures TokenOk(c', u)
    {
      assert TokenOk(c, u);
    }
  }

  lemma FreshToken(c: ICache, t: nat)
    requires At(c, t, Using)
    ensures TokenOk(c, t)
  {
  }

  lemma InvParts(c: ICache)
    requires Inv(c)
    ensures forall k: nat | k < |c.slots| :: EntryOk(c, k)
    ensures forall t | t in c.tokens :: TokenOk(c, t)
    ensures forall j, k | 0 <= j < k < |c.slots| && c.slots[j].ref > 0 && c.slots[k].ref > 0 ::
        c.slots[j].inum != c.slots[k].inum
    ensures forall i | 0 <= i < |c.disk| :: c.disk[i].nlink > 0 ==> c.disk[i].typ != 0
  {
  }

  lemma Assemble(c: ICache, c': ICache, t: nat, k: nat)
    requires k < |c'.slots| && EntryOk(c', k) && (t in c'.tokens ==> TokenOk(c', t))
    requires forall j: nat | j < |c'.slots| && j != k :: EntryOk(c', j)
    requires forall u | u in c'.tokens && u != t && c'.tokens[u].slot != k :: TokenOk(c', u)
    requires forall u | u in c'.tokens && u != t && c'.tokens[u].slot == k :: TokenOk(c', u)
    requires forall j, k | 0 <= j < k < |c'.slots| && c'.slots[j].ref > 0 && c'.slots[k].ref > 0 ::
        c'.slots[j].inum != c'.slots[k].inum
    requires forall i | 0 <= i < |c'.disk| :: c'.disk[i].nlink > 0 ==> c'.disk[i].typ != 0
    ensures Inv(c')
  {
  }

  /** A step by the holder of token t that moves no reference. */
  function Moved(c: ICache, t: nat, stage: Stage, e: Entry, disk': seq<DInode>): ICache
    requires t in c.tokens && c.tokens[t].slot < |c.slots|
  {
    Stepped(c, t, stage, e).(disk := disk')
  }

  ghost predicate MayMove(c: ICache, t: nat, e: Entry, disk': seq<DInode>) {
    && t in c.tokens && c.tokens[t].slot < |c.slots|
    && e.inum == Slot(c, t).inum && e.ref == Slot(c, t).ref && |disk'| == |c.disk|
    && (forall j | 0 <= j < |c.disk| && j != e.inum :: disk'[j] == c.disk[j])
    && (e.inum < |c.disk| && disk'[e.inum].nlink > 0 ==> disk'[e.inum].typ != 0)
  }

  lemma MovedKeeps(c: ICache, t: nat, stage: Stage, e: Entry, disk': seq<DInode>)
    requires Inv(c) && MayMove(c, t, e, disk')
    requires var c' := Moved(c, t, stage, e, disk'); TokenOk(c', t) && EntryOk(c', c.tokens[t].slot)
    requires forall u | u in c.tokens && u != t && c.tokens[u].slot == c.tokens[t].slot ::
      TokenOk(Moved(c, t, stage, e, disk'), u)
    ensures Inv(Moved(c, t, stage, e, disk'))
  {
    hide Inv, EntryOk, TokenOk;
    var c' := Moved(c, t, stage, e, disk');
    InvParts(c);
    RefOfHolder(c, t);
    OthersKept(c, c', t, c.tokens[t].slot, e.inum);
    Assemble(c, c', t, c.tokens[t].slot);
  }

  lemma MovedHolders(c: ICache, t: nat, stage: Stage, e: Entry, disk': seq<DInode>)
    requires t in c.tokens && c.tokens[t].slot < |c.slots|
    ensures Holders(Moved(c, t, stage, e, disk'), c.tokens[t].slot) == Holders(c, c.tokens[t].slot)
  {
  }

  lemma LockKeeps(c: ICache, t: nat)
    requires Inv(c) && At(c, t, Using) && Slot(c, t).lock == None && Slot(c, t).inum < |c.disk| && !LockPanics(c, t)
    ensures Inv(Moved(c, t, Held, Loaded(c, Slot(c, t)).(lock := Some(t)), c.disk))
  {
    var e := Loaded(c, Slot(c, t)).(lock := Some(t));
    MovedHolders(c, t, Held, e, c.disk);
    assert TokenOk(c, t) && EntryOk(c, c.tokens[t].slot);
    forall u | u in c.tokens && u != t && c.tokens[u].slot == c.tokens[t].slot
      ensures TokenOk(Moved(c, t, Held, e, c.disk), u)
    {
      assert TokenOk(c, u);
    }
    MovedKeeps(c, t, Held, e, c.disk);
  }

  lemma SetLinksKeeps(c: ICache, t: nat, n: nat)
    requires Inv(c) && At(c, t, Held) && Slot(c, t).inum < |c.disk|
    ensures Inv(Moved(c, t, Held, Slot(c, t).(nlink := n),
        c.disk[Slot(c, t).inum := c.disk[Slot(c, t).inum].(nlink := n)]))
  {
    var e := Slot(c, t).(nlink := n);
    var disk' := c.disk[Slot(c, t).inum := c.disk[Slot(c, t).inum].(nlink := n)];
    RefOfHolder(c, t);
    MovedHolders(c, t, Held, e, disk');
    assert TokenOk(c, t) && EntryOk(c, c.tokens[t].slot);
    forall u | u in c.tokens && u != t && c.tokens[u].slot == c.tokens[t].slot
      ensures TokenOk(Moved(c, t, Held, e, disk'), u)
    {
      assert TokenOk(c, u);
    }
    MovedKeeps(c, t, Held, e, disk');
  }

  lemma UnlockKeeps(c: ICache, t: nat)
    requires Inv(c) && At(c, t, Held)
    ensures Inv(Moved(c, t, Using, Slot(c, t).(lock := None), c.disk))
  {
    var e := Slot(c, t).(lock := None);
    MovedHolders(c, t, Using, e, c.disk);
    InvParts(c);
    assert TokenOk(c, t) && EntryOk(c, c.tokens[t].slot);
    forall u | u in c.tokens && u != t && c.tokens[u].slot == c.tokens[t].slot
      ensures TokenOk(Moved(c, t, Using, e, c.disk), u)
    {
      assert TokenOk(c, u);
    }
    MovedKeeps(c, t, Using, e, c.disk);
  }

  lemma PutLockKeeps(c: ICache, t: nat)
    requires Inv(c) && At(c, t, Using) && Slot(c, t).lock == None
    ensures Inv(Moved(c, t, Putting, Slot(c, t).(lock := Some(t)), c.disk))
  {
    var e := Slot(c, t).(lock := Some(t));
    MovedHolders(c, t, Putting, e, c.disk);
    RefOfHolder(c, t);
    assert TokenOk(c, t) && EntryOk(c, c.tokens[t].slot);
    forall u | u in c.tokens && u != t && c.tokens[u].slot == c.tokens[t].slot
      ensures TokenOk(Moved(c, t, Putting, e, c.disk), u)
    {
      assert TokenOk(c, u);
    }
    MovedKeeps(c, t, Putting, e, c.disk);
  }

  lemma PutDecideKeeps(c: ICache, t: nat)
    requires Inv(c) && At(c, t, Putting)
    ensures LastPut(Slot(c, t)) ==> Inv(Moved(c, t, Freeing, Slot(c, t), c.disk))
    ensures !LastPut(Slot(c, t)) ==> Inv(Moved(c, t, Dropping, Slot(c, t).(lock := None), c.disk))
  {
    var stage := if LastPut(Slot(c, t)) then Freeing else Dropping;
    var e := if LastPut(Slot(c, t)) then Slot(c, t) else Slot(c, t).(lock := None);
    MovedHolders(c, t, stage, e, c.disk);
    InvParts(c);
    RefOfHolder(c, t);
    assert TokenOk(c, t) && EntryOk(c, c.tokens[t].slot);
    forall u | u in c.tokens && u != t && c.tokens[u].slot == c.tokens[t].slot
      ensures TokenOk(Moved(c, t, stage, e, c.disk), u)
    {
      assert TokenOk(c, u);
    }
    MovedKeeps(c, t, stage, e, c.disk);
  }

  lemma FreeOnDiskKeeps(c: ICache, t: nat)
    requires Inv(c) && At(c, t, Freeing) && Slot(c, t).inum < |c.disk|
    ensures Inv(Moved(c, t, Freed, Slot(c, t).(typ := 0), c.disk[Slot(c, t).inum := DInode(0, 0)]))
  {
    var e := Slot(c, t).(typ := 0);
    var disk' := c.disk[Slot(c, t).inum := DInode(0, 0)];
    RefOfHolder(c, t);
    MovedHolders(c, t, Freed, e, disk');
    assert TokenOk(c, t) && EntryOk(c, c.tokens[t].slot);
    forall u | u in c.tokens && u != t && c.tokens[u].slot == c.tokens[t].slot
      ensures TokenOk(Moved(c, t, Freed, e, disk'), u)
    {
      assert TokenOk(c, u);
    }
    MovedKeeps(c, t, Freed, e, disk');
  }

  lemma InvalidateKeeps(c: ICache, t: nat)
    requires Inv(c) && At(c, t, Freed)
    ensures Inv(Moved(c, t, Dropping, Slot(c, t).(valid := false, lock := None), c.disk))
  {
    var e := Slot(c, t).(valid := false, lock := None);
    MovedHolders(c, t, Dropping, e, c.disk);
    InvParts(c);
    RefOfHolder(c, t);
    assert TokenOk(c, t) && EntryOk(c, c.tokens[t].slot);
    forall u | u in c.tokens && u != t && c.tokens[u].slot == c.tokens[t].slot
      ensures TokenOk(Moved(c, t, Dropping, e, c.disk), u)
    {
      assert TokenOk(c, u);
    }
    MovedKeeps(c, t, Dropping, e, c.disk);
  }

  function Duped(c: ICache, t: nat, t': nat): ICache
    requires t in c.tokens && c.tokens[t].slot < |c.slots|
  {
    var slots' := c.slots[c.tokens[t].slot := Slot(c, t).(ref := Slot(c, t).ref + 1)];
    c.(slots := slots', tokens := c.tokens[t' := Token(c.tokens[t].slot, Using)])
  }

  lemma DupEntry(c: ICache, t: nat, t': nat)
    requires Inv(c) && (At(c, t, Using) || At(c, t, Held)) && t' !in c.tokens
    ensures EntryOk(Duped(c, t, t'), c.tokens[t].slot) && TokenOk(Duped(c, t, t'), t')
  {
    var k := c.tokens[t].slot;
    var c' := Duped(c, t, t');
    RefOfHolder(c, t);
    assert TokenOk(c, t) && EntryOk(c, k);
    assert Holders(c', k) == Holders(c, k) + {t'};
    assert BeingFreed(c', k) == BeingFreed(c, k);
  }

  lemma DupToken(c: ICache, t: nat, t': nat, u: nat)
    requires Inv(c) && (At(c, t, Using) || At(c, t, Held)) && t' !in c.tokens
    requires u in c.tokens && c.tokens[u].slot == c.tokens[t].slot
    ensures TokenOk(Duped(c, t, t'), u)
  {
    assert TokenOk(c, u);
  }

  lemma DupKeeps(c: ICache, t: nat, t': nat)
    requires Inv(c) && (At(c, t, Using) || At(c, t, Held)) && t' !in c.tokens
    ensures Inv(Duped(c, t, t'))
  {
    hide Inv, EntryOk, TokenOk;
    var k := c.tokens[t].slot;
    var c' := Duped(c, t, t');
    InvParts(c);
    RefOfHolder(c, t);
    OthersKept(c, c', t', k, c.slots[k].inum);
    DupEntry(c, t, t');
    forall u | u in c'.tokens && u != t' && c'.tokens[u].slot == k
      ensures TokenOk(c', u)
    {
      DupToken(c, t, t', u);
    }
    Assemble(c, c', t', k);
  }

  lemma DropKeeps(c: ICache, t: nat)
    requires Inv(c) && At(c, t, Dropping) && Slot(c, t).ref > 0
    ensures Inv(c.(slots := c.slots[c.tokens[t].slot := Slot(c, t).(ref := Slot(c, t).ref - 1)],
        tokens := c.tokens - {t}))
  {
    hide Inv;
    var k := c.tokens[t].slot;
    var c' := c.(slots := c.slots[k := Slot(c, t).(ref := Slot(c, t).ref - 1)], tokens := c.tokens - {t});
    InvParts(c);
    RefOfHolder(c, t);
    assert TokenOk(c, t) && EntryOk(c, k);
    OthersKept(c, c', t, k, c.slots[k].inum);
    assert Holders(c', k) == Holders(c, k) - {t};
    forall u | u in c'.tokens && c'.tokens[u].slot == k
      ensures TokenOk(c', u)
    {
      assert TokenOk(c, u);
    }
    Assemble(c, c', t, k);
  }

  lemma NextKeeps(c: ICache, a: Action, c': ICache)
    requires Inv(c) && Next(c, a, c')
    ensures Inv(c')
  {
    hide Inv, Holders, EntryOk, TokenOk, BeingFreed;
    match a
    case Get(t, inum, k) => GetKeeps(c, t, inum, k);
    case Mark(t, inum, typ) => MarkKeeps(c, t, inum, typ);
    case Dup(t, t') => DupKeeps(c, t, t');
    case Lock(t) => LockKeeps(c, t);
    case SetLinks(t, n) => SetLinksKeeps(c, t, n);
    case Unlock(t) => UnlockKeeps(c, t);
    case PutLock(t) => PutLockKeeps(c, t);
    case PutDecide(t) => PutDecideKeeps(c, t);
    case FreeOnDisk(t) => FreeOnDiskKeeps(c, t);
    case Invalidate(t) => InvalidateKeeps(c, t);
    case Drop(t) => DropKeeps(c, t);
  }

  // ------------------------------------------------------------ whole runs

  ghost predicate Init(c: ICache) {
    && c.tokens == map[] && c.marks == map[]
    && (forall k | 0 <= k < |c.slots| :: c.slots[k].ref == 0 && c.slots[k].lock == None)
    && (forall i | 0 <= i < |c.disk| :: c.disk[i].nlink > 0 ==> c.disk[i].typ != 0)
  }

  ghost predicate IsRun(run: seq<ICache>, acts: seq<Action>) {
    && |run| == |acts| + 1 && Init(run[0])
    && forall i | 0 <= i < |acts| :: Next(run[i], acts[i], run[i + 1])
  }

  lemma {:induction false} RunInv(run: seq<ICache>, acts: seq<Action>, i: nat)
    requires IsRun(run, acts) && i <= |acts|
    ensures Inv(run[i])
  {
    hide Next, Inv;
    if i == 0 {
      InitInv(run[0]);
    } else {
      RunInv(run, acts, i - 1);
      NextKeeps(run[i - 1], acts[i - 1], run[i]);
    }
  }

  lemma InitInv(c: ICache)
    requires Init(c)
    ensures Inv(c)
  {
    assert forall k: nat :: Holders(c, k) == {};
  }

  /** ref is the number of pointers to the entry, and one inode has one entry. */
  lemma CountsAreExact(run: seq<ICache>, acts: seq<Action>, i: nat, k: nat)
    requires IsRun(run, acts) && i <= |acts| && k < |run[i].slots|
    ensures run[i].slots[k].ref == |Holders(run[i], k)|
    ensures forall j | 0 <= j < |run[i].slots| && j != k && run[i].slots[j].ref > 0 && run[i].slots[k].ref > 0 ::
        run[i].slots[j].inum != run[i].slots[k].inum
  {
    RunInv(run, acts, i);
    assert EntryOk(run[i], k);
  }

  // ------------------------------------------------------------ iget's scan

  class Table {
    const inode: array<Entry>

    ghost predicate Valid()
      reads this, inode
    {
      && inode.Length == NINODE
      && forall j, k | 0 <= j < k < NINODE && inode[j].ref > 0 && inode[k].ref > 0 :: inode[j].inum != inode[k].inum
    }

    /** iget(): the loop over the cache, and the entry it takes. */
    method IGet(inum: nat) returns (k: nat, panicked: bool)
      requires Valid()
      modifies inode
      ensures Valid()
      ensures panicked <==> forall j | 0 <= j < NINODE :: old(inode[j].ref > 0 && inode[j].inum != inum)
      ensures panicked ==> inode[..] == old(inode[..])
      ensures !panicked ==> Gets(old(inode[..]), inum, k)
      ensures !panicked && old(inode[k].ref) == 0 ==> forall j | 0 <= j < k :: old(inode[j].ref) > 0
      ensures !panicked ==> inode[..] == old(inode[..])[k := Referenced(old(inode[k]), inum)]
    {
      var empty: nat := NINODE;
      var ip := 0;
      while ip < NINODE
        invariant 0 <= ip <= NINODE && empty <= NINODE && inode[..] == old(inode[..])
        invariant forall j | 0 <= j < ip && inode[j].ref > 0 :: inode[j].inum != inum
        invariant empty == NINODE ==> forall j | 0 <= j < ip :: inode[j].ref > 0
        invariant empty < NINODE ==> empty < ip && inode[empty].ref == 0 && forall j | 0 <= j < empty ::
            inode[j].ref > 0
      {
        if inode[ip].ref > 0 && inode[ip].inum == inum {
          inode[ip] := inode[ip].(ref := inode[ip].ref + 1);
          return ip, false;
        }
        if empty == NINODE && inode[ip].ref == 0 {
          empty := ip;
        }
        ip := ip + 1;
      }
      if empty == NINODE {
        return 0, true;
      }
      inode[empty] := inode[empty].(inum := inum, ref := 1, valid := false);
      return empty, false;
    }
  }
}
