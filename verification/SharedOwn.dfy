/**
  Who owns which block while several operations on different files are under way.
  Besides the slots of inodes and indirect blocks, a process can own a block that
  balloc has marked for it and bmap has not yet entered anywhere; and of a file that
  itrunc is emptying the first entries no longer count.
 */
module SharedOwn {
  import opened Common
  import opened Blocks
  import opened FsFormat
  import opened FsState
  import opened FileBytes

  /** dead: how many entries of a file's indirect block have been freed; pend: the block each process has taken. */
  datatype Mid = Mid(st: Fs, dead: map<nat, nat>, pend: map<nat, nat>)

  datatype Use = At(s: Slot) | Pend(p: nat)

  predicate IsUse(sb: Super, u: Use) {
    u.At? ==> IsSlot(sb, u.s)
  }

  predicate IsDead(m: Mid, s: Slot) {
    s.Entry? && s.inum in m.dead && s.k < m.dead[s.inum]
  }

  /** The block in that use; 0 if none is. */
  function Holds(sb: Super, m: Mid, u: Use): nat
    requires Sized(sb, m.st) && IsUse(sb, u)
  {
    match u
    case At(s) => if IsDead(m, s) then 0 else Ref(sb, m.st, NONE, s)
    case Pend(p) => if p in m.pend then m.pend[p] else 0
  }

  ghost predicate InUse(sb: Super, m: Mid, b: nat)
    requires Sized(sb, m.st)
  {
    exists u :: IsUse(sb, u) && Holds(sb, m, u) == b
  }

  /** A free-map bit is set exactly when the block is metadata or in use; and no block is in two uses. */
  ghost predicate OwnedBy(sb: Super, m: Mid) {
    && Sized(sb, m.st)
    && (forall u | IsUse(sb, u) && Holds(sb, m, u) != 0 :: sb.nmeta <= Holds(sb, m, u) < sb.size)
    && (forall u, w | IsUse(sb, u) && IsUse(sb, w) && Holds(sb, m, u) == Holds(sb, m, w) != 0 :: u == w)
    && (forall b | 0 <= b < sb.size :: Bit(sb, m.st, b) <==> b < sb.nmeta || InUse(sb, m, b))
  }

  /** With nothing under way this is the ownership of FsState. */
  lemma OwnedAtRest(sb: Super, m: Mid)
    requires OwnedBy(sb, m) && m.dead == map[] && m.pend == map[]
    ensures Owned(sb, m.st, NONE)
  {
    hide Bit, Ref;
    var st := m.st;
    assert forall s | IsSlot(sb, s) :: Holds(sb, m, At(s)) == Ref(sb, st, NONE, s);
    forall s, t | IsSlot(sb, s) && IsSlot(sb, t) && Ref(sb, st, NONE, s) == Ref(sb, st, NONE, t) != 0
      ensures s == t
    {
      assert At(s) == At(t);
    }
    forall b | 0 <= b < sb.size
      ensures Bit(sb, st, b) <==> b < sb.nmeta || Referenced(sb, st, NONE, b)
    {
      if b >= sb.nmeta { UseIsSlot(sb, m, b); }
    }
  }

  lemma UseIsSlot(sb: Super, m: Mid, b: nat)
    requires Sized(sb, m.st) && m.dead == map[] && m.pend == map[] && b != 0
    ensures InUse(sb, m, b) <==> Referenced(sb, m.st, NONE, b)
  {
    hide Ref, Sized;
    if u :| IsUse(sb, u) && Holds(sb, m, u) == b {
      assert Ref(sb, m.st, NONE, u.s) == b;
    }
    if s :| IsSlot(sb, s) && Ref(sb, m.st, NONE, s) == b {
      assert Holds(sb, m, At(s)) == b;
    }
  }

  lemma RestIsOwned(sb: Super, st: Fs)
    requires Owned(sb, st, NONE)
    ensures OwnedBy(sb, Mid(st, map[], map[]))
  {
    hide Bit, Ref;
    var m := Mid(st, map[], map[]);
    forall u | IsUse(sb, u)
      ensures Holds(sb, m, u) == match u case At(s) => Ref(sb, st, NONE, s) case Pend(_) => 0
    {
    }
    forall b | 0 <= b < sb.size
      ensures Bit(sb, st, b) <==> b < sb.nmeta || InUse(sb, m, b)
    {
      if b >= sb.nmeta { UseIsSlot(sb, m, b); }
    }
  }

  // ------------------------------------------------------- one use changes

  ghost predicate OneUse(sb: Super, m: Mid, m': Mid, u0: Use, b: nat)
    requires Sized(sb, m.st) && Sized(sb, m'.st)
  {
    forall u | IsUse(sb, u) :: Holds(sb, m', u) == if u == u0 then b else Holds(sb, m, u)
  }

  ghost predicate SameUses(sb: Super, m: Mid, m': Mid)
    requires Sized(sb, m.st) && Sized(sb, m'.st)
  {
    forall u | IsUse(sb, u) :: Holds(sb, m', u) == Holds(sb, m, u)
  }

  ghost predicate SameBits(sb: Super, st: Fs, st': Fs)
    requires Sized(sb, st) && Sized(sb, st')
  {
    forall b: nat | b < sb.size :: Bit(sb, st', b) == Bit(sb, st, b)
  }

  lemma UsedElsewhere(sb: Super, m: Mid, m': Mid, u0: Use, b: nat, x: nat)
    requires Sized(sb, m.st) && Sized(sb, m'.st) && IsUse(sb, u0) && OneUse(sb, m, m', u0, b)
    requires x != b && x != 0 && x != Holds(sb, m, u0)
    ensures InUse(sb, m', x) <==> InUse(sb, m, x)
  {
    hide Holds, Sized;
    if u :| IsUse(sb, u) && Holds(sb, m, u) == x { assert Holds(sb, m', u) == x; }
    if u :| IsUse(sb, u) && Holds(sb, m', u) == x { assert Holds(sb, m, u) == x; }
  }

  /** A free block comes into use, and its bit is set. */
  lemma UseBegins(sb: Super, m: Mid, m': Mid, u0: Use, b: nat)
    requires OwnedBy(sb, m) && Sized(sb, m'.st) && IsUse(sb, u0) && Holds(sb, m, u0) == 0
    requires b < sb.size && !Bit(sb, m.st, b) && OneUse(sb, m, m', u0, b) && OneBit(sb, m.st, m'.st, b, true)
    ensures OwnedBy(sb, m')
  {
    hide Holds, Bit;
    forall x | 0 <= x < sb.size
      ensures Bit(sb, m'.st, x) <==> x < sb.nmeta || InUse(sb, m', x)
    {
      if x == b {
        assert Holds(sb, m', u0) == b;
      } else if x >= sb.nmeta {
        UsedElsewhere(sb, m, m', u0, b, x);
      }
    }
  }

  /** A block goes out of its only use, and its bit is cleared. */
  lemma UseEnds(sb: Super, m: Mid, m': Mid, u0: Use)
    requires OwnedBy(sb, m) && Sized(sb, m'.st) && IsUse(sb, u0) && Holds(sb, m, u0) != 0
    requires OneUse(sb, m, m', u0, 0) && OneBit(sb, m.st, m'.st, Holds(sb, m, u0), false)
    ensures OwnedBy(sb, m')
  {
    hide Holds, Bit;
    var b := Holds(sb, m, u0);
    forall x | 0 <= x < sb.size
      ensures Bit(sb, m'.st, x) <==> x < sb.nmeta || InUse(sb, m', x)
    {
      if x == b {
        assert !InUse(sb, m', x);
      } else if x >= sb.nmeta {
        UsedElsewhere(sb, m, m', u0, 0, x);
      }
    }
  }

  lemma UsesStay(sb: Super, m: Mid, m': Mid)
    requires OwnedBy(sb, m) && Sized(sb, m'.st) && SameUses(sb, m, m') && SameBits(sb, m.st, m'.st)
    ensures OwnedBy(sb, m')
  {
    hide Holds, Bit;
    forall b | 0 <= b < sb.size
      ensures Bit(sb, m'.st, b) <==> b < sb.nmeta || InUse(sb, m', b)
    {
      if u :| IsUse(sb, u) && Holds(sb, m, u) == b { assert Holds(sb, m', u) == b; }
      if u :| IsUse(sb, u) && Holds(sb, m', u) == b { assert Holds(sb, m, u) == b; }
    }
  }

  /** A block passes from the process that took it to a slot. */
  ghost predicate Passed(sb: Super, m: Mid, m': Mid, p: nat, s: Slot)
    requires Sized(sb, m.st) && Sized(sb, m'.st) && p in m.pend
  {
    forall u | IsUse(sb, u) ::
      Holds(sb, m', u) == if u == Pend(p) then 0 else if u == At(s) then m.pend[p] else Holds(sb, m, u)
  }

  lemma UsePasses(sb: Super, m: Mid, m': Mid, p: nat, s: Slot)
    requires OwnedBy(sb, m) && Sized(sb, m'.st) && p in m.pend && IsSlot(sb, s) && Holds(sb, m, At(s)) == 0
    requires Passed(sb, m, m', p, s) && SameBits(sb, m.st, m'.st) && m.pend[p] != 0
    ensures OwnedBy(sb, m')
  {
    hide Holds, Bit;
    var b := m.pend[p];
    assert Holds(sb, m, Pend(p)) == b by { PendHolds(sb, m, p); }
    forall u, w | IsUse(sb, u) && IsUse(sb, w) && Holds(sb, m', u) == Holds(sb, m', w) != 0
      ensures u == w
    {
      assert Before(p, s, u) == Before(p, s, w);
    }
    forall x | 0 <= x < sb.size
      ensures Bit(sb, m'.st, x) <==> x < sb.nmeta || InUse(sb, m', x)
    {
      if x >= sb.nmeta { PassedInUse(sb, m, m', p, s, x); }
    }
  }

  /** The use that a block had before it passed to slot s. */
  function Before(p: nat, s: Slot, u: Use): Use {
    if u == At(s) then Pend(p) else u
  }

  lemma PassedInUse(sb: Super, m: Mid, m': Mid, p: nat, s: Slot, x: nat)
    requires Sized(sb, m.st) && Sized(sb, m'.st) && p in m.pend && IsSlot(sb, s) && Holds(sb, m, At(s)) == 0
    requires Passed(sb, m, m', p, s) && x != 0
    ensures InUse(sb, m', x) <==> InUse(sb, m, x)
  {
    hide Holds, Sized;
    PendHolds(sb, m, p);
    if u :| IsUse(sb, u) && Holds(sb, m, u) == x {
      assert Holds(sb, m', if u == Pend(p) then At(s) else u) == x;
    }
    if u :| IsUse(sb, u) && Holds(sb, m', u) == x {
      assert Holds(sb, m, Before(p, s, u)) == x;
    }
  }

  lemma PendHolds(sb: Super, m: Mid, p: nat)
    requires Sized(sb, m.st) && p in m.pend
    ensures Holds(sb, m, Pend(p)) == m.pend[p]
  {
  }

  // ------------------------------------------------ what one write can touch

  ghost predicate Touches(st: Fs, st': Fs, x: nat) {
    |st'.blocks| == |st.blocks| && forall y | 0 <= y < |st.blocks| && y != x :: st'.blocks[y] == st.blocks[y]
  }

  /** x is metadata, or it is in a use that is not a slot of file j. */
  ghost predicate Foreign(sb: Super, m: Mid, x: nat, u: Use, j: nat)
    requires Sized(sb, m.st)
  {
    x < sb.nmeta || (IsUse(sb, u) && Holds(sb, m, u) == x && !(u.At? && u.s.inum == j))
  }

  lemma NotOfFile(sb: Super, m: Mid, x: nat, u: Use, s: Slot)
    requires OwnedBy(sb, m) && Foreign(sb, m, x, u, s.inum) && IsSlot(sb, s) && !IsDead(m, s)
    requires Ref(sb, m.st, NONE, s) != 0
    ensures Ref(sb, m.st, NONE, s) != x && sb.nmeta <= Ref(sb, m.st, NONE, s) < sb.size
  {
    hide Bit, Ref;
    assert Holds(sb, m, At(s)) == Ref(sb, m.st, NONE, s);
  }

  /** The indirect block of a file is its own. */
  lemma IndirectIsOwn(sb: Super, m: Mid, x: nat, u: Use, j: nat)
    requires OwnedBy(sb, m) && j < sb.ninodes && Foreign(sb, m, x, u, j) && m.st.inodes[j].addrs[NDIRECT] != 0
    ensures m.st.inodes[j].addrs[NDIRECT] != x && sb.nmeta <= m.st.inodes[j].addrs[NDIRECT] < sb.size
  {
    hide Bit;
    assert Ref(sb, m.st, NONE, Indirect(j)) == m.st.inodes[j].addrs[NDIRECT];
    NotOfFile(sb, m, x, u, Indirect(j));
  }

  ghost predicate SameRefsOf(sb: Super, st: Fs, st': Fs, j: nat)
    requires Sized(sb, st) && Sized(sb, st')
  {
    forall s | IsSlot(sb, s) && s.inum == j :: Ref(sb, st', NONE, s) == Ref(sb, st, NONE, s)
  }

  ghost predicate SameBytesOf(sb: Super, st: Fs, st': Fs, j: nat)
    requires Sized(sb, st) && Sized(sb, st') && j < sb.ninodes
  {
    forall q: nat | q < MAXFILE * BSIZE :: ByteAt(sb, st', j, q) == ByteAt(sb, st, j, q)
  }

  /** File j is as it was: in memory, on disk, in its blocks; while it is being emptied its blocks do not matter. */
  ghost predicate SameFile(sb: Super, m: Mid, st': Fs, j: nat) {
    && Sized(sb, m.st) && Sized(sb, st') && j < sb.ninodes
    && st'.inodes[j] == m.st.inodes[j] && SameRefsOf(sb, m.st, st', j)
    && (j !in m.dead ==> SameBytesOf(sb, m.st, st', j))
    && DiskInode(sb, st', j) == DiskInode(sb, m.st, j)
  }

  lemma RefsElsewhere(sb: Super, m: Mid, st': Fs, x: nat, u: Use, j: nat)
    requires OwnedBy(sb, m) && Sized(sb, st') && Touches(m.st, st', x) && j < sb.ninodes
    requires st'.inodes[j].addrs == m.st.inodes[j].addrs && Foreign(sb, m, x, u, j)
    ensures SameRefsOf(sb, m.st, st', j)
  {
    hide Bit, GetWord, Foreign;
    if m.st.inodes[j].addrs[NDIRECT] != 0 { IndirectIsOwn(sb, m, x, u, j); }
  }

  lemma BytesElsewhere(sb: Super, m: Mid, st': Fs, x: nat, u: Use, j: nat)
    requires OwnedBy(sb, m) && Sized(sb, st') && Touches(m.st, st', x) && j < sb.ninodes && j !in m.dead
    requires SameRefsOf(sb, m.st, st', j) && Foreign(sb, m, x, u, j)
    ensures SameBytesOf(sb, m.st, st', j)
  {
    hide Bit, Ref, Foreign;
    forall q: nat | q < MAXFILE * BSIZE
      ensures ByteAt(sb, st', j, q) == ByteAt(sb, m.st, j, q)
    {
      var s := DataSlot(j, q / BSIZE);
      assert IsSlot(sb, s) && s.inum == j && !IsDead(m, s);
      if Ref(sb, m.st, NONE, s) != 0 { NotOfFile(sb, m, x, u, s); }
    }
  }

  lemma DiskElsewhere(sb: Super, st: Fs, st': Fs, x: nat, j: nat)
    requires Sized(sb, st) && Sized(sb, st') && Touches(st, st', x) && j < sb.ninodes && sb.bmapstart <= x
    ensures DiskInode(sb, st', j) == DiskInode(sb, st, j)
  {
    hide GetInode;
    assert j / IPB <= sb.ninodes / IPB;
  }

  /** Writing a block of the free map, or one in use elsewhere, leaves file j alone. */
  lemma Elsewhere(sb: Super, m: Mid, st': Fs, x: nat, u: Use, j: nat)
    requires OwnedBy(sb, m) && Sized(sb, st') && Touches(m.st, st', x) && j < sb.ninodes
    requires st'.inodes[j] == m.st.inodes[j] && Foreign(sb, m, x, u, j) && sb.bmapstart <= x
    ensures SameFile(sb, m, st', j)
  {
    hide Bit, Ref, Foreign, ByteAt, DiskInode, Touches;
    RefsElsewhere(sb, m, st', x, u, j);
    if j !in m.dead { BytesElsewhere(sb, m, st', x, u, j); }
    DiskElsewhere(sb, m.st, st', x, j);
  }

  lemma SlotStays(sb: Super, m: Mid, m': Mid, s: Slot)
    requires Sized(sb, m.st) && Sized(sb, m'.st) && IsSlot(sb, s) && SameRefsOf(sb, m.st, m'.st, s.inum)
    requires IsDead(m', s) <==> IsDead(m, s)
    ensures Holds(sb, m', At(s)) == Holds(sb, m, At(s))
  {
    hide Ref;
  }

  /** No slot changes, and what processes have taken does. */
  lemma PendChanges(sb: Super, m: Mid, m': Mid)
    requires Sized(sb, m.st) && Sized(sb, m'.st) && m'.dead == m.dead
    requires forall j: nat | j < sb.ninodes :: SameFile(sb, m, m'.st, j)
    ensures forall u | IsUse(sb, u) && u.At? :: Holds(sb, m', u) == Holds(sb, m, u)
  {
    hide Ref, Holds, ByteAt, DiskInode;
    forall u | IsUse(sb, u) && u.At?
      ensures Holds(sb, m', u) == Holds(sb, m, u)
    {
      assert SameFile(sb, m, m'.st, u.s.inum);
      SlotStays(sb, m, m', u.s);
    }
  }

  lemma BitsOutsideMap(sb: Super, st: Fs, st': Fs, x: nat)
    requires Sized(sb, st) && Sized(sb, st') && Touches(st, st', x) && !(sb.bmapstart <= x < sb.nmeta)
    ensures SameBits(sb, st, st')
  {
    hide Bit;
    BitFrame(sb, st, st');
  }

  // ------------------------------------------------------------ allocating

  function Blocked(m: Mid, blocks: seq<Block>): Mid {
    m.(st := m.st.(blocks := blocks))
  }

  /** balloc, first write: the bit of a free block is set on behalf of process p. */
  function Marked(sb: Super, m: Mid, p: nat, b: nat): Mid
    requires Sized(sb, m.st) && b < sb.size
  {
    Blocked(m, WithBit(sb, m.st.blocks, b, true)).(pend := m.pend[p := b])
  }

  lemma MarkedKeeps(sb: Super, m: Mid, p: nat, b: nat)
    requires OwnedBy(sb, m) && p !in m.pend && b < sb.size && !Bit(sb, m.st, b)
    ensures OwnedBy(sb, Marked(sb, m, p, b)) && sb.nmeta <= b
    ensures Touches(m.st, Marked(sb, m, p, b).st, sb.BBlock(b)) && sb.bmapstart <= sb.BBlock(b) < sb.nmeta
    ensures forall j: nat | j < sb.ninodes :: SameFile(sb, m, Marked(sb, m, p, b).st, j)
  {
    hide Bit, Ref, MarkBit, ByteAt, DiskInode;
    var m' := Marked(sb, m, p, b);
    BBlockIsMeta(sb, b);
    WithBitSets(sb, m.st, b, true);
    forall j: nat | j < sb.ninodes
      ensures SameFile(sb, m, m'.st, j)
    {
      Elsewhere(sb, m, m'.st, sb.BBlock(b), Pend(p), j);
    }
    PendChanges(sb, m, m');
    assert OneUse(sb, m, m', Pend(p), b);
    UseBegins(sb, m, m', Pend(p), b);
  }

  /** balloc, second write: the block is zeroed. */
  function Zeroed(m: Mid, p: nat): Mid
    requires p in m.pend && m.pend[p] < |m.st.blocks|
  {
    Blocked(m, m.st.blocks[m.pend[p] := ZeroBlock()])
  }

  lemma PendInRange(sb: Super, m: Mid, p: nat)
    requires OwnedBy(sb, m) && p in m.pend && m.pend[p] != 0
    ensures sb.nmeta <= m.pend[p] < sb.size && Holds(sb, m, Pend(p)) == m.pend[p]
    ensures forall j: nat :: Foreign(sb, m, m.pend[p], Pend(p), j)
  {
    hide Bit, Ref;
    PendHolds(sb, m, p);
  }

  lemma ZeroedKeeps(sb: Super, m: Mid, p: nat)
    requires OwnedBy(sb, m) && p in m.pend && m.pend[p] != 0
    ensures m.pend[p] < sb.size && OwnedBy(sb, Zeroed(m, p)) && Touches(m.st, Zeroed(m, p).st, m.pend[p])
    ensures forall j: nat | j < sb.ninodes :: SameFile(sb, m, Zeroed(m, p).st, j)
  {
    hide Bit, Ref, ByteAt, DiskInode, Foreign;
    PendInRange(sb, m, p);
    var m' := Zeroed(m, p);
    forall j: nat | j < sb.ninodes
      ensures SameFile(sb, m, m'.st, j)
    {
      Elsewhere(sb, m, m'.st, m.pend[p], Pend(p), j);
    }
    PendChanges(sb, m, m');
    BitsOutsideMap(sb, m.st, m'.st, m.pend[p]);
    UsesStay(sb, m, m');
  }

  /** The only slot of file i that changes is s0, which gets b. */
  ghost predicate OneSlotOf(sb: Super, st: Fs, st': Fs, i: nat, s0: Slot, b: nat)
    requires Sized(sb, st) && Sized(sb, st')
  {
    forall s | IsSlot(sb, s) && s.inum == i :: Ref(sb, st', NONE, s) == if s == s0 then b else Ref(sb, st, NONE, s)
  }

  /** Slot by slot of all files: only s0 of file i changes. */
  lemma SlotsBut(sb: Super, m: Mid, m': Mid, i: nat, s0: Slot, b: nat)
    requires Sized(sb, m.st) && Sized(sb, m'.st) && m'.dead == m.dead && i !in m.dead && s0.inum == i < sb.ninodes
    requires forall j: nat | j < sb.ninodes && j != i :: SameFile(sb, m, m'.st, j)
    requires OneSlotOf(sb, m.st, m'.st, i, s0, b)
    ensures forall u | IsUse(sb, u) && u.At? :: Holds(sb, m', u) == if u == At(s0) then b else Holds(sb, m, u)
  {
    hide Ref, ByteAt, DiskInode;
    forall u | IsUse(sb, u) && u.At?
      ensures Holds(sb, m', u) == if u == At(s0) then b else Holds(sb, m, u)
    {
      if u.s.inum != i {
        assert SameFile(sb, m, m'.st, u.s.inum);
        SlotStays(sb, m, m', u.s);
      }
    }
  }

  /** A zeroed block in place of a missing one shows in no byte. */
  lemma ZeroShowsNothing(sb: Super, m: Mid, st': Fs, i: nat, s0: Slot, b: nat, x: nat)
    requires OwnedBy(sb, m) && Sized(sb, st') && i < sb.ninodes && i !in m.dead && Touches(m.st, st', x)
    requires IsSlot(sb, s0) && s0.inum == i && Ref(sb, m.st, NONE, s0) == 0
    requires OneSlotOf(sb, m.st, st', i, s0, b) && sb.nmeta <= b < sb.size && st'.blocks[b] == ZeroBlock()
    requires forall s | IsSlot(sb, s) && s.inum == i && !s.Indirect? && Ref(sb, m.st, NONE, s) != 0 ::
      Ref(sb, m.st, NONE, s) != x && Ref(sb, m.st, NONE, s) < sb.size
    ensures SameBytesOf(sb, m.st, st', i)
  {
    hide Bit, Ref;
    forall q: nat | q < MAXFILE * BSIZE
      ensures ByteAt(sb, st', i, q) == ByteAt(sb, m.st, i, q)
    {
      var s := DataSlot(i, q / BSIZE);
      assert IsSlot(sb, s) && s.inum == i;
    }
  }

  /** bmap enters the zeroed block in the inode; with the second write of balloc. */
  function Attached(m: Mid, p: nat, i: nat, k: nat): Mid
    requires p in m.pend && m.pend[p] < |m.st.blocks| <= UINT_LIMIT && i < |m.st.inodes| && k < |m.st.inodes[i].addrs|
  {
    var b := m.pend[p];
    Mid(WithAddr(m.st.(blocks := m.st.blocks[b := ZeroBlock()]), i, k, b), m.dead, m.pend - {p})
  }

  lemma AttachedRefs(sb: Super, m: Mid, p: nat, i: nat, k: nat)
    requires OwnedBy(sb, m) && p in m.pend && 0 < m.pend[p] < sb.size && i < sb.ninodes && k <= NDIRECT
    requires m.st.inodes[i].addrs[k] == 0
    ensures Sized(sb, Attached(m, p, i, k).st)
    ensures OneSlotOf(sb, m.st, Attached(m, p, i, k).st, i, InodeSlot(i, k), m.pend[p])
  {
    hide Bit, GetWord, Foreign;
    var b := m.pend[p];
    var st' := Attached(m, p, i, k).st;
    PendInRange(sb, m, p);
    if m.st.inodes[i].addrs[NDIRECT] != 0 { IndirectIsOwn(sb, m, b, Pend(p), i); }
    forall s | IsSlot(sb, s) && s.inum == i
      ensures Ref(sb, st', NONE, s) == if s == InodeSlot(i, k) then b else Ref(sb, m.st, NONE, s)
    {
      if s.Entry? { ZeroWords(s.k); }
    }
  }

  lemma OwnSlotsApart(sb: Super, m: Mid, x: nat, u: Use, i: nat)
    requires OwnedBy(sb, m) && Foreign(sb, m, x, u, i) && i < sb.ninodes && i !in m.dead
    ensures forall s | IsSlot(sb, s) && s.inum == i && Ref(sb, m.st, NONE, s) != 0 ::
      Ref(sb, m.st, NONE, s) != x && Ref(sb, m.st, NONE, s) < sb.size
  {
    hide Ref, Bit, Foreign;
    forall s | IsSlot(sb, s) && s.inum == i && Ref(sb, m.st, NONE, s) != 0
      ensures Ref(sb, m.st, NONE, s) != x && Ref(sb, m.st, NONE, s) < sb.size
    {
      NotOfFile(sb, m, x, u, s);
    }
  }

  lemma AttachedKeeps(sb: Super, m: Mid, p: nat, i: nat, k: nat)
    requires OwnedBy(sb, m) && p in m.pend && 0 < m.pend[p] < sb.size && i < sb.ninodes && k <= NDIRECT
    requires m.st.inodes[i].addrs[k] == 0 && i !in m.dead
    ensures OwnedBy(sb, Attached(m, p, i, k)) && Touches(m.st, Attached(m, p, i, k).st, m.pend[p])
    ensures forall j: nat | j < sb.ninodes && j != i :: SameFile(sb, m, Attached(m, p, i, k).st, j)
    ensures OneSlotOf(sb, m.st, Attached(m, p, i, k).st, i, InodeSlot(i, k), m.pend[p])
    ensures SameBytesOf(sb, m.st, Attached(m, p, i, k).st, i)
    ensures DiskInode(sb, Attached(m, p, i, k).st, i) == DiskInode(sb, m.st, i)
  {
    hide Bit, Ref, ByteAt, DiskInode, Foreign;
    var b := m.pend[p];
    var m' := Attached(m, p, i, k);
    PendInRange(sb, m, p);
    AttachedRefs(sb, m, p, i, k);
    forall j: nat | j < sb.ninodes && j != i
      ensures SameFile(sb, m, m'.st, j)
    {
      Elsewhere(sb, m, m'.st, b, Pend(p), j);
    }
    DiskElsewhere(sb, m.st, m'.st, b, i);
    InodeSlotRef(sb, m.st, i, k);
    OwnSlotsApart(sb, m, b, Pend(p), i);
    ZeroShowsNothing(sb, m, m'.st, i, InodeSlot(i, k), b, b);
    SlotsBut(sb, m, m', i, InodeSlot(i, k), b);
    BitsOutsideMap(sb, m.st, m'.st, b);
    assert Passed(sb, m, m', p, InodeSlot(i, k));
    UsePasses(sb, m, m', p, InodeSlot(i, k));
  }

  /** bmap enters the zeroed block in the indirect block. */
  function Entered(sb: Super, m: Mid, p: nat, i: nat, k: nat): Mid
    requires Sized(sb, m.st) && p in m.pend && m.pend[p] < UINT_LIMIT && i < sb.ninodes && k < NINDIRECT
    requires 0 < m.st.inodes[i].addrs[NDIRECT] < sb.size
  {
    Mid(WithEntry(sb, m.st, i, k, m.pend[p]), m.dead, m.pend - {p})
  }

  lemma EnteredRefs(sb: Super, m: Mid, p: nat, i: nat, k: nat)
    requires OwnedBy(sb, m) && p in m.pend && 0 < m.pend[p] < sb.size && i < sb.ninodes && k < NINDIRECT
    requires 0 < m.st.inodes[i].addrs[NDIRECT] < sb.size
    ensures Sized(sb, Entered(sb, m, p, i, k).st)
    ensures OneSlotOf(sb, m.st, Entered(sb, m, p, i, k).st, i, Entry(i, k), m.pend[p])
  {
    hide Bit, GetWord, PutWord;
  }

  lemma IndirectUse(sb: Super, m: Mid, i: nat)
    requires OwnedBy(sb, m) && i < sb.ninodes && m.st.inodes[i].addrs[NDIRECT] != 0
    ensures sb.nmeta <= m.st.inodes[i].addrs[NDIRECT] < sb.size
    ensures Holds(sb, m, At(Indirect(i))) == m.st.inodes[i].addrs[NDIRECT]
    ensures forall j: nat | j != i :: Foreign(sb, m, m.st.inodes[i].addrs[NDIRECT], At(Indirect(i)), j)
  {
    hide Bit, GetWord;
    assert Holds(sb, m, At(Indirect(i))) == m.st.inodes[i].addrs[NDIRECT];
  }

  /** Data blocks are not the indirect block. */
  lemma DataNotIndirect(sb: Super, m: Mid, i: nat)
    requires OwnedBy(sb, m) && i < sb.ninodes && i !in m.dead && m.st.inodes[i].addrs[NDIRECT] != 0
    ensures forall s | IsSlot(sb, s) && s.inum == i && !s.Indirect? && Ref(sb, m.st, NONE, s) != 0 ::
      Ref(sb, m.st, NONE, s) != m.st.inodes[i].addrs[NDIRECT] && Ref(sb, m.st, NONE, s) < sb.size
  {
    hide Ref, Bit;
    IndirectUse(sb, m, i);
    forall s | IsSlot(sb, s) && s.inum == i && !s.Indirect? && Ref(sb, m.st, NONE, s) != 0
      ensures Ref(sb, m.st, NONE, s) != m.st.inodes[i].addrs[NDIRECT] && Ref(sb, m.st, NONE, s) < sb.size
    {
      assert Holds(sb, m, At(s)) == Ref(sb, m.st, NONE, s) && At(s) != At(Indirect(i));
    }
  }

  lemma EnteredKeeps(sb: Super, m: Mid, p: nat, i: nat, k: nat)
    requires OwnedBy(sb, m) && p in m.pend && 0 < m.pend[p] < sb.size && i < sb.ninodes && k < NINDIRECT
    requires m.st.inodes[i].addrs[NDIRECT] != 0 && i !in m.dead
    requires Ref(sb, m.st, NONE, Entry(i, k)) == 0 && m.st.blocks[m.pend[p]] == ZeroBlock()
    ensures m.st.inodes[i].addrs[NDIRECT] < sb.size
    ensures OwnedBy(sb, Entered(sb, m, p, i, k))
    ensures Touches(m.st, Entered(sb, m, p, i, k).st, m.st.inodes[i].addrs[NDIRECT])
    ensures forall j: nat | j < sb.ninodes && j != i :: SameFile(sb, m, Entered(sb, m, p, i, k).st, j)
    ensures OneSlotOf(sb, m.st, Entered(sb, m, p, i, k).st, i, Entry(i, k), m.pend[p])
    ensures SameBytesOf(sb, m.st, Entered(sb, m, p, i, k).st, i)
    ensures DiskInode(sb, Entered(sb, m, p, i, k).st, i) == DiskInode(sb, m.st, i)
  {
    hide Bit, Ref, ByteAt, DiskInode, Foreign, PutWord;
    var a, b := m.st.inodes[i].addrs[NDIRECT], m.pend[p];
    IndirectUse(sb, m, i);
    PendInRange(sb, m, p);
    IndirectIsOwn(sb, m, b, Pend(p), i);
    var m' := Entered(sb, m, p, i, k);
    EnteredRefs(sb, m, p, i, k);
    forall j: nat | j < sb.ninodes && j != i
      ensures SameFile(sb, m, m'.st, j)
    {
      Elsewhere(sb, m, m'.st, a, At(Indirect(i)), j);
    }
    DiskElsewhere(sb, m.st, m'.st, a, i);
    DataNotIndirect(sb, m, i);
    ZeroShowsNothing(sb, m, m'.st, i, Entry(i, k), b, a);
    SlotsBut(sb, m, m', i, Entry(i, k), b);
    BitsOutsideMap(sb, m.st, m'.st, a);
    assert Passed(sb, m, m', p, Entry(i, k));
    UsePasses(sb, m, m', p, Entry(i, k));
  }

  // --------------------------------------------------------- data and inodes

  function Stored(sb: Super, m: Mid, i: nat, n: nat, blk: Block): Mid
    requires Sized(sb, m.st) && i < sb.ninodes && n < MAXFILE && Addr(sb, m.st, i, n) < sb.size
  {
    Blocked(m, m.st.blocks[Addr(sb, m.st, i, n) := blk])
  }

  /** Block n of file i has these contents, the others their own. */
  ghost predicate BlockOver(sb: Super, st: Fs, st': Fs, i: nat, n: nat, blk: Block)
    requires Sized(sb, st) && Sized(sb, st') && i < sb.ninodes
  {
    forall q: nat | q < MAXFILE * BSIZE ::
      ByteAt(sb, st', i, q) == if q / BSIZE == n then blk[q % BSIZE] else ByteAt(sb, st, i, q)
  }

  lemma DataUse(sb: Super, m: Mid, i: nat, n: nat)
    requires OwnedBy(sb, m) && i < sb.ninodes && i !in m.dead && n < MAXFILE && Addr(sb, m.st, i, n) != 0
    ensures sb.nmeta <= Addr(sb, m.st, i, n) < sb.size && m.st.inodes[i].addrs[NDIRECT] != Addr(sb, m.st, i, n)
    ensures forall j: nat | j != i :: Foreign(sb, m, Addr(sb, m.st, i, n), At(DataSlot(i, n)), j)
    ensures forall h: nat | h < MAXFILE && h != n :: Addr(sb, m.st, i, h) != Addr(sb, m.st, i, n)
  {
    hide Bit, Ref;
    var s := DataSlot(i, n);
    assert Holds(sb, m, At(s)) == Addr(sb, m.st, i, n);
    forall h: nat | h < MAXFILE && h != n
      ensures Addr(sb, m.st, i, h) != Addr(sb, m.st, i, n)
    {
      assert Holds(sb, m, At(DataSlot(i, h))) == Addr(sb, m.st, i, h) && At(DataSlot(i, h)) != At(s);
    }
    if m.st.inodes[i].addrs[NDIRECT] != 0 { DataNotIndirect(sb, m, i); }
  }

  lemma StoredRefs(sb: Super, m: Mid, i: nat, n: nat, blk: Block)
    requires OwnedBy(sb, m) && i < sb.ninodes && i !in m.dead && n < MAXFILE && Addr(sb, m.st, i, n) != 0
    ensures Addr(sb, m.st, i, n) < sb.size && SameRefsOf(sb, m.st, Stored(sb, m, i, n, blk).st, i)
  {
    hide Bit, GetWord, Foreign;
    DataUse(sb, m, i, n);
  }

  /** writei's write into one data block. */
  lemma StoredKeeps(sb: Super, m: Mid, i: nat, n: nat, blk: Block)
    requires OwnedBy(sb, m) && i < sb.ninodes && i !in m.dead && n < MAXFILE && Addr(sb, m.st, i, n) != 0
    ensures Addr(sb, m.st, i, n) < sb.size && OwnedBy(sb, Stored(sb, m, i, n, blk))
    ensures Touches(m.st, Stored(sb, m, i, n, blk).st, Addr(sb, m.st, i, n))
    ensures forall j: nat | j < sb.ninodes && j != i :: SameFile(sb, m, Stored(sb, m, i, n, blk).st, j)
    ensures SameRefsOf(sb, m.st, Stored(sb, m, i, n, blk).st, i)
    ensures DiskInode(sb, Stored(sb, m, i, n, blk).st, i) == DiskInode(sb, m.st, i)
    ensures BlockOver(sb, m.st, Stored(sb, m, i, n, blk).st, i, n, blk)
  {
    hide Bit, Ref, DiskInode, Foreign;
    DataUse(sb, m, i, n);
    var a := Addr(sb, m.st, i, n);
    var m' := Stored(sb, m, i, n, blk);
    StoredRefs(sb, m, i, n, blk);
    StoredBytes(sb, m, i, n, blk);
    hide ByteAt;
    forall j: nat | j < sb.ninodes && j != i
      ensures SameFile(sb, m, m'.st, j)
    {
      Elsewhere(sb, m, m'.st, a, At(DataSlot(i, n)), j);
    }
    DiskElsewhere(sb, m.st, m'.st, a, i);
    AllSlotsStay(sb, m, m', i);
    BitsOutsideMap(sb, m.st, m'.st, a);
    UsesStay(sb, m, m');
  }

  lemma StoredBytes(sb: Super, m: Mid, i: nat, n: nat, blk: Block)
    requires OwnedBy(sb, m) && i < sb.ninodes && i !in m.dead && n < MAXFILE && Addr(sb, m.st, i, n) != 0
    requires Addr(sb, m.st, i, n) < sb.size && SameRefsOf(sb, m.st, Stored(sb, m, i, n, blk).st, i)
    ensures BlockOver(sb, m.st, Stored(sb, m, i, n, blk).st, i, n, blk)
  {
    hide Bit, Ref, Foreign;
    DataUse(sb, m, i, n);
    var st' := Stored(sb, m, i, n, blk).st;
    forall q: nat | q < MAXFILE * BSIZE
      ensures ByteAt(sb, st', i, q) == if q / BSIZE == n then blk[q % BSIZE] else ByteAt(sb, m.st, i, q)
    {
      var s := DataSlot(i, q / BSIZE);
      assert IsSlot(sb, s) && s.inum == i;
      assert Addr(sb, st', i, q / BSIZE) == Addr(sb, m.st, i, q / BSIZE);
    }
  }

  lemma AllSlotsStay(sb: Super, m: Mid, m': Mid, i: nat)
    requires Sized(sb, m.st) && Sized(sb, m'.st) && m'.dead == m.dead && m'.pend == m.pend
    requires forall j: nat | j < sb.ninodes && j != i :: SameFile(sb, m, m'.st, j)
    requires i < sb.ninodes && SameRefsOf(sb, m.st, m'.st, i)
    ensures SameUses(sb, m, m')
  {
    hide Ref, ByteAt, DiskInode, Holds;
    forall u | IsUse(sb, u)
      ensures Holds(sb, m', u) == Holds(sb, m, u)
    {
      match u
      case At(s) =>
        assert s.inum != i ==> SameFile(sb, m, m'.st, s.inum);
        SlotStays(sb, m, m', s);
      case Pend(p) => SamePend(sb, m, m', p);
    }
  }

  lemma SamePend(sb: Super, m: Mid, m': Mid, p: nat)
    requires Sized(sb, m.st) && Sized(sb, m'.st) && m'.pend == m.pend
    ensures Holds(sb, m', Pend(p)) == Holds(sb, m, Pend(p))
  {
  }

  /** iupdate, together with the change of the inode in memory that precedes it. */
  function WithSize(sb: Super, m: Mid, i: nat, size: Word): Mid
    requires Sized(sb, m.st) && i < sb.ninodes
  {
    var st := m.st.(inodes := m.st.inodes[i := m.st.inodes[i].(size := size)]);
    m.(st := Updated(sb, st, i))
  }

  lemma WithSizeDisk(sb: Super, m: Mid, i: nat, size: Word, j: nat)
    requires Sized(sb, m.st) && i < sb.ninodes && j < sb.ninodes
    ensures Sized(sb, WithSize(sb, m, i, size).st)
    ensures DiskInode(sb, WithSize(sb, m, i, size).st, j)
        == if j == i then m.st.inodes[i].(size := size) else DiskInode(sb, m.st, j)
  {
    hide GetInode, PutInode;
    assert i / IPB <= sb.ninodes / IPB && j / IPB <= sb.ninodes / IPB;
    if sb.IBlock(j) == sb.IBlock(i) {
      PutInodeReads(m.st.blocks[sb.IBlock(i)], i % IPB, m.st.inodes[i].(size := size), j % IPB);
      assert j % IPB == i % IPB ==> j == i;
    }
  }

  lemma InodeBlockIsMeta(sb: Super, i: nat)
    requires sb.Valid() && i < sb.ninodes
    ensures sb.inodestart <= sb.IBlock(i) < sb.bmapstart
  {
    assert i / IPB <= sb.ninodes / IPB;
  }

  lemma WithSizeKeeps(sb: Super, m: Mid, i: nat, size: Word)
    requires OwnedBy(sb, m) && i < sb.ninodes
    ensures OwnedBy(sb, WithSize(sb, m, i, size)) && Touches(m.st, WithSize(sb, m, i, size).st, sb.IBlock(i))
    ensures forall j: nat | j < sb.ninodes && j != i :: SameFile(sb, m, WithSize(sb, m, i, size).st, j)
    ensures SameRefsOf(sb, m.st, WithSize(sb, m, i, size).st, i) && Synced(sb, WithSize(sb, m, i, size).st, i)
    ensures i !in m.dead ==> SameBytesOf(sb, m.st, WithSize(sb, m, i, size).st, i)
  {
    hide Bit, Ref, DiskInode, Foreign, ByteAt;
    var m' := WithSize(sb, m, i, size);
    var x := sb.IBlock(i);
    InodeBlockIsMeta(sb, i);
    forall j: nat | j < sb.ninodes
      ensures SameRefsOf(sb, m.st, m'.st, j) && (j !in m.dead ==> SameBytesOf(sb, m.st, m'.st, j))
      ensures j != i ==> SameFile(sb, m, m'.st, j)
      ensures j == i ==> Synced(sb, m'.st, j)
    {
      assert Foreign(sb, m, x, Pend(0), j) by { MetaForeign(sb, m, x, j); }
      WithSizeDisk(sb, m, i, size, j);
      RefsElsewhere(sb, m, m'.st, x, Pend(0), j);
      if j !in m.dead { BytesElsewhere(sb, m, m'.st, x, Pend(0), j); }
    }
    AllSlotsStay(sb, m, m', i);
    BitsOutsideMap(sb, m.st, m'.st, x);
    UsesStay(sb, m, m');
  }

  lemma MetaForeign(sb: Super, m: Mid, x: nat, j: nat)
    requires Sized(sb, m.st) && x < sb.nmeta
    ensures Foreign(sb, m, x, Pend(0), j)
  {
  }

  // --------------------------------------------------------------- freeing

  /** itrunc: the bit of a direct block is cleared, and the inode forgets it. */
  function FreedAddr(sb: Super, m: Mid, i: nat, k: nat): Mid
    requires Sized(sb, m.st) && i < sb.ninodes && k <= NDIRECT && m.st.inodes[i].addrs[k] < sb.size
  {
    var b := m.st.inodes[i].addrs[k];
    Mid(WithAddr(m.st.(blocks := WithBit(sb, m.st.blocks, b, false)), i, k, 0), m.dead - {i}, m.pend)
  }

  /** The bit of entry k is cleared; the entry itself stays. */
  function FreedEntry(sb: Super, m: Mid, i: nat, k: nat): Mid
    requires Sized(sb, m.st) && i < sb.ninodes && k < NINDIRECT && Ref(sb, m.st, NONE, Entry(i, k)) < sb.size
  {
    var b := Ref(sb, m.st, NONE, Entry(i, k));
    var blocks := if b == 0 then m.st.blocks else WithBit(sb, m.st.blocks, b, false);
    Mid(m.st.(blocks := blocks), m.dead[i := k + 1], m.pend)
  }

  lemma MapElsewhere(sb: Super, m: Mid, st': Fs, b: nat, j: nat)
    requires OwnedBy(sb, m) && Sized(sb, st') && b < sb.size && Touches(m.st, st', sb.BBlock(b)) && j < sb.ninodes
    requires st'.inodes[j] == m.st.inodes[j]
    ensures SameFile(sb, m, st', j)
  {
    hide Bit, Ref, DiskInode, Foreign, ByteAt;
    BBlockIsMeta(sb, b);
    MetaForeign(sb, m, sb.BBlock(b), j);
    Elsewhere(sb, m, st', sb.BBlock(b), Pend(0), j);
  }

  lemma FreedDirectKeeps(sb: Super, m: Mid, i: nat, k: nat)
    requires OwnedBy(sb, m) && i < sb.ninodes && k < NDIRECT && m.st.inodes[i].addrs[k] != 0 && i !in m.dead
    ensures sb.nmeta <= m.st.inodes[i].addrs[k] < sb.size && Bit(sb, m.st, m.st.inodes[i].addrs[k])
    ensures OwnedBy(sb, FreedAddr(sb, m, i, k))
    ensures Touches(m.st, FreedAddr(sb, m, i, k).st, sb.BBlock(m.st.inodes[i].addrs[k]))
    ensures forall j: nat | j < sb.ninodes && j != i :: SameFile(sb, m, FreedAddr(sb, m, i, k).st, j)
  {
    hide Bit, MarkBit, DiskInode, Foreign, ByteAt, GetWord;
    var b := m.st.inodes[i].addrs[k];
    var u := At(Direct(i, k));
    assert Holds(sb, m, u) == b;
    var m' := FreedAddr(sb, m, i, k);
    BBlockIsMeta(sb, b);
    WithBitSets(sb, m.st, b, false);
    BitFrame(sb, m.st.(blocks := m'.st.blocks), m'.st);
    FreedAddrRefs(sb, m, i, k);
    hide Ref;
    forall j: nat | j < sb.ninodes && j != i
      ensures SameFile(sb, m, m'.st, j)
    {
      MapElsewhere(sb, m, m'.st, b, j);
    }
    assert m'.dead == m.dead;
    SlotsBut(sb, m, m', i, Direct(i, k), 0);
    assert OneUse(sb, m, m', u, 0);
    UseEnds(sb, m, m', u);
  }

  lemma FreedAddrRefs(sb: Super, m: Mid, i: nat, k: nat)
    requires OwnedBy(sb, m) && i < sb.ninodes && k < NDIRECT && sb.nmeta <= m.st.inodes[i].addrs[k] < sb.size
    ensures Sized(sb, FreedAddr(sb, m, i, k).st)
    ensures OneSlotOf(sb, m.st, FreedAddr(sb, m, i, k).st, i, Direct(i, k), 0)
  {
    hide Bit, MarkBit, GetWord, Foreign;
    var b := m.st.inodes[i].addrs[k];
    BBlockIsMeta(sb, b);
    MetaForeign(sb, m, sb.BBlock(b), i);
    if m.st.inodes[i].addrs[NDIRECT] != 0 { IndirectIsOwn(sb, m, sb.BBlock(b), Pend(0), i); }
  }

  lemma EntryUses(sb: Super, m: Mid, i: nat, k: nat)
    requires OwnedBy(sb, m) && i < sb.ninodes && k < NINDIRECT && i in m.dead && m.dead[i] == k
    ensures Ref(sb, m.st, NONE, Entry(i, k)) != 0 ==>
        sb.nmeta <= Ref(sb, m.st, NONE, Entry(i, k)) < sb.size && Bit(sb, m.st, Ref(sb, m.st, NONE, Entry(i, k)))
    ensures Ref(sb, m.st, NONE, Entry(i, k)) < sb.size && Sized(sb, FreedEntry(sb, m, i, k).st)
    ensures OneUse(sb, m, FreedEntry(sb, m, i, k), At(Entry(i, k)), 0)
    ensures forall j: nat | j < sb.ninodes :: SameFile(sb, m, FreedEntry(sb, m, i, k).st, j)
    ensures Ref(sb, m.st, NONE, Entry(i, k)) != 0 ==>
        Touches(m.st, FreedEntry(sb, m, i, k).st, sb.BBlock(Ref(sb, m.st, NONE, Entry(i, k))))
  {
    hide Bit, MarkBit, DiskInode, Foreign, ByteAt, Ref;
    var u := At(Entry(i, k));
    var b := Ref(sb, m.st, NONE, Entry(i, k));
    assert Holds(sb, m, u) == b;
    assert b != 0 ==> InUse(sb, m, b);
    var m' := FreedEntry(sb, m, i, k);
    if b != 0 { BBlockIsMeta(sb, b); }
    forall j: nat | j < sb.ninodes
      ensures SameFile(sb, m, m'.st, j)
    {
      MapElsewhere(sb, m, m'.st, b, j);
    }
    forall w | IsUse(sb, w)
      ensures Holds(sb, m', w) == if w == u then 0 else Holds(sb, m, w)
    {
      if w.At? { assert SameFile(sb, m, m'.st, w.s.inum); }
    }
  }

  lemma FreedEntryKeeps(sb: Super, m: Mid, i: nat, k: nat)
    requires OwnedBy(sb, m) && i < sb.ninodes && k < NINDIRECT && i in m.dead && m.dead[i] == k
    ensures Ref(sb, m.st, NONE, Entry(i, k)) < sb.size && OwnedBy(sb, FreedEntry(sb, m, i, k))
  {
    hide Bit, MarkBit, DiskInode, Foreign, ByteAt, Ref;
    var b := Ref(sb, m.st, NONE, Entry(i, k));
    var u := At(Entry(i, k));
    assert Holds(sb, m, u) == b;
    EntryUses(sb, m, i, k);
    var m' := FreedEntry(sb, m, i, k);
    if b == 0 {
      UsesStay(sb, m, m');
    } else {
      WithBitSets(sb, m.st, b, false);
      UseEnds(sb, m, m', u);
    }
  }

  /** itrunc frees the indirect block when all its entries are gone. */
  lemma FreedIndirectKeeps(sb: Super, m: Mid, i: nat)
    requires OwnedBy(sb, m) && i < sb.ninodes && m.st.inodes[i].addrs[NDIRECT] != 0
    requires i in m.dead && m.dead[i] == NINDIRECT
    ensures sb.nmeta <= m.st.inodes[i].addrs[NDIRECT] < sb.size && Bit(sb, m.st, m.st.inodes[i].addrs[NDIRECT])
    ensures OwnedBy(sb, FreedAddr(sb, m, i, NDIRECT))
    ensures Touches(m.st, FreedAddr(sb, m, i, NDIRECT).st, sb.BBlock(m.st.inodes[i].addrs[NDIRECT]))
    ensures forall j: nat | j < sb.ninodes && j != i :: SameFile(sb, m, FreedAddr(sb, m, i, NDIRECT).st, j)
  {
    hide Bit, MarkBit, DiskInode, Foreign, ByteAt, GetWord;
    var b := m.st.inodes[i].addrs[NDIRECT];
    var u := At(Indirect(i));
    IndirectUse(sb, m, i);
    var m' := FreedAddr(sb, m, i, NDIRECT);
    assert InUse(sb, m, b) by { assert Holds(sb, m, u) == b; }
    BBlockIsMeta(sb, b);
    WithBitSets(sb, m.st, b, false);
    BitFrame(sb, m.st.(blocks := m'.st.blocks), m'.st);
    forall j: nat | j < sb.ninodes && j != i
      ensures SameFile(sb, m, m'.st, j)
    {
      MapElsewhere(sb, m, m'.st, b, j);
    }
    IndirectUses(sb, m, i);
    UseEnds(sb, m, m', u);
  }

  lemma IndirectUses(sb: Super, m: Mid, i: nat)
    requires OwnedBy(sb, m) && i < sb.ninodes && m.st.inodes[i].addrs[NDIRECT] < sb.size
    requires i in m.dead && m.dead[i] == NINDIRECT && Sized(sb, FreedAddr(sb, m, i, NDIRECT).st)
    requires forall j: nat | j < sb.ninodes && j != i :: SameFile(sb, m, FreedAddr(sb, m, i, NDIRECT).st, j)
    ensures OneUse(sb, m, FreedAddr(sb, m, i, NDIRECT), At(Indirect(i)), 0)
  {
    hide Bit, MarkBit, DiskInode, ByteAt, GetWord;
    var m' := FreedAddr(sb, m, i, NDIRECT);
    forall w | IsUse(sb, w)
      ensures Holds(sb, m', w) == if w == At(Indirect(i)) then 0 else Holds(sb, m, w)
    {
      if w.At? && w.s.inum != i {
        assert SameFile(sb, m, m'.st, w.s.inum);
        SlotStays(sb, m, m', w.s);
      }
    }
  }
}
