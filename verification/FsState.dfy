/**
  The state under fs.c: the blocks as bread shows them, and the inodes as the
  inode cache holds them; and who owns which block.
 */
module FsState {
  import opened Common
  import opened Blocks
  import opened FsFormat

  /** The superblock; data blocks start at nmeta, behind the free map. */
  datatype Super = Super(size: nat, ninodes: nat, inodestart: nat, bmapstart: nat, nmeta: nat) {
    predicate Valid() {
      && 0 < inodestart && inodestart + ninodes / IPB + 1 <= bmapstart
      && bmapstart + size / BPB + 1 <= nmeta <= size <= UINT_LIMIT
    }

    function IBlock(i: nat): nat {
      i / IPB + inodestart
    }

    function BBlock(b: nat): nat {
      b / BPB + bmapstart
    }
  }

  datatype Fs = Fs(blocks: seq<Block>, inodes: seq<Inode>)

  ghost predicate Sized(sb: Super, st: Fs) {
    && sb.Valid() && |st.blocks| == sb.size && |st.inodes| == sb.ninodes
    && forall i | 0 <= i < sb.ninodes :: |st.inodes[i].addrs| == NDIRECT + 1
  }

  /** Every place a block number can stand in. */
  datatype Slot = Direct(inum: nat, k: nat) | Indirect(inum: nat) | Entry(inum: nat, k: nat)

  predicate IsSlot(sb: Super, s: Slot) {
    && s.inum < sb.ninodes
    && match s
       case Direct(_, k) => k < NDIRECT
       case Indirect(_) => true
       case Entry(_, k) => k < NINDIRECT
  }

  /** Entries of inode `inum` below `upto` are on their way out (itrunc). */
  datatype Dead = Dead(inum: nat, upto: nat)

  const NONE := Dead(0, 0)

  /** The block number that stands in slot s; 0 when there is none. */
  function Ref(sb: Super, st: Fs, dead: Dead, s: Slot): nat
    requires Sized(sb, st) && IsSlot(sb, s)
  {
    match s
    case Direct(i, k) => st.inodes[i].addrs[k]
    case Indirect(i) => st.inodes[i].addrs[NDIRECT]
    case Entry(i, k) =>
      var a := st.inodes[i].addrs[NDIRECT];
      if a == 0 || a >= |st.blocks| || (i == dead.inum && k < dead.upto) then 0 else GetWord(st.blocks[a], k)
  }

  /** The free-map bit of block b. */
  predicate Bit(sb: Super, st: Fs, b: nat)
    requires Sized(sb, st) && b < sb.size
  {
    BitIn(st.blocks[sb.BBlock(b)], b % BPB)
  }

  ghost predicate Referenced(sb: Super, st: Fs, dead: Dead, b: nat)
    requires Sized(sb, st)
  {
    exists s :: IsSlot(sb, s) && Ref(sb, st, dead, s) == b
  }

  /**
    A free-map bit is set exactly when the block is metadata or stands in a
    slot; and no block stands in two slots.
   */
  ghost predicate Owned(sb: Super, st: Fs, dead: Dead) {
    && Sized(sb, st)
    && (forall s | IsSlot(sb, s) && Ref(sb, st, dead, s) != 0 :: sb.nmeta <= Ref(sb, st, dead, s) < sb.size)
    && (forall s, t | IsSlot(sb, s) && IsSlot(sb, t) && Ref(sb, st, dead, s) == Ref(sb, st, dead, t) != 0 :: s == t)
    && (forall b | 0 <= b < sb.size :: Bit(sb, st, b) <==> b < sb.nmeta || Referenced(sb, st, dead, b))
  }

  // -------------------------------------------------- one reference changes

  ghost predicate OneRef(sb: Super, st: Fs, dead: Dead, st': Fs, dead': Dead, s0: Slot, b: nat)
    requires Sized(sb, st) && Sized(sb, st')
  {
    forall s | IsSlot(sb, s) :: Ref(sb, st', dead', s) == if s == s0 then b else Ref(sb, st, dead, s)
  }

  ghost predicate OneBit(sb: Super, st: Fs, st': Fs, b: nat, v: bool)
    requires Sized(sb, st) && Sized(sb, st')
  {
    forall x: nat | x < sb.size :: Bit(sb, st', x) == if x == b then v else Bit(sb, st, x)
  }

  lemma SameReferenced(sb: Super, st: Fs, dead: Dead, st': Fs, dead': Dead, s0: Slot, b: nat, x: nat)
    requires Sized(sb, st) && Sized(sb, st') && OneRef(sb, st, dead, st', dead', s0, b) && IsSlot(sb, s0)
    requires x != b && x != 0 && x != Ref(sb, st, dead, s0)
    ensures Referenced(sb, st', dead', x) <==> Referenced(sb, st, dead, x)
  {
    hide Ref, Sized;
    if s :| IsSlot(sb, s) && Ref(sb, st, dead, s) == x {
      assert Ref(sb, st', dead', s) == x;
    }
    if s :| IsSlot(sb, s) && Ref(sb, st', dead', s) == x {
      assert Ref(sb, st, dead, s) == x;
    }
  }

  /** A free block enters an empty slot, and its bit is set. */
  lemma OwnedAlloc(sb: Super, st: Fs, st': Fs, s0: Slot, b: nat)
    requires Owned(sb, st, NONE) && Sized(sb, st') && IsSlot(sb, s0) && Ref(sb, st, NONE, s0) == 0
    requires b < sb.size && !Bit(sb, st, b)
    requires OneRef(sb, st, NONE, st', NONE, s0, b) && OneBit(sb, st, st', b, true)
    ensures Owned(sb, st', NONE)
  {
    hide Ref, Bit;
    forall x | 0 <= x < sb.size
      ensures Bit(sb, st', x) <==> x < sb.nmeta || Referenced(sb, st', NONE, x)
    {
      if x == b {
        assert Ref(sb, st', NONE, s0) == b;
      } else if x >= sb.nmeta {
        SameReferenced(sb, st, NONE, st', NONE, s0, b, x);
      }
    }
  }

  /** A block leaves its only slot, and its bit is cleared. */
  lemma OwnedFree(sb: Super, st: Fs, dead: Dead, st': Fs, dead': Dead, s0: Slot)
    requires Owned(sb, st, dead) && Sized(sb, st') && IsSlot(sb, s0) && Ref(sb, st, dead, s0) != 0
    requires OneRef(sb, st, dead, st', dead', s0, 0) && OneBit(sb, st, st', Ref(sb, st, dead, s0), false)
    ensures Owned(sb, st', dead')
  {
    hide Ref, Bit;
    var b := Ref(sb, st, dead, s0);
    forall x | 0 <= x < sb.size
      ensures Bit(sb, st', x) <==> x < sb.nmeta || Referenced(sb, st', dead', x)
    {
      if x == b {
        assert !Referenced(sb, st', dead', x);
      } else if x >= sb.nmeta {
        SameReferenced(sb, st, dead, st', dead', s0, 0, x);
      }
    }
  }

  // ------------------------------------------------- the updates themselves

  /** The free-map bit of b set to v. */
  function WithBit(sb: Super, blocks: seq<Block>, b: nat, v: bool): seq<Block>
    requires sb.Valid() && |blocks| == sb.size && b < sb.size
  {
    blocks[sb.BBlock(b) := MarkBit(blocks[sb.BBlock(b)], b % BPB, v)]
  }

  /** Blocks that hold no free-map bits do not matter to the free map. */
  lemma BitFrame(sb: Super, st: Fs, st': Fs)
    requires Sized(sb, st) && Sized(sb, st')
    requires forall x | sb.bmapstart <= x < sb.nmeta :: st'.blocks[x] == st.blocks[x]
    ensures forall b: nat | b < sb.size :: Bit(sb, st', b) == Bit(sb, st, b)
  {
    hide BitIn;
    forall b: nat | b < sb.size
      ensures Bit(sb, st', b) == Bit(sb, st, b)
    {
      BBlockIsMeta(sb, b);
    }
  }

  lemma BBlockIsMeta(sb: Super, b: nat)
    requires sb.Valid() && b < sb.size
    ensures sb.bmapstart <= sb.BBlock(b) < sb.nmeta
  {
    assert b / BPB <= sb.size / BPB;
  }

  lemma WithBitSets(sb: Super, st: Fs, b: nat, v: bool)
    requires Sized(sb, st) && b < sb.size
    ensures Sized(sb, st.(blocks := WithBit(sb, st.blocks, b, v)))
    ensures OneBit(sb, st, st.(blocks := WithBit(sb, st.blocks, b, v)), b, v)
  {
    hide BitIn, MarkBit;
    var st' := st.(blocks := WithBit(sb, st.blocks, b, v));
    forall x: nat | x < sb.size
      ensures Bit(sb, st', x) == if x == b then v else Bit(sb, st, x)
    {
      BBlockIsMeta(sb, x);
      BBlockIsMeta(sb, b);
      if sb.BBlock(x) == sb.BBlock(b) {
        assert x == b <==> x % BPB == b % BPB;
        assert BitIn(MarkBit(st.blocks[sb.BBlock(b)], b % BPB, v), x % BPB)
            == if x % BPB == b % BPB then v else BitIn(st.blocks[sb.BBlock(b)], x % BPB);
      }
    }
  }

  /** Blocks that are nobody's indirect block do not matter to the references. */
  lemma RefFrame(sb: Super, st: Fs, dead: Dead, st': Fs)
    requires Sized(sb, st) && Sized(sb, st')
    requires forall i | 0 <= i < sb.ninodes :: st'.inodes[i].addrs == st.inodes[i].addrs
    requires forall i | 0 <= i < sb.ninodes ::
      var a := st.inodes[i].addrs[NDIRECT]; a != 0 && a < sb.size ==> st'.blocks[a] == st.blocks[a]
    ensures forall s | IsSlot(sb, s) :: Ref(sb, st', dead, s) == Ref(sb, st, dead, s)
  {
    hide GetWord;
  }

  /** balloc's two block writes: mark b in use, and zero it. */
  function Taken(sb: Super, blocks: seq<Block>, b: nat): seq<Block>
    requires sb.Valid() && |blocks| == sb.size && b < sb.size
  {
    WithBit(sb, blocks, b, true)[b := ZeroBlock()]
  }

  lemma FreeIsUnused(sb: Super, st: Fs, b: nat)
    requires Owned(sb, st, NONE) && b < sb.size && !Bit(sb, st, b)
    ensures sb.nmeta <= b && !Referenced(sb, st, NONE, b)
    ensures forall i | 0 <= i < sb.ninodes :: st.inodes[i].addrs[NDIRECT] != b
  {
    hide Bit;
    forall i | 0 <= i < sb.ninodes
      ensures st.inodes[i].addrs[NDIRECT] != b
    {
      assert Ref(sb, st, NONE, Indirect(i)) == st.inodes[i].addrs[NDIRECT];
    }
  }

  /** The blocks that Taken changes: one of the free map, and b itself. */
  lemma TakenFrame(sb: Super, st: Fs, b: nat)
    requires Owned(sb, st, NONE) && b < sb.size && !Bit(sb, st, b)
    ensures var blocks' := Taken(sb, st.blocks, b);
      && |blocks'| == sb.size && blocks'[b] == ZeroBlock()
      && (forall x | 0 <= x < sb.size && x != b && x != sb.BBlock(b) :: blocks'[x] == st.blocks[x])
      && OneBit(sb, st, st.(blocks := blocks'), b, true)
  {
    hide Bit, Ref, MarkBit;
    FreeIsUnused(sb, st, b);
    BBlockIsMeta(sb, b);
    WithBitSets(sb, st, b, true);
    BitFrame(sb, st.(blocks := WithBit(sb, st.blocks, b, true)), st.(blocks := Taken(sb, st.blocks, b)));
  }

  /** The block number of an inode's slot k is set to b. */
  function WithAddr(st: Fs, i: nat, k: nat, b: Word): Fs
    requires i < |st.inodes| && k < |st.inodes[i].addrs|
  {
    st.(inodes := st.inodes[i := st.inodes[i].(addrs := st.inodes[i].addrs[k := b])])
  }

  function InodeSlot(i: nat, k: nat): Slot {
    if k < NDIRECT then Direct(i, k) else Indirect(i)
  }

  /** Slots that hold file data, as opposed to an indirect block. */
  predicate IsData(sb: Super, s: Slot) {
    IsSlot(sb, s) && !s.Indirect?
  }

  /** What an allocation on behalf of inode i leaves alone. */
  ghost predicate Grows(sb: Super, st: Fs, st': Fs, i: nat) {
    && Sized(sb, st) && Sized(sb, st') && i < sb.ninodes
    && st'.inodes == st.inodes[i := st.inodes[i].(addrs := st'.inodes[i].addrs)]
    && (forall x | 0 <= x < sb.bmapstart :: st'.blocks[x] == st.blocks[x])
    && (forall s | IsData(sb, s) && Ref(sb, st, NONE, s) != 0 ::
          && Ref(sb, st', NONE, s) == Ref(sb, st, NONE, s) < sb.size
          && st'.blocks[Ref(sb, st, NONE, s)] == st.blocks[Ref(sb, st, NONE, s)])
    && (forall s | IsData(sb, s) && s.inum != i :: Ref(sb, st', NONE, s) == Ref(sb, st, NONE, s))
    && (st.inodes[i].addrs[NDIRECT] != 0 ==> st'.inodes[i].addrs[NDIRECT] == st.inodes[i].addrs[NDIRECT])
  }

  lemma GrowsTrans(sb: Super, st: Fs, st1: Fs, st2: Fs, i: nat)
    requires Grows(sb, st, st1, i) && Grows(sb, st1, st2, i)
    ensures Grows(sb, st, st2, i)
  {
    hide Ref;
    forall s | IsData(sb, s) && Ref(sb, st, NONE, s) != 0
      ensures Ref(sb, st2, NONE, s) == Ref(sb, st, NONE, s) < sb.size
      ensures st2.blocks[Ref(sb, st, NONE, s)] == st.blocks[Ref(sb, st, NONE, s)]
    {
      assert Ref(sb, st1, NONE, s) == Ref(sb, st, NONE, s);
    }
  }

  lemma GrowsRefl(sb: Super, st: Fs, i: nat)
    requires Owned(sb, st, NONE) && i < sb.ninodes
    ensures Grows(sb, st, st, i)
  {
    hide Ref;
  }

  lemma AllocInodeRefs(sb: Super, st: Fs, i: nat, k: nat, b: nat)
    requires Owned(sb, st, NONE) && i < sb.ninodes && k <= NDIRECT && st.inodes[i].addrs[k] == 0
    requires b < sb.size && !Bit(sb, st, b)
    ensures var st' := WithAddr(st.(blocks := Taken(sb, st.blocks, b)), i, k, b);
      && Sized(sb, st') && OneRef(sb, st, NONE, st', NONE, InodeSlot(i, k), b)
  {
    hide Bit, GetWord, Taken;
    TakenFrame(sb, st, b);
    FreeIsUnused(sb, st, b);
    BBlockIsMeta(sb, b);
    var st' := WithAddr(st.(blocks := Taken(sb, st.blocks, b)), i, k, b);
    forall s | IsSlot(sb, s)
      ensures Ref(sb, st', NONE, s) == if s == InodeSlot(i, k) then b else Ref(sb, st, NONE, s)
    {
      if s.Entry? {
        ZeroWords(s.k);
        var a := Ref(sb, st, NONE, Indirect(s.inum));
        assert a != 0 ==> sb.nmeta <= a < sb.size && a != b;
      }
    }
  }

  /** bmap gives inode i a block of its own for addrs[k], direct or indirect. */
  lemma AllocInode(sb: Super, st: Fs, i: nat, k: nat, b: nat)
    requires Owned(sb, st, NONE) && i < sb.ninodes && k <= NDIRECT && st.inodes[i].addrs[k] == 0
    requires b < sb.size && !Bit(sb, st, b)
    ensures var st' := WithAddr(st.(blocks := Taken(sb, st.blocks, b)), i, k, b);
      && Owned(sb, st', NONE) && Grows(sb, st, st', i) && st'.blocks[b] == ZeroBlock() && b != 0
      && OneRef(sb, st, NONE, st', NONE, InodeSlot(i, k), b)
  {
    hide Bit, GetWord, Taken, Ref;
    AllocInodeRefs(sb, st, i, k, b);
    TakenFrame(sb, st, b);
    FreeIsUnused(sb, st, b);
    BBlockIsMeta(sb, b);
    var mid := st.(blocks := Taken(sb, st.blocks, b));
    var st' := WithAddr(mid, i, k, b);
    BitFrame(sb, mid, st');
    assert Ref(sb, st, NONE, InodeSlot(i, k)) == 0 by { InodeSlotRef(sb, st, i, k); }
    OwnedAlloc(sb, st, st', InodeSlot(i, k), b);
    AllocGrows(sb, st, st', i, InodeSlot(i, k), b);
  }

  lemma InodeSlotRef(sb: Super, st: Fs, i: nat, k: nat)
    requires Sized(sb, st) && i < sb.ninodes && k <= NDIRECT
    ensures IsSlot(sb, InodeSlot(i, k)) && Ref(sb, st, NONE, InodeSlot(i, k)) == st.inodes[i].addrs[k]
  {
  }

  lemma AllocGrows(sb: Super, st: Fs, st': Fs, i: nat, s0: Slot, b: nat)
    requires Owned(sb, st, NONE) && Sized(sb, st') && IsSlot(sb, s0) && s0.inum == i
    requires b < sb.size && !Bit(sb, st, b) && Ref(sb, st, NONE, s0) == 0
    requires OneRef(sb, st, NONE, st', NONE, s0, b)
    requires st'.inodes == st.inodes[i := st.inodes[i].(addrs := st'.inodes[i].addrs)]
    requires st.inodes[i].addrs[NDIRECT] != 0 ==> st'.inodes[i].addrs[NDIRECT] == st.inodes[i].addrs[NDIRECT]
    requires forall x | 0 <= x < sb.size && x != b && x != sb.BBlock(b) :: st'.blocks[x] == st.blocks[x]
    ensures Grows(sb, st, st', i)
  {
    hide Bit, Ref;
    BBlockIsMeta(sb, b);
    FreeIsUnused(sb, st, b);
    forall s | IsData(sb, s) && Ref(sb, st, NONE, s) != 0
      ensures Ref(sb, st', NONE, s) == Ref(sb, st, NONE, s) < sb.size
      ensures st'.blocks[Ref(sb, st, NONE, s)] == st.blocks[Ref(sb, st, NONE, s)]
    {
      assert Ref(sb, st, NONE, s) != b;
    }
  }

  // -------------------------------------------- entries of the indirect block

  /** Word k of inode i's indirect block is set to b. */
  function WithEntry(sb: Super, st: Fs, i: nat, k: nat, b: Word): Fs
    requires Sized(sb, st) && i < sb.ninodes && k < NINDIRECT && 0 < st.inodes[i].addrs[NDIRECT] < sb.size
  {
    var a := st.inodes[i].addrs[NDIRECT];
    st.(blocks := st.blocks[a := PutWord(st.blocks[a], k, b)])
  }

  lemma IndirectInRange(sb: Super, st: Fs, dead: Dead, i: nat)
    requires Owned(sb, st, dead) && i < sb.ninodes && st.inodes[i].addrs[NDIRECT] != 0
    ensures sb.nmeta <= st.inodes[i].addrs[NDIRECT] < sb.size
    ensures forall j | 0 <= j < sb.ninodes && j != i :: st.inodes[j].addrs[NDIRECT] != st.inodes[i].addrs[NDIRECT]
    ensures forall s | IsData(sb, s) :: Ref(sb, st, dead, s) != st.inodes[i].addrs[NDIRECT]
  {
    assert Ref(sb, st, dead, Indirect(i)) == st.inodes[i].addrs[NDIRECT];
    forall j | 0 <= j < sb.ninodes && j != i
      ensures st.inodes[j].addrs[NDIRECT] != st.inodes[i].addrs[NDIRECT]
    {
      assert Ref(sb, st, dead, Indirect(j)) == st.inodes[j].addrs[NDIRECT];
    }
  }

  lemma AllocEntryRefs(sb: Super, st: Fs, i: nat, k: nat, b: nat)
    requires Owned(sb, st, NONE) && i < sb.ninodes && k < NINDIRECT && st.inodes[i].addrs[NDIRECT] != 0
    requires b < sb.size && !Bit(sb, st, b)
    ensures st.inodes[i].addrs[NDIRECT] < sb.size && Sized(sb, st.(blocks := Taken(sb, st.blocks, b)))
    ensures var st' := WithEntry(sb, st.(blocks := Taken(sb, st.blocks, b)), i, k, b);
      && Sized(sb, st') && OneRef(sb, st, NONE, st', NONE, Entry(i, k), b)
  {
    hide Bit, GetWord, PutWord, Taken;
    TakenFrame(sb, st, b);
    FreeIsUnused(sb, st, b);
    BBlockIsMeta(sb, b);
    IndirectInRange(sb, st, NONE, i);
    var st' := WithEntry(sb, st.(blocks := Taken(sb, st.blocks, b)), i, k, b);
    forall s | IsSlot(sb, s)
      ensures Ref(sb, st', NONE, s) == if s == Entry(i, k) then b else Ref(sb, st, NONE, s)
    {
      if s.Entry? && st.inodes[s.inum].addrs[NDIRECT] != 0 {
        IndirectInRange(sb, st, NONE, s.inum);
      }
    }
  }

  /** bmap gives inode i a block of its own for entry k of the indirect block. */
  lemma AllocEntry(sb: Super, st: Fs, i: nat, k: nat, b: nat)
    requires Owned(sb, st, NONE) && i < sb.ninodes && k < NINDIRECT && st.inodes[i].addrs[NDIRECT] != 0
    requires Ref(sb, st, NONE, Entry(i, k)) == 0
    requires b < sb.size && !Bit(sb, st, b)
    ensures st.inodes[i].addrs[NDIRECT] < sb.size && Sized(sb, st.(blocks := Taken(sb, st.blocks, b)))
    ensures var st' := WithEntry(sb, st.(blocks := Taken(sb, st.blocks, b)), i, k, b);
      && Owned(sb, st', NONE) && Grows(sb, st, st', i) && st'.blocks[b] == ZeroBlock() && b != 0
      && OneRef(sb, st, NONE, st', NONE, Entry(i, k), b)
  {
    hide Bit, GetWord, PutWord, Taken, Ref;
    AllocEntryRefs(sb, st, i, k, b);
    TakenFrame(sb, st, b);
    FreeIsUnused(sb, st, b);
    BBlockIsMeta(sb, b);
    IndirectInRange(sb, st, NONE, i);
    var mid := st.(blocks := Taken(sb, st.blocks, b));
    var st' := WithEntry(sb, mid, i, k, b);
    BitFrame(sb, mid, st');
    OwnedAlloc(sb, st, st', Entry(i, k), b);
    AllocEntryGrows(sb, st, st', i, k, b);
  }

  lemma AllocEntryGrows(sb: Super, st: Fs, st': Fs, i: nat, k: nat, b: nat)
    requires Owned(sb, st, NONE) && Sized(sb, st') && i < sb.ninodes && k < NINDIRECT
    requires b < sb.size && !Bit(sb, st, b) && Ref(sb, st, NONE, Entry(i, k)) == 0
    requires OneRef(sb, st, NONE, st', NONE, Entry(i, k), b) && st'.inodes == st.inodes
    requires st.inodes[i].addrs[NDIRECT] != 0
    requires forall x | 0 <= x < sb.size && x != b && x != sb.BBlock(b) && x != st.inodes[i].addrs[NDIRECT] ::
      st'.blocks[x] == st.blocks[x]
    ensures Grows(sb, st, st', i)
  {
    hide Bit, Ref;
    BBlockIsMeta(sb, b);
    FreeIsUnused(sb, st, b);
    IndirectInRange(sb, st, NONE, i);
    forall s | IsData(sb, s) && Ref(sb, st, NONE, s) != 0
      ensures Ref(sb, st', NONE, s) == Ref(sb, st, NONE, s) < sb.size
      ensures st'.blocks[Ref(sb, st, NONE, s)] == st.blocks[Ref(sb, st, NONE, s)]
    {
      assert Ref(sb, st, NONE, s) != b;
    }
  }

  // ------------------------------------------------------------- freeing

  /** bfree's only write is in the free map. */
  lemma FreeFrame(sb: Super, st: Fs, dead: Dead, b: nat)
    requires Owned(sb, st, dead) && sb.nmeta <= b < sb.size
    ensures var st' := st.(blocks := WithBit(sb, st.blocks, b, false));
      && Sized(sb, st') && OneBit(sb, st, st', b, false)
      && (forall s, d | IsSlot(sb, s) :: Ref(sb, st', d, s) == Ref(sb, st, d, s))
  {
    hide Bit, MarkBit, GetWord;
    BBlockIsMeta(sb, b);
    WithBitSets(sb, st, b, false);
    var st' := st.(blocks := WithBit(sb, st.blocks, b, false));
    forall s, d | IsSlot(sb, s)
      ensures Ref(sb, st', d, s) == Ref(sb, st, d, s)
    {
      if s.Entry? && st.inodes[s.inum].addrs[NDIRECT] != 0 {
        IndirectInRange(sb, st, dead, s.inum);
      }
    }
  }

  /** itrunc frees a direct block. */
  lemma FreeDirect(sb: Super, st: Fs, i: nat, k: nat)
    requires Owned(sb, st, NONE) && i < sb.ninodes && k < NDIRECT && st.inodes[i].addrs[k] != 0
    ensures var b := st.inodes[i].addrs[k];
      && sb.nmeta <= b < sb.size && Bit(sb, st, b)
      && Owned(sb, WithAddr(st.(blocks := WithBit(sb, st.blocks, b, false)), i, k, 0), NONE)
  {
    hide Bit, MarkBit, GetWord;
    var b := st.inodes[i].addrs[k];
    assert Ref(sb, st, NONE, Direct(i, k)) == b;
    assert Referenced(sb, st, NONE, b);
    FreeFrame(sb, st, NONE, b);
    var mid := st.(blocks := WithBit(sb, st.blocks, b, false));
    var st' := WithAddr(mid, i, k, 0);
    BitFrame(sb, mid, st');
    assert OneRef(sb, st, NONE, st', NONE, Direct(i, k), 0) by {
      assert forall s | IsSlot(sb, s) :: Ref(sb, mid, NONE, s) == Ref(sb, st, NONE, s);
    }
    OwnedFree(sb, st, NONE, st', NONE, Direct(i, k));
  }

  /** itrunc frees the block of entry k, whose word it leaves in the block. */
  lemma FreeEntry(sb: Super, st: Fs, i: nat, k: nat)
    requires Owned(sb, st, Dead(i, k)) && i < sb.ninodes && k < NINDIRECT && Ref(sb, st, Dead(i, k), Entry(i, k)) != 0
    ensures var b := Ref(sb, st, Dead(i, k), Entry(i, k));
      && sb.nmeta <= b < sb.size && Bit(sb, st, b)
      && Owned(sb, st.(blocks := WithBit(sb, st.blocks, b, false)), Dead(i, k + 1))
  {
    hide Bit, MarkBit, GetWord;
    var b := Ref(sb, st, Dead(i, k), Entry(i, k));
    assert Referenced(sb, st, Dead(i, k), b);
    FreeFrame(sb, st, Dead(i, k), b);
    var st' := st.(blocks := WithBit(sb, st.blocks, b, false));
    assert OneRef(sb, st, Dead(i, k), st', Dead(i, k + 1), Entry(i, k), 0) by {
      assert forall s | IsSlot(sb, s) :: Ref(sb, st', Dead(i, k + 1), s) == Ref(sb, st, Dead(i, k + 1), s);
    }
    OwnedFree(sb, st, Dead(i, k), st', Dead(i, k + 1), Entry(i, k));
  }

  lemma SkipEntry(sb: Super, st: Fs, i: nat, k: nat)
    requires Owned(sb, st, Dead(i, k)) && i < sb.ninodes && k < NINDIRECT && Ref(sb, st, Dead(i, k), Entry(i, k)) == 0
    ensures Owned(sb, st, Dead(i, k + 1))
  {
    hide Bit, GetWord;
    SameRefs(sb, st, Dead(i, k), st, Dead(i, k + 1));
  }

  lemma SameRefs(sb: Super, st: Fs, dead: Dead, st': Fs, dead': Dead)
    requires Owned(sb, st, dead) && Sized(sb, st')
    requires forall s | IsSlot(sb, s) :: Ref(sb, st', dead', s) == Ref(sb, st, dead, s)
    requires forall b: nat | b < sb.size :: Bit(sb, st', b) == Bit(sb, st, b)
    ensures Owned(sb, st', dead')
  {
    hide Bit, Ref;
    forall b | 0 <= b < sb.size
      ensures Bit(sb, st', b) <==> b < sb.nmeta || Referenced(sb, st', dead', b)
    {
      if s :| IsSlot(sb, s) && Ref(sb, st, dead, s) == b {
        assert Ref(sb, st', dead', s) == b;
      }
      if s :| IsSlot(sb, s) && Ref(sb, st', dead', s) == b {
        assert Ref(sb, st, dead, s) == b;
      }
    }
  }

  /** itrunc frees the indirect block, all of whose entries are gone. */
  lemma FreeIndirect(sb: Super, st: Fs, i: nat)
    requires Owned(sb, st, Dead(i, NINDIRECT)) && i < sb.ninodes && st.inodes[i].addrs[NDIRECT] != 0
    ensures var b := st.inodes[i].addrs[NDIRECT];
      && sb.nmeta <= b < sb.size && Bit(sb, st, b)
      && Owned(sb, WithAddr(st.(blocks := WithBit(sb, st.blocks, b, false)), i, NDIRECT, 0), NONE)
  {
    hide Bit, MarkBit, GetWord;
    var b := st.inodes[i].addrs[NDIRECT];
    var dead := Dead(i, NINDIRECT);
    assert Ref(sb, st, dead, Indirect(i)) == b;
    assert Referenced(sb, st, dead, b);
    FreeFrame(sb, st, dead, b);
    var mid := st.(blocks := WithBit(sb, st.blocks, b, false));
    var st' := WithAddr(mid, i, NDIRECT, 0);
    BitFrame(sb, mid, st');
    assert OneRef(sb, st, dead, st', NONE, Indirect(i), 0) by {
      assert forall s | IsSlot(sb, s) :: Ref(sb, mid, dead, s) == Ref(sb, st, dead, s);
    }
    OwnedFree(sb, st, dead, st', NONE, Indirect(i));
  }
}
