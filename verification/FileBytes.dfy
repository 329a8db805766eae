/**
  A file as the byte sequence that readi and writei promise, on top of block
  references: direct, then through the indirect block.
 */
module FileBytes {
  import opened Common
  import opened Blocks
  import opened FsFormat
  import opened FsState

  /** Where the n-th block of file i is referenced from. */
  function DataSlot(i: nat, n: nat): Slot {
    if n < NDIRECT then Direct(i, n) else Entry(i, n - NDIRECT)
  }

  function Addr(sb: Super, st: Fs, i: nat, n: nat): nat
    requires Sized(sb, st) && i < sb.ninodes && n < MAXFILE
  {
    Ref(sb, st, NONE, DataSlot(i, n))
  }

  /** Byte p of file i; a block that does not exist yet counts as zeros. */
  function ByteAt(sb: Super, st: Fs, i: nat, p: nat): Byte
    requires Sized(sb, st) && i < sb.ninodes && p < MAXFILE * BSIZE
  {
    var a := Addr(sb, st, i, p / BSIZE);
    if 0 < a < sb.size then st.blocks[a][p % BSIZE] else 0
  }

  /** Every block below offset `end` exists. */
  ghost predicate Allocated(sb: Super, st: Fs, i: nat, end: nat)
    requires Sized(sb, st) && i < sb.ninodes
  {
    end <= MAXFILE * BSIZE && forall n: nat | n < MAXFILE && n * BSIZE < end :: Addr(sb, st, i, n) != 0
  }

  ghost predicate NoHoles(sb: Super, st: Fs, i: nat)
    requires Sized(sb, st) && i < sb.ninodes
  {
    Allocated(sb, st, i, st.inodes[i].size)
  }

  /** The contents of file i. */
  ghost function Contents(sb: Super, st: Fs, i: nat): seq<Byte>
    requires Sized(sb, st) && i < sb.ninodes && st.inodes[i].size <= MAXFILE * BSIZE
  {
    seq(st.inodes[i].size, p requires 0 <= p < st.inodes[i].size => ByteAt(sb, st, i, p))
  }

  /** The old contents with src laid over them at off. */
  function Splice(old_: seq<Byte>, off: nat, src: seq<Byte>): seq<Byte>
    requires off <= |old_|
  {
    old_[..off] + src + (if off + |src| <= |old_| then old_[off + |src|..] else [])
  }

  ghost predicate SameBytes(sb: Super, st: Fs, st': Fs)
    requires Sized(sb, st) && Sized(sb, st')
  {
    forall j: nat, p: nat | j < sb.ninodes && p < MAXFILE * BSIZE :: ByteAt(sb, st', j, p) == ByteAt(sb, st, j, p)
  }

  /** Giving a file a zeroed block changes no byte of any file. */
  lemma AllocKeepsBytes(sb: Super, st: Fs, st': Fs, i: nat, s0: Slot, b: nat)
    requires Owned(sb, st, NONE) && Grows(sb, st, st', i) && IsSlot(sb, s0) && s0.inum == i
    requires OneRef(sb, st, NONE, st', NONE, s0, b) && b < sb.size && st'.blocks[b] == ZeroBlock()
    requires Ref(sb, st, NONE, s0) == 0
    ensures SameBytes(sb, st, st')
  {
    hide Ref;
    forall j: nat, p: nat | j < sb.ninodes && p < MAXFILE * BSIZE
      ensures ByteAt(sb, st', j, p) == ByteAt(sb, st, j, p)
    {
      var s := DataSlot(j, p / BSIZE);
      assert IsData(sb, s);
      if s == s0 {
        assert Ref(sb, st', NONE, s) == b;
      }
    }
  }

  /** Storing into one data block: only the bytes of that block change. */
  lemma StoreData(sb: Super, st: Fs, i: nat, n: nat, blk: Block)
    requires Owned(sb, st, NONE) && i < sb.ninodes && n < MAXFILE && Addr(sb, st, i, n) != 0
    ensures sb.nmeta <= Addr(sb, st, i, n) < sb.size
    ensures var st' := st.(blocks := st.blocks[Addr(sb, st, i, n) := blk]);
      && Owned(sb, st', NONE)
      && (forall s | IsSlot(sb, s) :: Ref(sb, st', NONE, s) == Ref(sb, st, NONE, s))
      && (forall j: nat, p: nat | j < sb.ninodes && p < MAXFILE * BSIZE ::
            ByteAt(sb, st', j, p) == if j == i && p / BSIZE == n then blk[p % BSIZE] else ByteAt(sb, st, j, p))
  {
    hide Ref, Bit;
    var s0 := DataSlot(i, n);
    assert IsData(sb, s0);
    var a := Addr(sb, st, i, n);
    var st' := st.(blocks := st.blocks[a := blk]);
    forall k | 0 <= k < sb.ninodes
      ensures st.inodes[k].addrs[NDIRECT] != a
    {
      if st.inodes[k].addrs[NDIRECT] != 0 { IndirectInRange(sb, st, NONE, k); }
    }
    RefFrame(sb, st, NONE, st');
    BitFrame(sb, st, st');
    SameRefs(sb, st, NONE, st', NONE);
    forall j: nat, p: nat | j < sb.ninodes && p < MAXFILE * BSIZE
      ensures ByteAt(sb, st', j, p) == if j == i && p / BSIZE == n then blk[p % BSIZE] else ByteAt(sb, st, j, p)
    {
      var s := DataSlot(j, p / BSIZE);
      assert IsData(sb, s);
      if Ref(sb, st, NONE, s) == a {
        assert s == s0;
      }
    }
  }

  /** Changes to inode blocks and to the free map show in no file. */
  lemma MetaKeepsBytes(sb: Super, st: Fs, st': Fs)
    requires Owned(sb, st, NONE) && Sized(sb, st')
    requires forall i | 0 <= i < sb.ninodes :: st'.inodes[i].addrs == st.inodes[i].addrs
    requires forall x | sb.nmeta <= x < sb.size :: st'.blocks[x] == st.blocks[x]
    ensures SameBytes(sb, st, st') && forall s | IsSlot(sb, s) :: Ref(sb, st', NONE, s) == Ref(sb, st, NONE, s)
  {
    hide Ref, Bit;
    forall k | 0 <= k < sb.ninodes && st.inodes[k].addrs[NDIRECT] != 0
      ensures sb.nmeta <= st.inodes[k].addrs[NDIRECT] < sb.size
    {
      IndirectInRange(sb, st, NONE, k);
    }
    RefFrame(sb, st, NONE, st');
    forall j: nat, p: nat | j < sb.ninodes && p < MAXFILE * BSIZE
      ensures ByteAt(sb, st', j, p) == ByteAt(sb, st, j, p)
    {
      assert IsData(sb, DataSlot(j, p / BSIZE));
    }
  }

  // ------------------------------------------------------ inodes on disk

  function DiskInode(sb: Super, st: Fs, i: nat): Inode
    requires Sized(sb, st) && i < sb.ninodes
  {
    assert i / IPB <= sb.ninodes / IPB;
    GetInode(st.blocks[sb.IBlock(i)], i % IPB)
  }

  /** The inode cache is write-through: disk and memory agree. */
  ghost predicate Synced(sb: Super, st: Fs, i: nat)
    requires Sized(sb, st) && i < sb.ninodes
  {
    DiskInode(sb, st, i) == st.inodes[i]
  }

  /** iupdate's new block contents. */
  function Updated(sb: Super, st: Fs, i: nat): Fs
    requires Sized(sb, st) && i < sb.ninodes
  {
    assert i / IPB <= sb.ninodes / IPB;
    st.(blocks := st.blocks[sb.IBlock(i) := PutInode(st.blocks[sb.IBlock(i)], i % IPB, st.inodes[i])])
  }

  lemma UpdateSyncs(sb: Super, st: Fs, i: nat)
    requires Owned(sb, st, NONE) && i < sb.ninodes
    ensures var st' := Updated(sb, st, i);
      && Owned(sb, st', NONE) && Synced(sb, st', i) && SameBytes(sb, st, st')
      && (forall s | IsSlot(sb, s) :: Ref(sb, st', NONE, s) == Ref(sb, st, NONE, s))
      && (forall j | 0 <= j < sb.ninodes && j != i :: DiskInode(sb, st', j) == DiskInode(sb, st, j))
  {
    hide Ref, Bit, GetInode, PutInode;
    var st' := Updated(sb, st, i);
    assert i / IPB <= sb.ninodes / IPB;
    MetaKeepsBytes(sb, st, st');
    BitFrame(sb, st, st');
    SameRefs(sb, st, NONE, st', NONE);
    forall j | 0 <= j < sb.ninodes
      ensures DiskInode(sb, st', j) == if j == i then st.inodes[i] else DiskInode(sb, st, j)
    {
      if sb.IBlock(j) == sb.IBlock(i) {
        PutInodeReads(st.blocks[sb.IBlock(i)], i % IPB, st.inodes[i], j % IPB);
        assert j % IPB == i % IPB ==> j == i;
      }
    }
  }
}
