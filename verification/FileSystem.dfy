/**
  fs.c: the block allocator, bmap, itrunc, iupdate, readi and writei, each as
  the source writes it, over the blocks that bread answers with.

  `logged` collects the block numbers handed to log_write.
 */
module FileSystem {
  import opened Common
  import opened Blocks
  import opened FsFormat
  import opened FsState
  import opened FileBytes

  predicate IsMapBlock(sb: Super, x: nat) {
    sb.bmapstart <= x <= sb.bmapstart + (sb.size - 1) / BPB
  }

  /** The blocks of the free map. */
  ghost function MapBlocks(sb: Super): set<nat> {
    set x: nat | 0 <= x <= sb.size + sb.bmapstart && IsMapBlock(sb, x)
  }

  ghost function IndirectSet(st: Fs, i: nat): set<nat>
    requires i < |st.inodes| && |st.inodes[i].addrs| == NDIRECT + 1
  {
    if st.inodes[i].addrs[NDIRECT] == 0 then {} else {st.inodes[i].addrs[NDIRECT]}
  }

  /** The disk blocks of file blocks lo .. hi - 1. */
  ghost function DataBlocks(sb: Super, st: Fs, i: nat, lo: nat, hi: nat): set<nat>
    requires Sized(sb, st) && i < sb.ninodes && hi <= MAXFILE
  {
    set n | lo <= n < hi :: Addr(sb, st, i, n)
  }

  lemma BBlockInMap(sb: Super, b: nat)
    requires sb.Valid() && b < sb.size
    ensures sb.BBlock(b) in MapBlocks(sb)
  {
    BBlockIsMeta(sb, b);
    assert b / BPB <= (sb.size - 1) / BPB;
    assert IsMapBlock(sb, sb.BBlock(b));
  }

  ghost predicate DiskFull(sb: Super, st: Fs)
    requires Sized(sb, st)
  {
    forall x: nat | x < sb.size :: Bit(sb, st, x)
  }

  /** Only logged blocks differ, and none outside the file system's own area was logged. */
  ghost predicate Logs(sb: Super, blocks: seq<Block>, logged: set<nat>, blocks': seq<Block>, logged': set<nat>) {
    && |blocks'| == |blocks| && logged <= logged'
    && (forall x: nat | x < |blocks| && x !in logged' :: blocks'[x] == blocks[x])
    && (forall x | x in logged' && x !in logged :: sb.inodestart <= x < sb.size)
  }

  lemma LogsTrans(sb: Super, blocks: seq<Block>, logged: set<nat>, blocks': seq<Block>, logged': set<nat>,
                  blocks'': seq<Block>, logged'': set<nat>)
    requires Logs(sb, blocks, logged, blocks', logged') && Logs(sb, blocks', logged', blocks'', logged'')
    ensures Logs(sb, blocks, logged, blocks'', logged'')
  {
  }

  class FileSystem {
    const sb: Super
    var blocks: seq<Block>
    var inodes: seq<Inode>
    ghost var logged: set<nat>

    ghost function State(): Fs
      reads this
    {
      Fs(blocks, inodes)
    }

    ghost predicate Valid()
      reads this
    {
      Owned(sb, State(), NONE)
    }

    /** The file system that is found on a disk in order. */
    constructor (sb: Super, st: Fs)
      requires Owned(sb, st, NONE)
      ensures Valid() && this.sb == sb && State() == st && logged == {}
    {
      this.sb, blocks, inodes := sb, st.blocks, st.inodes;
      logged := {};
    }

    /** The inner loop of balloc: the first clear bit of one free-map block. */
    method ScanMapBlock(base: nat) returns (bi: nat)
      requires Sized(sb, State()) && base < sb.size && base % BPB == 0
      ensures bi <= BPB
      ensures forall x: nat | x < sb.size && base <= x < base + bi :: Bit(sb, State(), x)
      ensures bi < BPB && base + bi < sb.size ==> !Bit(sb, State(), base + bi)
    {
      hide BitIn;
      BBlockIsMeta(sb, base);
      var bp := blocks[sb.BBlock(base)];
      bi := 0;
      while bi < BPB && base + bi < sb.size
        invariant bi <= BPB
        invariant forall x: nat | x < sb.size && base <= x < base + bi :: Bit(sb, State(), x)
      {
        assert (base + bi) / BPB == base / BPB && (base + bi) % BPB == bi;
        if !BitIn(bp, bi) {
          return;
        }
        bi := bi + 1;
      }
    }

    /** Allocate a zeroed disk block: the lowest-numbered free one. */
    method BAlloc() returns (b: nat, panicked: bool)
      requires Valid()
      modifies this`blocks, this`logged
      ensures Logs(sb, old(blocks), old(logged), blocks, logged)
      ensures panicked <==> DiskFull(sb, old(State()))
      ensures panicked ==> State() == old(State()) && logged == old(logged)
      ensures !panicked ==> b < sb.size && !Bit(sb, old(State()), b) && sb.nmeta <= b
      ensures !panicked ==> forall x: nat | x < b :: Bit(sb, old(State()), x)
      ensures !panicked ==> blocks == Taken(sb, old(blocks), b) && logged == old(logged) + {sb.BBlock(b), b}
    {
      hide Bit, Ref, MarkBit;
      var base := 0;
      while base < sb.size
        invariant base % BPB == 0 && State() == old(State()) && logged == old(logged)
        invariant forall x: nat | x < sb.size && x < base :: Bit(sb, State(), x)
      {
        var bi := ScanMapBlock(base);
        if bi < BPB && base + bi < sb.size {
          b := base + bi;
          FreeIsUnused(sb, State(), b);
          BBlockIsMeta(sb, b);
          blocks := blocks[sb.BBlock(b) := MarkBit(blocks[sb.BBlock(b)], b % BPB, true)];
          blocks := blocks[b := ZeroBlock()];
          logged := logged + {sb.BBlock(b), b};
          return b, false;
        }
        base := base + BPB;
      }
      return 0, true;
    }

    /** Free a disk block. */
    method BFree(b: nat) returns (panicked: bool)
      requires Sized(sb, State()) && b < sb.size
      modifies this`blocks, this`logged
      ensures Logs(sb, old(blocks), old(logged), blocks, logged)
      ensures panicked <==> !Bit(sb, old(State()), b)
      ensures panicked ==> State() == old(State()) && logged == old(logged)
      ensures !panicked ==> blocks == WithBit(sb, old(blocks), b, false) && logged == old(logged) + {sb.BBlock(b)}
    {
      hide BitIn, MarkBit;
      BBlockIsMeta(sb, b);
      var bp := blocks[sb.BBlock(b)];
      if !BitIn(bp, b % BPB) {
        return true;
      }
      blocks := blocks[sb.BBlock(b) := MarkBit(bp, b % BPB, false)];
      logged := logged + {sb.BBlock(b)};
      return false;
    }

    /** bmap, first case: a block number kept in the inode itself. */
    method InodeBlock(i: nat, k: nat) returns (addr: nat, panicked: bool)
      requires Valid() && i < sb.ninodes && k <= NDIRECT
      modifies this`blocks, this`logged, this`inodes
      ensures Logs(sb, old(blocks), old(logged), blocks, logged)
      ensures Valid() && Grows(sb, old(State()), State(), i) && SameBytes(sb, old(State()), State())
      ensures panicked ==> State() == old(State()) && logged == old(logged) && DiskFull(sb, State())
      ensures !panicked ==> addr == inodes[i].addrs[k] && sb.nmeta <= addr < sb.size
      ensures !panicked ==> OneRef(sb, old(State()), NONE, State(), NONE, InodeSlot(i, k), addr)
      ensures old(inodes[i].addrs[k]) != 0 ==> !panicked && State() == old(State()) && logged == old(logged)
      ensures logged <= old(logged) + {addr} + MapBlocks(sb)
    {
      hide Bit, Ref, MarkBit, Owned, Grows, Taken;
      ghost var st := State();
      OwnedSized(sb, st);
      addr := inodes[i].addrs[k];
      panicked := false;
      GrowsRefl(sb, st, i);
      InodeSlotRef(sb, st, i, k);
      if addr == 0 {
        addr, panicked := BAlloc();
        if !panicked {
          BBlockInMap(sb, addr);
          AllocInode(sb, st, i, k, addr);
          inodes := inodes[i := inodes[i].(addrs := inodes[i].addrs[k := addr])];
          assert State() == WithAddr(st.(blocks := Taken(sb, st.blocks, addr)), i, k, addr);
          AllocKeepsBytes(sb, st, State(), i, InodeSlot(i, k), addr);
        }
      } else {
        RefInRange(sb, st, InodeSlot(i, k));
      }
    }

    /** bmap, second case: entry k of the indirect block, which exists. */
    method IndirectEntry(i: nat, k: nat) returns (addr: nat, panicked: bool)
      requires Valid() && i < sb.ninodes && k < NINDIRECT && inodes[i].addrs[NDIRECT] != 0
      modifies this`blocks, this`logged
      ensures Logs(sb, old(blocks), old(logged), blocks, logged)
      ensures Valid() && Grows(sb, old(State()), State(), i) && SameBytes(sb, old(State()), State())
      ensures panicked ==> State() == old(State()) && logged == old(logged) && DiskFull(sb, State())
      ensures !panicked ==> addr == Ref(sb, State(), NONE, Entry(i, k)) && sb.nmeta <= addr < sb.size
      ensures !panicked ==> OneRef(sb, old(State()), NONE, State(), NONE, Entry(i, k), addr)
      ensures Ref(sb, old(State()), NONE, Entry(i, k)) != 0 ==>
          !panicked && State() == old(State()) && logged == old(logged)
      ensures logged <= old(logged) + {addr, inodes[i].addrs[NDIRECT]} + MapBlocks(sb)
    {
      hide Bit, Ref, MarkBit, Owned, Grows, Taken, GetWord, PutWord;
      ghost var st := State();
      OwnedSized(sb, st);
      GrowsRefl(sb, st, i);
      IndirectInRange(sb, st, NONE, i);
      var bp := blocks[inodes[i].addrs[NDIRECT]];
      addr := GetWord(bp, k);
      panicked := false;
      EntryRef(sb, st, i, k);
      if addr == 0 {
        addr, panicked := BAlloc();
        if !panicked {
          BBlockInMap(sb, addr);
          AllocEntry(sb, st, i, k, addr);
          IndirectNotTaken(sb, st, i, addr);
          blocks := blocks[inodes[i].addrs[NDIRECT] := PutWord(bp, k, addr)];
          logged := logged + {inodes[i].addrs[NDIRECT]};
          assert State() == WithEntry(sb, st.(blocks := Taken(sb, st.blocks, addr)), i, k, addr);
          AllocKeepsBytes(sb, st, State(), i, Entry(i, k), addr);
        }
      } else {
        RefInRange(sb, st, Entry(i, k));
      }
    }

    /**
      bmap(): the disk block of the n-th block of file i, allocated if it does
      not exist.  No byte of any file changes; when the block exists nothing does.
     */
    method BMap(i: nat, n: nat) returns (addr: nat, panicked: bool)
      requires Valid() && i < sb.ninodes && n < MAXFILE
      modifies this`blocks, this`logged, this`inodes
      ensures Logs(sb, old(blocks), old(logged), blocks, logged)
      ensures Valid() && Grows(sb, old(State()), State(), i) && SameBytes(sb, old(State()), State())
      ensures panicked ==> DiskFull(sb, State())
      ensures !panicked ==> addr == Addr(sb, State(), i, n) && sb.nmeta <= addr < sb.size
      ensures !panicked ==> forall s | IsData(sb, s) && s != DataSlot(i, n) ::
                Ref(sb, State(), NONE, s) == Ref(sb, old(State()), NONE, s)
      ensures Addr(sb, old(State()), i, n) != 0 ==> !panicked && State() == old(State()) && logged == old(logged)
      ensures !panicked ==> logged <= old(logged) + {addr} + IndirectSet(State(), i) + MapBlocks(sb)
    {
      hide Bit, Ref, Owned, Grows, ByteAt, Logs;
      ghost var st := State();
      OwnedSized(sb, st);
      if n < NDIRECT {
        addr, panicked := InodeBlock(i, n);
        OwnedSized(sb, State());
        InodeSlotRef(sb, State(), i, n);
        InodeSlotRef(sb, st, i, n);
        return;
      }
      NoEntryWithoutBlock(sb, st, i, n - NDIRECT);
      addr, panicked := InodeBlock(i, NDIRECT);
      if panicked {
        return;
      }
      ghost var mid, midLogged := State(), logged;
      OwnedSized(sb, mid);
      addr, panicked := IndirectEntry(i, n - NDIRECT);
      LogsTrans(sb, st.blocks, old(logged), mid.blocks, midLogged, blocks, logged);
      OwnedSized(sb, State());
      GrowsTrans(sb, st, mid, State(), i);
    }

    /** iupdate() */
    method IUpdate(i: nat)
      requires Valid() && i < sb.ninodes
      modifies this`blocks, this`logged
      ensures Logs(sb, old(blocks), old(logged), blocks, logged)
      ensures State() == Updated(sb, old(State()), i) && logged == old(logged) + {sb.IBlock(i)}
      ensures Valid() && Synced(sb, State(), i)
    {
      hide Bit, Ref, Owned;
      OwnedSized(sb, State());
      UpdateSyncs(sb, State(), i);
      assert i / IPB <= sb.ninodes / IPB;
      blocks := blocks[sb.IBlock(i) := PutInode(blocks[sb.IBlock(i)], i % IPB, inodes[i])];
      logged := logged + {sb.IBlock(i)};
    }

    /** readi() on a regular file: exactly the requested slice, cut at the end of file. */
    method ReadI(i: nat, off: Word, n: Word) returns (r: int, dst: seq<Byte>)
      requires Valid() && i < sb.ninodes && NoHoles(sb, State(), i)
      modifies this`blocks, this`logged, this`inodes
      ensures State() == old(State()) && logged == old(logged)
      ensures r == -1 <==> off > inodes[i].size || off + n >= UINT_LIMIT
      ensures r != -1 ==> r == |dst| == (if off + n > inodes[i].size then inodes[i].size - off else n)
      ensures r != -1 ==> dst == Contents(sb, State(), i)[off..off + r]
    {
      hide Bit, Ref, Owned, Grows, Addr;
      OwnedSized(sb, State());
      dst := [];
      if off > inodes[i].size || off + n >= UINT_LIMIT {
        return -1, dst;
      }
      var n' := if off + n > inodes[i].size then inodes[i].size - off else n;
      var tot, o := 0, off;
      while tot < n'
        invariant State() == old(State()) && logged == old(logged)
        invariant tot <= n' && o == off + tot && |dst| == tot
        invariant forall q | 0 <= q < tot :: dst[q] == ByteAt(sb, State(), i, off + q)
      {
        assert Addr(sb, State(), i, o / BSIZE) != 0;
        var addr, panicked := BMap(i, o / BSIZE);
        var m := if n' - tot < BSIZE - o % BSIZE then n' - tot else BSIZE - o % BSIZE;
        ReadPart(sb, State(), i, o, m);
        dst := dst + blocks[addr][o % BSIZE..o % BSIZE + m];
        tot, o := tot + m, o + m;
      }
      r := n';
      assert dst == Contents(sb, State(), i)[off..off + r];
    }

    /** One round of writei's loop: bytes that fall into a single block. */
    method WritePart(i: nat, o: nat, part: seq<Byte>) returns (panicked: bool)
      requires Valid() && i < sb.ninodes && o + |part| <= MAXFILE * BSIZE
      requires 0 < |part| && o % BSIZE + |part| <= BSIZE
      modifies this`blocks, this`logged, this`inodes
      ensures Valid() && Logs(sb, old(blocks), old(logged), blocks, logged)
      ensures panicked ==> DiskFull(sb, State())
      ensures !panicked ==> Keeps(sb, old(State()), State(), i) && Addr(sb, State(), i, o / BSIZE) != 0
      ensures !panicked ==> Overlaid(sb, old(State()), State(), i, o, part)
      ensures !panicked && Addr(sb, old(State()), i, o / BSIZE) != 0 ==> inodes == old(inodes)
      ensures !panicked ==>
                logged <= old(logged) + {Addr(sb, State(), i, o / BSIZE)} + IndirectSet(State(), i) + MapBlocks(sb)
    {
      hide Bit, Ref, Owned, Grows, ByteAt;
      ghost var st := State();
      OwnedSized(sb, st);
      var addr;
      addr, panicked := BMap(i, o / BSIZE);
      if !panicked {
        ghost var mid := State();
        OwnedSized(sb, mid);
        var bp := blocks[addr];
        var at := o % BSIZE;
        blocks := blocks[addr := bp[..at] + part + bp[at + |part|..]];
        logged := logged + {addr};
        PartStored(sb, st, mid, i, o, part);
      }
    }

    /** The loop of writei. */
    method WriteLoop(i: nat, src: seq<Byte>, off: nat) returns (panicked: bool)
      requires Valid() && i < sb.ninodes && NoHoles(sb, State(), i)
      requires off <= inodes[i].size && off + |src| <= MAXFILE * BSIZE
      modifies this`blocks, this`logged, this`inodes
      ensures Valid() && Logs(sb, old(blocks), old(logged), blocks, logged)
      ensures panicked ==> DiskFull(sb, State())
      ensures !panicked ==> Keeps(sb, old(State()), State(), i) && Overlaid(sb, old(State()), State(), i, off, src)
      ensures !panicked ==> Allocated(sb, State(), i, Max(old(inodes[i].size), off + |src|))
      ensures !panicked && off + |src| <= old(inodes[i].size) ==> inodes == old(inodes)
      ensures !panicked ==> logged <= old(logged) + Footprint(sb, State(), i, off, |src|)
    {
      hide Bit, Ref, Owned, ByteAt, Keeps, Overlaid, Allocated, Addr, Footprint;
      ghost var st := State();
      OwnedSized(sb, st);
      ghost var size := inodes[i].size;
      panicked := false;
      var n := |src|;
      var tot, o := 0, off;
      WriteStarts(sb, st, i, off);
      while tot < n
        invariant tot <= n && o == off + tot && Valid() && Sized(sb, State())
        invariant Logs(sb, old(blocks), old(logged), blocks, logged)
        invariant Keeps(sb, st, State(), i) && Overlaid(sb, st, State(), i, off, src[..tot])
        invariant Allocated(sb, State(), i, Max(size, off + tot))
        invariant off + n <= size ==> inodes == st.inodes
        invariant logged <= old(logged) + Footprint(sb, State(), i, off, tot)
      {
        ghost var mid := State();
        FoundAllocated(sb, mid, i, Max(size, o), o);
        var m := if n - tot < BSIZE - o % BSIZE then n - tot else BSIZE - o % BSIZE;
        panicked := WritePart(i, o, src[tot..tot + m]);
        if panicked {
          return;
        }
        OwnedSized(sb, State());
        KeepsTrans(sb, st, mid, State(), i);
        OverlaidTrans(sb, st, mid, State(), i, off, src, tot, m);
        AllocatedGrows(sb, mid, State(), i, size, off, tot, m);
        FootprintGrows(sb, mid, State(), i, size, off, tot, m);
        tot, o := tot + m, o + m;
      }
      assert src[..tot] == src;
    }

    /**
      writei() on a regular file: the source bytes, and nothing else, are laid
      over the file's contents; disk and memory inode agree afterwards.
     */
    method WriteI(i: nat, src: seq<Byte>, off: Word) returns (r: int, panicked: bool)
      requires Valid() && i < sb.ninodes && NoHoles(sb, State(), i) && |src| < UINT_LIMIT
      modifies this`blocks, this`logged, this`inodes
      ensures Valid() && Logs(sb, old(blocks), old(logged), blocks, logged)
      ensures panicked ==> DiskFull(sb, State())
      ensures r == -1 <==> BadWrite(old(inodes[i].size), off, |src|)
      ensures r == -1 ==> !panicked && State() == old(State()) && logged == old(logged)
      ensures r != -1 && !panicked ==> r == |src| && Written(sb, old(State()), State(), i, off, src)
      ensures r != -1 && !panicked ==>
                logged <= old(logged) + Footprint(sb, State(), i, off, |src|) + {sb.IBlock(i)}
    {
      hide Bit, Ref, Owned, ByteAt, Keeps, Overlaid, Allocated, DiskInode, Footprint;
      ghost var st := State();
      OwnedSized(sb, st);
      var n := |src|;
      panicked := false;
      if off > inodes[i].size || off + n >= UINT_LIMIT {
        return -1, false;
      }
      if off + n > MAXFILE * BSIZE {
        return -1, false;
      }
      r := n;
      panicked := WriteLoop(i, src, off);
      if panicked {
        return;
      }
      ghost var mid := State();
      OwnedSized(sb, mid);
      KeepsSize(sb, st, mid, i);
      if n > 0 && off + n > inodes[i].size {
        Resized(sb, st, mid, i, off, src);
        inodes := inodes[i := inodes[i].(size := off + n)];
        IUpdate(i);
        OwnedSized(sb, State());
        WrittenUpdated(sb, st, mid, i, off, src);
      } else {
        WrittenInPlace(sb, st, mid, i, off, src);
      }
    }

    /** itrunc, direct blocks. */
    method TruncDirect(i: nat)
      requires Valid() && i < sb.ninodes
      modifies this`blocks, this`logged, this`inodes
      ensures Logs(sb, old(blocks), old(logged), blocks, logged)
      ensures Valid() && Pruned(sb, old(State()), State(), i)
      ensures forall k | 0 <= k < NDIRECT :: inodes[i].addrs[k] == 0
      ensures inodes[i].addrs[NDIRECT] == old(inodes[i].addrs[NDIRECT])
    {
      hide Bit, Ref, Owned, MarkBit;
      OwnedSized(sb, State());
      var k := 0;
      while k < NDIRECT
        invariant Logs(sb, old(blocks), old(logged), blocks, logged)
        invariant k <= NDIRECT && Valid() && Pruned(sb, old(State()), State(), i)
        invariant forall h | 0 <= h < k :: inodes[i].addrs[h] == 0
        invariant inodes[i].addrs[NDIRECT] == old(inodes[i].addrs[NDIRECT])
      {
        if inodes[i].addrs[k] != 0 {
          FreeDirect(sb, State(), i, k);
          BBlockIsMeta(sb, inodes[i].addrs[k]);
          var panicked := BFree(inodes[i].addrs[k]);
          assert !panicked;
          inodes := inodes[i := inodes[i].(addrs := inodes[i].addrs[k := 0])];
        }
        k := k + 1;
      }
    }

    /** itrunc, the blocks listed in the indirect block. */
    method TruncEntries(i: nat)
      requires Valid() && i < sb.ninodes && inodes[i].addrs[NDIRECT] != 0
      modifies this`blocks, this`logged
      ensures Logs(sb, old(blocks), old(logged), blocks, logged)
      ensures Owned(sb, State(), Dead(i, NINDIRECT)) && Pruned(sb, old(State()), State(), i)
    {
      hide Bit, Ref, Owned, MarkBit, GetWord;
      OwnedSized(sb, State());
      IndirectInRange(sb, State(), NONE, i);
      AliveEntries(sb, State(), i);
      var a := blocks[inodes[i].addrs[NDIRECT]];
      var j := 0;
      while j < NINDIRECT
        invariant Logs(sb, old(blocks), old(logged), blocks, logged)
        invariant j <= NINDIRECT && Sized(sb, State()) && Owned(sb, State(), Dead(i, j))
        invariant Pruned(sb, old(State()), State(), i) && blocks[inodes[i].addrs[NDIRECT]] == a
      {
        DeadEntryRef(sb, State(), i, j);
        if GetWord(a, j) != 0 {
          FreeEntry(sb, State(), i, j);
          BBlockIsMeta(sb, GetWord(a, j));
          var panicked := BFree(GetWord(a, j));
          assert !panicked;
        } else {
          SkipEntry(sb, State(), i, j);
        }
        j := j + 1;
      }
    }

    /**
      itrunc(): every block of file i goes back to the free map, no other file
      is touched, and "freeing free block" never fires on the way.
     */
    method ITrunc(i: nat)
      requires Valid() && i < sb.ninodes
      modifies this`blocks, this`logged, this`inodes
      ensures Logs(sb, old(blocks), old(logged), blocks, logged)
      ensures Valid() && Truncated(sb, old(State()), State(), i)
    {
      hide Bit, Ref, Owned, MarkBit, GetWord, ByteAt, Logs;
      ghost var st := State();
      OwnedSized(sb, st);
      TruncDirect(i);
      if inodes[i].addrs[NDIRECT] != 0 {
        ghost var mid, midLogged := blocks, logged;
        TruncEntries(i);
        LogsTrans(sb, st.blocks, old(logged), mid, midLogged, blocks, logged);
        FreeIndirect(sb, State(), i);
        BBlockIsMeta(sb, inodes[i].addrs[NDIRECT]);
        mid, midLogged := blocks, logged;
        var panicked := BFree(inodes[i].addrs[NDIRECT]);
        assert !panicked;
        LogsTrans(sb, st.blocks, old(logged), mid, midLogged, blocks, logged);
        inodes := inodes[i := inodes[i].(addrs := inodes[i].addrs[NDIRECT := 0])];
      }
      ghost var late, lateLogged := State(), logged;
      inodes := inodes[i := inodes[i].(size := 0)];
      SizeIsNoRef(sb, late, State());
      IUpdate(i);
      LogsTrans(sb, st.blocks, old(logged), late.blocks, lateLogged, blocks, logged);
      TruncDone(sb, st, late, i);
    }
  }

  /** File i has only lost references; nothing but the free map changed on disk. */
  ghost predicate Pruned(sb: Super, st: Fs, st': Fs, i: nat) {
    && Sized(sb, st) && Sized(sb, st') && i < sb.ninodes
    && st'.inodes == st.inodes[i := st.inodes[i].(addrs := st'.inodes[i].addrs)]
    && (forall x | 0 <= x < sb.size && !(sb.bmapstart <= x < sb.nmeta) :: st'.blocks[x] == st.blocks[x])
  }

  ghost predicate Truncated(sb: Super, st: Fs, st': Fs, i: nat) {
    && Sized(sb, st) && Sized(sb, st') && i < sb.ninodes
    && st'.inodes == st.inodes[i := st.inodes[i].(addrs := st'.inodes[i].addrs, size := 0)]
    && (forall k | 0 <= k <= NDIRECT :: st'.inodes[i].addrs[k] == 0)
    && (forall j: nat, p: nat | j < sb.ninodes && j != i && p < MAXFILE * BSIZE ::
        ByteAt(sb, st', j, p) == ByteAt(sb, st, j, p))
    && (forall j: nat | j < sb.ninodes && j != i :: DiskInode(sb, st', j) == DiskInode(sb, st, j))
    && OthersAddrs(sb, st, st', i) && Synced(sb, st', i)
  }

  lemma AliveEntries(sb: Super, st: Fs, i: nat)
    requires Owned(sb, st, NONE) && i < sb.ninodes
    ensures Owned(sb, st, Dead(i, 0))
  {
    hide Bit;
    SameRefs(sb, st, NONE, st, Dead(i, 0));
  }

  lemma DeadEntryRef(sb: Super, st: Fs, i: nat, k: nat)
    requires Sized(sb, st) && i < sb.ninodes && k < NINDIRECT && 0 < st.inodes[i].addrs[NDIRECT] < sb.size
    ensures Ref(sb, st, Dead(i, k), Entry(i, k)) == GetWord(st.blocks[st.inodes[i].addrs[NDIRECT]], k)
  {
  }

  lemma SizeIsNoRef(sb: Super, st: Fs, st': Fs)
    requires Owned(sb, st, NONE) && Sized(sb, st') && st'.blocks == st.blocks
    requires forall k | 0 <= k < sb.ninodes :: st'.inodes[k].addrs == st.inodes[k].addrs
    ensures Owned(sb, st', NONE)
  {
    hide Bit, Ref;
    RefFrame(sb, st, NONE, st');
    BitFrame(sb, st, st');
    SameRefs(sb, st, NONE, st', NONE);
  }

  lemma TruncDone(sb: Super, st: Fs, late: Fs, i: nat)
    requires Owned(sb, st, NONE) && Owned(sb, late, NONE) && Pruned(sb, st, late, i)
    requires forall k | 0 <= k <= NDIRECT :: late.inodes[i].addrs[k] == 0
    ensures Sized(sb, late.(inodes := late.inodes[i := late.inodes[i].(size := 0)]))
    ensures Truncated(sb, st, Updated(sb, late.(inodes := late.inodes[i := late.inodes[i].(size := 0)]), i), i)
  {
    hide Bit, Ref, DiskInode, ByteAt;
    var late' := late.(inodes := late.inodes[i := late.inodes[i].(size := 0)]);
    SizeIsNoRef(sb, late, late');
    UpdateSyncs(sb, late', i);
    DiskInodesKept(sb, st, late');
    var st' := Updated(sb, late', i);
    forall j: nat, p: nat | j < sb.ninodes && j != i && p < MAXFILE * BSIZE
      ensures ByteAt(sb, st', j, p) == ByteAt(sb, st, j, p)
    {
      OthersKept(sb, st, late', i, j, p);
    }
    OthersAddrKept(sb, st, late', i);
    OthersSame(sb, st, late', st', i);
  }

  lemma OthersAddrKept(sb: Super, st: Fs, late: Fs, i: nat)
    requires Owned(sb, st, NONE) && Sized(sb, late)
    requires forall j | 0 <= j < sb.ninodes && j != i :: late.inodes[j].addrs == st.inodes[j].addrs
    requires forall x | 0 <= x < sb.size && !(sb.bmapstart <= x < sb.nmeta) :: late.blocks[x] == st.blocks[x]
    ensures OthersAddrs(sb, st, late, i)
  {
    hide Bit, GetWord;
    forall j: nat, n: nat | j < sb.ninodes && j != i && n < MAXFILE
      ensures Addr(sb, late, j, n) == Addr(sb, st, j, n)
    {
      if st.inodes[j].addrs[NDIRECT] != 0 { IndirectInRange(sb, st, NONE, j); }
    }
  }

  lemma OthersKept(sb: Super, st: Fs, late: Fs, i: nat, j: nat, p: nat)
    requires Owned(sb, st, NONE) && Sized(sb, late) && j < sb.ninodes && p < MAXFILE * BSIZE
    requires late.inodes[j].addrs == st.inodes[j].addrs
    requires forall x | 0 <= x < sb.size && !(sb.bmapstart <= x < sb.nmeta) :: late.blocks[x] == st.blocks[x]
    ensures ByteAt(sb, late, j, p) == ByteAt(sb, st, j, p)
  {
    hide Bit, GetWord;
    if st.inodes[j].addrs[NDIRECT] != 0 {
      IndirectInRange(sb, st, NONE, j);
    }
    assert IsData(sb, DataSlot(j, p / BSIZE));
  }

  /** writei's two range checks. */
  predicate BadWrite(size: nat, off: nat, n: nat) {
    off > size || off + n >= UINT_LIMIT || off + n > MAXFILE * BSIZE
  }

  ghost predicate Written(sb: Super, st: Fs, st': Fs, i: nat, off: nat, src: seq<Byte>) {
    && Sized(sb, st) && Sized(sb, st') && i < sb.ninodes && off <= st.inodes[i].size <= MAXFILE * BSIZE
    && st'.inodes == st.inodes[i := st.inodes[i].(addrs := st'.inodes[i].addrs, size := st'.inodes[i].size)]
    && NoHoles(sb, st', i)
    && Contents(sb, st', i) == Splice(Contents(sb, st, i), off, src)
    && (forall j: nat, p: nat | j < sb.ninodes && j != i && p < MAXFILE * BSIZE ::
        ByteAt(sb, st', j, p) == ByteAt(sb, st, j, p))
    && (forall j: nat | j < sb.ninodes && j != i :: DiskInode(sb, st', j) == DiskInode(sb, st, j))
    && OthersAddrs(sb, st, st', i) && (Synced(sb, st, i) ==> Synced(sb, st', i))
  }

  /** The blocks of all other files stay where they are. */
  ghost predicate OthersAddrs(sb: Super, st: Fs, st': Fs, i: nat)
    requires Sized(sb, st) && Sized(sb, st')
  {
    forall j: nat, n: nat | j < sb.ninodes && j != i && n < MAXFILE :: Addr(sb, st', j, n) == Addr(sb, st, j, n)
  }

  lemma KeepsAddrs(sb: Super, st: Fs, mid: Fs, i: nat)
    requires Keeps(sb, st, mid, i)
    ensures OthersAddrs(sb, st, mid, i)
  {
    hide Ref;
    forall j: nat, n: nat | j < sb.ninodes && j != i && n < MAXFILE
      ensures Addr(sb, mid, j, n) == Addr(sb, st, j, n)
    {
      assert IsData(sb, DataSlot(j, n));
    }
  }

  /** The number of blocks that the first `end` bytes occupy. */
  function BlocksFor(end: nat): nat {
    (end + BSIZE - 1) / BSIZE
  }

  function Max(a: int, b: int): int {
    if a < b then b else a
  }

  /** The blocks that writing n bytes at off may log, the inode's own block aside. */
  ghost function Footprint(sb: Super, st: Fs, i: nat, off: nat, n: nat): set<nat>
    requires Sized(sb, st) && i < sb.ninodes && off + n <= MAXFILE * BSIZE
  {
    IndirectSet(st, i) + MapBlocks(sb) + DataBlocks(sb, st, i, off / BSIZE, BlocksFor(off + n))
  }

  lemma FoundAllocated(sb: Super, st: Fs, i: nat, end: nat, o: nat)
    requires Sized(sb, st) && i < sb.ninodes && Allocated(sb, st, i, end)
    ensures o < end ==> Addr(sb, st, i, o / BSIZE) != 0
  {
  }

  /** What writing file i leaves alone: other inodes, inode blocks, existing references. */
  ghost predicate Keeps(sb: Super, st: Fs, st': Fs, i: nat) {
    && Sized(sb, st) && Sized(sb, st') && i < sb.ninodes
    && st'.inodes == st.inodes[i := st.inodes[i].(addrs := st'.inodes[i].addrs)]
    && (forall x | 0 <= x < sb.bmapstart :: st'.blocks[x] == st.blocks[x])
    && (forall s | IsData(sb, s) && (s.inum != i || Ref(sb, st, NONE, s) != 0) ::
          Ref(sb, st', NONE, s) == Ref(sb, st, NONE, s))
    && (st.inodes[i].addrs[NDIRECT] != 0 ==> st'.inodes[i].addrs[NDIRECT] == st.inodes[i].addrs[NDIRECT])
  }

  /** All files as before, except that file i carries `part` at offset o. */
  ghost predicate Overlaid(sb: Super, st: Fs, st': Fs, i: nat, o: nat, part: seq<Byte>)
    requires Sized(sb, st) && Sized(sb, st')
  {
    forall j: nat, p: nat | j < sb.ninodes && p < MAXFILE * BSIZE ::
      ByteAt(sb, st', j, p) == if j == i && o <= p < o + |part| then part[p - o] else ByteAt(sb, st, j, p)
  }

  lemma PartStored(sb: Super, st: Fs, mid: Fs, i: nat, o: nat, part: seq<Byte>)
    requires Owned(sb, st, NONE) && Owned(sb, mid, NONE) && Grows(sb, st, mid, i) && SameBytes(sb, st, mid)
    requires i < sb.ninodes && o + |part| <= MAXFILE * BSIZE && 0 < |part| && o % BSIZE + |part| <= BSIZE
    requires 0 < Addr(sb, mid, i, o / BSIZE) < sb.size
    ensures var a := Addr(sb, mid, i, o / BSIZE);
      var blk := mid.blocks[a][..o % BSIZE] + part + mid.blocks[a][o % BSIZE + |part|..];
      var st' := mid.(blocks := mid.blocks[a := blk]);
      && Owned(sb, st', NONE) && Keeps(sb, st, st', i) && Overlaid(sb, st, st', i, o, part)
      && Addr(sb, st', i, o / BSIZE) == a
  {
    hide Bit, Ref, Owned, ByteAt;
    var a := Addr(sb, mid, i, o / BSIZE);
    var blk: Block := mid.blocks[a][..o % BSIZE] + part + mid.blocks[a][o % BSIZE + |part|..];
    var st' := mid.(blocks := mid.blocks[a := blk]);
    StoreData(sb, mid, i, o / BSIZE, blk);
    assert IsData(sb, DataSlot(i, o / BSIZE));
    forall j: nat, p: nat | j < sb.ninodes && p < MAXFILE * BSIZE
      ensures ByteAt(sb, st', j, p) == if j == i && o <= p < o + |part| then part[p - o] else ByteAt(sb, st, j, p)
    {
      if j == i && p / BSIZE == o / BSIZE {
        ReadPart(sb, mid, i, p, 1);
      }
    }
  }

  /** The bytes of a file inside one block are a slice of that block. */
  lemma ReadPart(sb: Super, st: Fs, i: nat, o: nat, m: nat)
    requires Sized(sb, st) && i < sb.ninodes && o + m <= MAXFILE * BSIZE && 0 < m && o % BSIZE + m <= BSIZE
    requires 0 < Addr(sb, st, i, o / BSIZE) < sb.size
    ensures forall p | o <= p < o + m ::
        ByteAt(sb, st, i, p) == st.blocks[Addr(sb, st, i, o / BSIZE)][o % BSIZE + (p - o)]
  {
    hide Addr;
    forall p | o <= p < o + m
      ensures ByteAt(sb, st, i, p) == st.blocks[Addr(sb, st, i, o / BSIZE)][o % BSIZE + (p - o)]
    {
      assert p / BSIZE == o / BSIZE && p % BSIZE == o % BSIZE + (p - o);
    }
  }

  /** The new size is set, before iupdate. */
  lemma Resized(sb: Super, st: Fs, mid: Fs, i: nat, off: nat, src: seq<Byte>)
    requires Owned(sb, mid, NONE) && Keeps(sb, st, mid, i) && Overlaid(sb, st, mid, i, off, src)
    requires off + |src| <= MAXFILE * BSIZE && Allocated(sb, mid, i, off + |src|)
    ensures var mid' := mid.(inodes := mid.inodes[i := mid.inodes[i].(size := off + |src|)]);
      && Owned(sb, mid', NONE) && SameBytes(sb, mid, mid')
      && (forall s | IsSlot(sb, s) :: Ref(sb, mid', NONE, s) == Ref(sb, mid, NONE, s))
  {
    hide Bit, Ref, ByteAt;
    var mid' := mid.(inodes := mid.inodes[i := mid.inodes[i].(size := off + |src|)]);
    MetaKeepsBytes(sb, mid, mid');
    BitFrame(sb, mid, mid');
    SameRefs(sb, mid, NONE, mid', NONE);
  }

  lemma SpliceContents(sb: Super, st: Fs, st': Fs, i: nat, off: nat, src: seq<Byte>)
    requires Sized(sb, st) && Sized(sb, st') && i < sb.ninodes && Overlaid(sb, st, st', i, off, src)
    requires off <= st.inodes[i].size <= MAXFILE * BSIZE && off + |src| <= MAXFILE * BSIZE
    requires st'.inodes[i].size == Max(st.inodes[i].size, off + |src|)
    ensures Contents(sb, st', i) == Splice(Contents(sb, st, i), off, src)
  {
    hide ByteAt, Sized;
  }

  lemma DiskInodesKept(sb: Super, st: Fs, st': Fs)
    requires Sized(sb, st) && Sized(sb, st') && forall x | 0 <= x < sb.bmapstart :: st'.blocks[x] == st.blocks[x]
    ensures forall j: nat | j < sb.ninodes :: DiskInode(sb, st', j) == DiskInode(sb, st, j)
  {
    hide GetInode;
    forall j: nat | j < sb.ninodes
      ensures DiskInode(sb, st', j) == DiskInode(sb, st, j)
    {
      assert j / IPB <= sb.ninodes / IPB;
    }
  }

  lemma WrittenUpdated(sb: Super, st: Fs, mid: Fs, i: nat, off: nat, src: seq<Byte>)
    requires Owned(sb, mid, NONE) && Keeps(sb, st, mid, i) && Overlaid(sb, st, mid, i, off, src)
    requires off <= st.inodes[i].size < off + |src| <= MAXFILE * BSIZE && Allocated(sb, mid, i, off + |src|)
    ensures Sized(sb, mid.(inodes := mid.inodes[i := mid.inodes[i].(size := off + |src|)]))
    ensures var st' := Updated(sb, mid.(inodes := mid.inodes[i := mid.inodes[i].(size := off + |src|)]), i);
      Written(sb, st, st', i, off, src) && Footprint(sb, st', i, off, |src|) == Footprint(sb, mid, i, off, |src|)
  {
    hide Bit, Ref, ByteAt, DiskInode, Contents, Owned, Splice;
    OwnedSized(sb, mid);
    Resized(sb, st, mid, i, off, src);
    var mid' := mid.(inodes := mid.inodes[i := mid.inodes[i].(size := off + |src|)]);
    UpdateSyncs(sb, mid', i);
    DiskInodesKept(sb, st, mid');
    var st' := Updated(sb, mid', i);
    OwnedSized(sb, st');
    assert Overlaid(sb, st, st', i, off, src);
    SpliceContents(sb, st, st', i, off, src);
    assert Allocated(sb, st', i, off + |src|) by { SameAddrs(sb, mid, st', i); }
    SameAddrs(sb, mid, st', i);
    KeepsAddrs(sb, st, mid, i);
    OthersSame(sb, st, mid, st', i);
  }

  lemma OthersSame(sb: Super, st: Fs, mid: Fs, st': Fs, i: nat)
    requires Sized(sb, st) && Sized(sb, mid) && Sized(sb, st') && OthersAddrs(sb, st, mid, i)
    requires forall s | IsSlot(sb, s) :: Ref(sb, st', NONE, s) == Ref(sb, mid, NONE, s)
    ensures OthersAddrs(sb, st, st', i)
  {
    hide Ref;
    forall j: nat, n: nat | j < sb.ninodes && j != i && n < MAXFILE
      ensures Addr(sb, st', j, n) == Addr(sb, st, j, n)
    {
      assert IsSlot(sb, DataSlot(j, n));
    }
  }

  lemma SameAddrs(sb: Super, st: Fs, st': Fs, i: nat)
    requires Sized(sb, st) && Sized(sb, st') && i < sb.ninodes
    requires forall s | IsSlot(sb, s) :: Ref(sb, st', NONE, s) == Ref(sb, st, NONE, s)
    ensures forall n: nat | n < MAXFILE :: Addr(sb, st', i, n) == Addr(sb, st, i, n)
  {
    hide Ref;
    forall n: nat | n < MAXFILE
      ensures Addr(sb, st', i, n) == Addr(sb, st, i, n)
    {
      assert IsSlot(sb, DataSlot(i, n));
    }
  }

  lemma WrittenInPlace(sb: Super, st: Fs, mid: Fs, i: nat, off: nat, src: seq<Byte>)
    requires Keeps(sb, st, mid, i) && Overlaid(sb, st, mid, i, off, src)
    requires off <= st.inodes[i].size && off + |src| <= MAXFILE * BSIZE && off + |src| <= st.inodes[i].size
    requires Allocated(sb, mid, i, st.inodes[i].size) && mid.inodes == st.inodes
    ensures Written(sb, st, mid, i, off, src)
  {
    KeepsAddrs(sb, st, mid, i);
    hide Bit, Ref, ByteAt, DiskInode, Contents, Addr;
    DiskInodesKept(sb, st, mid);
    SpliceContents(sb, st, mid, i, off, src);
  }

  lemma WriteStarts(sb: Super, st: Fs, i: nat, off: nat)
    requires Owned(sb, st, NONE) && i < sb.ninodes && off <= st.inodes[i].size
    ensures Keeps(sb, st, st, i) && Overlaid(sb, st, st, i, off, [])
    ensures Allocated(sb, st, i, Max(st.inodes[i].size, off + 0)) == NoHoles(sb, st, i)
  {
    hide Ref, Bit;
  }

  lemma KeepsSize(sb: Super, st: Fs, st': Fs, i: nat)
    requires Keeps(sb, st, st', i)
    ensures st'.inodes[i].size == st.inodes[i].size
  {
  }

  lemma KeepsTrans(sb: Super, st: Fs, mid: Fs, st': Fs, i: nat)
    requires Keeps(sb, st, mid, i) && Keeps(sb, mid, st', i)
    ensures Keeps(sb, st, st', i)
  {
    hide Ref;
  }

  lemma OverlaidTrans(sb: Super, st: Fs, mid: Fs, st': Fs, i: nat, off: nat, src: seq<Byte>, tot: nat, m: nat)
    requires Sized(sb, st) && Sized(sb, mid) && Sized(sb, st') && tot + m <= |src|
    requires Overlaid(sb, st, mid, i, off, src[..tot])
    requires Overlaid(sb, mid, st', i, off + tot, src[tot..tot + m])
    ensures Overlaid(sb, st, st', i, off, src[..tot + m])
  {
    hide ByteAt, Sized;
  }

  lemma AllocatedGrows(sb: Super, mid: Fs, st': Fs, i: nat, size: nat, off: nat, tot: nat, m: nat)
    requires Keeps(sb, mid, st', i) && off <= size && Allocated(sb, mid, i, Max(size, off + tot))
    requires off + tot + m <= MAXFILE * BSIZE && 0 < m && (off + tot) % BSIZE + m <= BSIZE
    requires Addr(sb, st', i, (off + tot) / BSIZE) != 0
    ensures Allocated(sb, st', i, Max(size, off + tot + m))
  {
    hide Ref;
    var o := off + tot;
    forall n: nat | n < MAXFILE && n * BSIZE < Max(size, o + m)
      ensures Addr(sb, st', i, n) != 0
    {
      assert IsData(sb, DataSlot(i, n));
      if n * BSIZE >= Max(size, o) {
        assert n == o / BSIZE;
      } else {
        assert Addr(sb, mid, i, n) != 0;
      }
    }
  }

  lemma FootprintGrows(sb: Super, mid: Fs, st': Fs, i: nat, size: nat, off: nat, tot: nat, m: nat)
    requires Keeps(sb, mid, st', i) && off <= size && Allocated(sb, mid, i, Max(size, off + tot))
    requires off + tot + m <= MAXFILE * BSIZE && 0 < m && (off + tot) % BSIZE + m <= BSIZE
    ensures Footprint(sb, mid, i, off, tot) + {Addr(sb, st', i, (off + tot) / BSIZE)} + IndirectSet(st', i) +
        MapBlocks(sb)
         <= Footprint(sb, st', i, off, tot + m)
  {
    hide Ref;
    var o := off + tot;
    var lo, hi, hi' := off / BSIZE, BlocksFor(o), BlocksFor(o + m);
    assert lo <= o / BSIZE < hi' && hi <= hi';
    forall n | lo <= n < hi
      ensures Addr(sb, st', i, n) == Addr(sb, mid, i, n)
    {
      assert IsData(sb, DataSlot(i, n));
      assert n * BSIZE < o;
    }
  }

  lemma EntryRef(sb: Super, st: Fs, i: nat, k: nat)
    requires Sized(sb, st) && i < sb.ninodes && k < NINDIRECT && 0 < st.inodes[i].addrs[NDIRECT] < sb.size
    ensures Ref(sb, st, NONE, Entry(i, k)) == GetWord(st.blocks[st.inodes[i].addrs[NDIRECT]], k)
  {
  }

  lemma NoEntryWithoutBlock(sb: Super, st: Fs, i: nat, k: nat)
    requires Sized(sb, st) && i < sb.ninodes && k < NINDIRECT
    ensures st.inodes[i].addrs[NDIRECT] == 0 ==> Ref(sb, st, NONE, Entry(i, k)) == 0
  {
  }

  lemma IndirectNotTaken(sb: Super, st: Fs, i: nat, b: nat)
    requires Owned(sb, st, NONE) && i < sb.ninodes && st.inodes[i].addrs[NDIRECT] != 0
    requires b < sb.size && !Bit(sb, st, b)
    ensures st.inodes[i].addrs[NDIRECT] < sb.size
    ensures Taken(sb, st.blocks, b)[st.inodes[i].addrs[NDIRECT]] == st.blocks[st.inodes[i].addrs[NDIRECT]]
  {
    IndirectInRange(sb, st, NONE, i);
    TakenFrame(sb, st, b);
    FreeIsUnused(sb, st, b);
    BBlockIsMeta(sb, b);
  }

  lemma OwnedSized(sb: Super, st: Fs)
    requires Owned(sb, st, NONE)
    ensures Sized(sb, st)
  {
  }

  lemma RefInRange(sb: Super, st: Fs, s: Slot)
    requires Owned(sb, st, NONE) && IsSlot(sb, s) && Ref(sb, st, NONE, s) != 0
    ensures sb.nmeta <= Ref(sb, st, NONE, s) < sb.size
  {
  }
}
