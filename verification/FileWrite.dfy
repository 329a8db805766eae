/**
  filewrite() of file.c on an inode file: a long write cut into transactions
  that each fit the log.
 */
module FileWrite {
  import opened Common
  import opened Blocks
  import opened FsFormat
  import opened FsState
  import opened FileBytes
  import opened FileSystem
  import LogCore

  /** The chunk size: leaves room for i-node, indirect and map blocks, and slop. */
  const MAXCHUNK := (LogCore.MAXOPBLOCKS - 1 - 1 - 2) / 2 * 512

  lemma {:induction false} DataBlocksCard(sb: Super, st: Fs, i: nat, lo: nat, hi: nat)
    requires Sized(sb, st) && i < sb.ninodes && lo <= hi <= MAXFILE
    ensures |DataBlocks(sb, st, i, lo, hi)| <= hi - lo
  {
    hide Addr;
    if lo < hi {
      DataBlocksCard(sb, st, i, lo, hi - 1);
      assert DataBlocks(sb, st, i, lo, hi) == DataBlocks(sb, st, i, lo, hi - 1) + {Addr(sb, st, i, hi - 1)};
    } else {
      assert DataBlocks(sb, st, i, lo, hi) == {};
    }
  }

  lemma CardSum(a: set<nat>, b: set<nat>)
    ensures |a + b| <= |a| + |b|
  {
    assert a + b == a + (b - a);
  }

  lemma CardSubset(a: set<nat>, b: set<nat>)
    requires a <= b
    ensures |a| <= |b|
  {
    assert b == a + (b - a);
  }

  /** One chunk, at any offset, logs at most seven blocks. */
  lemma ChunkFits(sb: Super, st: Fs, i: nat, off: nat, n: nat, logged: set<nat>)
    requires Sized(sb, st) && i < sb.ninodes && off + n <= MAXFILE * BSIZE && n <= MAXCHUNK && sb.size <= BPB
    requires logged <= Footprint(sb, st, i, off, n) + {sb.IBlock(i)}
    ensures |logged| <= 7 <= LogCore.MAXOPBLOCKS
  {
    hide Addr, DataBlocks;
    var data := DataBlocks(sb, st, i, off / BSIZE, BlocksFor(off + n));
    assert off / BSIZE <= BlocksFor(off + n) <= off / BSIZE + 4;
    DataBlocksCard(sb, st, i, off / BSIZE, BlocksFor(off + n));
    assert MapBlocks(sb) == {sb.bmapstart} by { assert IsMapBlock(sb, sb.bmapstart); }
    CardSum(IndirectSet(st, i), MapBlocks(sb));
    CardSum(IndirectSet(st, i) + MapBlocks(sb), data);
    CardSum(Footprint(sb, st, i, off, n), {sb.IBlock(i)});
    CardSubset(logged, Footprint(sb, st, i, off, n) + {sb.IBlock(i)});
  }

  lemma SpliceSplice(c: seq<Byte>, off: nat, a: seq<Byte>, b: seq<Byte>)
    requires off <= |c|
    ensures off + |a| <= |Splice(c, off, a)|
    ensures Splice(Splice(c, off, a), off + |a|, b) == Splice(c, off, a + b)
  {
  }

  lemma WrittenTrans(sb: Super, st: Fs, mid: Fs, st': Fs, i: nat, off: nat, a: seq<Byte>, b: seq<Byte>)
    requires Written(sb, st, mid, i, off, a) && Written(sb, mid, st', i, off + |a|, b)
    ensures Written(sb, st, st', i, off, a + b)
  {
    hide ByteAt, DiskInode, Contents, Allocated, Splice;
    assert off <= |Contents(sb, st, i)| by { ContentsLength(sb, st, i); }
    SpliceSplice(Contents(sb, st, i), off, a, b);
  }

  lemma ContentsLength(sb: Super, st: Fs, i: nat)
    requires Sized(sb, st) && i < sb.ninodes && st.inodes[i].size <= MAXFILE * BSIZE
    ensures |Contents(sb, st, i)| == st.inodes[i].size
  {
  }

  /** The write leaves the file long enough to hold it. */
  lemma WrittenSize(sb: Super, st: Fs, st': Fs, i: nat, off: nat, src: seq<Byte>)
    requires Written(sb, st, st', i, off, src)
    ensures off <= st.inodes[i].size && off + |src| <= st'.inodes[i].size <= MAXFILE * BSIZE
  {
    hide ByteAt, DiskInode;
    ContentsLength(sb, st, i);
    ContentsLength(sb, st', i);
  }

  /** What makes filewrite give up: a position past the end, or a file too long. */
  predicate Unwritable(size: nat, off: nat, n: nat) {
    n > 0 && (off > size || off + n > MAXFILE * BSIZE)
  }

  class File {
    const fs: FileSystem
    const inum: nat
    var off: nat
    ghost var transactions: seq<set<nat>>

    constructor (fs: FileSystem, inum: nat, off: nat)
      ensures this.fs == fs && this.inum == inum && this.off == off && transactions == []
    {
      this.fs, this.inum, this.off := fs, inum, off;
      transactions := [];
    }

    ghost predicate Valid()
      reads this, fs
    {
      && fs.Valid() && inum < fs.sb.ninodes && fs.sb.size <= BPB && NoHoles(fs.sb, fs.State(), inum)
      && fs.inodes[inum].size <= MAXFILE * BSIZE && off < UINT_LIMIT
    }

    /** The body of the loop: begin_op .. end_op around one writei. */
    method WriteChunk(chunk: seq<Byte>) returns (r: int, panicked: bool)
      requires Valid() && |chunk| <= MAXCHUNK
      modifies this`off, this`transactions, fs
      ensures !panicked ==> Valid()
      ensures panicked ==> Sized(fs.sb, fs.State()) && DiskFull(fs.sb, fs.State())
      ensures r == -1 <==> BadWrite(old(fs.inodes[inum].size), old(off), |chunk|)
      ensures r == -1 ==> !panicked && fs.State() == old(fs.State()) && off == old(off)
      ensures r != -1 && !panicked ==> r == |chunk| && off == old(off) + r
      ensures r != -1 && !panicked ==> Written(fs.sb, old(fs.State()), fs.State(), inum, old(off), chunk)
      ensures panicked ==> transactions == old(transactions)
      ensures !panicked ==> |transactions| == |old(transactions)| + 1 && old(transactions) <= transactions
      ensures !panicked ==> |transactions[|transactions| - 1]| <= LogCore.MAXOPBLOCKS
    {
      hide Owned, Written, DiskFull, ByteAt, Footprint;
      ghost var st := fs.State();
      OwnedSized(fs.sb, st);
      fs.logged := {};
      r, panicked := fs.WriteI(inum, chunk, off);
      OwnedSized(fs.sb, fs.State());
      if panicked {
        return;
      }
      if r != -1 {
        ChunkFits(fs.sb, fs.State(), inum, off, |chunk|, fs.logged);
        WrittenFacts(fs.sb, st, fs.State(), inum, off, chunk);
      }
      if r > 0 {
        off := off + r;
      }
      transactions := transactions + [fs.logged];
    }

    /**
      filewrite(): either one write of all of src, or -1 after a prefix of it;
      every transaction stays within MAXOPBLOCKS blocks.
     */
    method FileWrite(src: seq<Byte>) returns (r: int, done: nat, panicked: bool)
      requires Valid() && transactions == []
      modifies this`off, this`transactions, fs
      ensures !panicked ==> Valid() && done <= |src| && off == old(off) + done
      ensures panicked ==> Sized(fs.sb, fs.State()) && DiskFull(fs.sb, fs.State())
      ensures !panicked ==> r == if done == |src| then |src| else -1
      ensures !panicked ==> (r == -1 <==> Unwritable(old(fs.inodes[inum].size), old(off), |src|))
      ensures !panicked && done > 0 ==> Written(fs.sb, old(fs.State()), fs.State(), inum, old(off), src[..done])
      ensures !panicked && done == 0 ==> fs.State() == old(fs.State())
      ensures forall t | t in transactions :: |t| <= LogCore.MAXOPBLOCKS
    {
      hide Owned, Written, DiskFull, ByteAt;
      ghost var st := fs.State();
      var n := |src|;
      done, panicked := 0, false;
      while done < n
        invariant Valid() && done <= n && off == old(off) + done
        invariant done > 0 ==> Written(fs.sb, st, fs.State(), inum, old(off), src[..done])
        invariant done == 0 ==> fs.State() == st
        invariant forall t | t in transactions :: |t| <= LogCore.MAXOPBLOCKS
      {
        ghost var mid := fs.State();
        var n1 := if n - done > MAXCHUNK then MAXCHUNK else n - done;
        if done > 0 {
          WrittenSize(fs.sb, st, mid, inum, old(off), src[..done]);
        }
        r, panicked := WriteChunk(src[done..done + n1]);
        if panicked {
          return;
        }
        if r < 0 {
          break;
        }
        if done > 0 {
          WrittenTrans(fs.sb, st, mid, fs.State(), inum, old(off), src[..done], src[done..done + n1]);
        }
        assert src[..done] + src[done..done + n1] == src[..done + n1];
        done := done + r;
      }
      if done > 0 {
        WrittenSize(fs.sb, st, fs.State(), inum, old(off), src[..done]);
      }
      r := if done == n then n else -1;
    }
  }

  lemma WrittenFacts(sb: Super, st: Fs, st': Fs, i: nat, off: nat, src: seq<Byte>)
    requires Written(sb, st, st', i, off, src)
    ensures NoHoles(sb, st', i) && st'.inodes[i].size <= MAXFILE * BSIZE
  {
  }
}
