/**
  The file system on top of the log: what a crash leaves of block ownership and
  file contents, at any moment of any run.
 */
module CrashSafety {
  import opened Common
  import opened Blocks
  import opened FsFormat
  import opened FsState
  import opened FileBytes
  import opened FileSystem
  import Core = LogCore
  import Log = LogSystem

  /** The log lies before the inode blocks, on the same disk. */
  predicate Fits(L: Core.Layout, sb: Super) {
    L.Valid() && sb.Valid() && L.nblocks == sb.size && L.start + L.size <= sb.inodestart
  }

  /** Used blocks are the referenced ones, none twice; no file has holes; the inodes are on disk. */
  ghost predicate Sound(sb: Super, st: Fs) {
    && Owned(sb, st, NONE)
    && (forall i: nat | i < sb.ninodes :: NoHoles(sb, st, i))
    && (forall i: nat | i < sb.ninodes :: Synced(sb, st, i))
  }

  /** The blocks outside the log are those of st. */
  ghost predicate Shows(L: Core.Layout, sb: Super, view: Core.View, st: Fs) {
    && Fits(L, sb) && |st.blocks| == sb.size
    && (forall b: nat :: b in view <==> L.Home(b))
    && (forall b: nat | b in view :: view[b] == st.blocks[b])
  }

  /** The file system that the kernel finds on a disk with these contents. */
  ghost function Decoded(sb: Super, view: Core.View): Fs
    requires sb.Valid()
  {
    var blocks := seq<Block>(sb.size, b requires 0 <= b < sb.size => if b in view then view[b] else ZeroBlock());
    Fs(blocks, seq(sb.ninodes, i requires 0 <= i < sb.ninodes => DecodedInode(sb, blocks, i)))
  }

  ghost function DecodedInode(sb: Super, blocks: seq<Block>, i: nat): (ip: Inode)
    requires sb.Valid() && |blocks| == sb.size && i < sb.ninodes
    ensures |ip.addrs| == NDIRECT + 1
  {
    assert i / IPB <= sb.ninodes / IPB;
    GetInode(blocks[sb.IBlock(i)], i % IPB)
  }

  lemma DecodedBlocks(L: Core.Layout, sb: Super, view: Core.View, st: Fs)
    requires Shows(L, sb, view, st)
    ensures var d := Decoded(sb, view);
      |d.blocks| == sb.size && forall b | sb.inodestart <= b < sb.size :: d.blocks[b] == st.blocks[b]
  {
    hide DecodedInode;
    var d := Decoded(sb, view);
    forall b: nat | sb.inodestart <= b < sb.size
      ensures d.blocks[b] == st.blocks[b]
    {
      assert L.Home(b);
    }
  }

  lemma DecodedInodes(L: Core.Layout, sb: Super, view: Core.View, st: Fs)
    requires Shows(L, sb, view, st) && Sized(sb, st) && forall i: nat | i < sb.ninodes :: Synced(sb, st, i)
    ensures Sized(sb, Decoded(sb, view)) && Decoded(sb, view).inodes == st.inodes
    ensures forall i: nat | i < sb.ninodes :: Synced(sb, Decoded(sb, view), i)
  {
    hide GetInode;
    DecodedBlocks(L, sb, view, st);
    var d := Decoded(sb, view);
    forall i: nat | i < sb.ninodes
      ensures d.inodes[i] == st.inodes[i]
      ensures d.inodes[i] == GetInode(d.blocks[sb.IBlock(i)], i % IPB)
    {
      assert i / IPB <= sb.ninodes / IPB;
      assert Synced(sb, st, i);
    }
  }

  /** A disk that shows a sound state decodes to a sound state with the same files. */
  lemma DecodedSound(L: Core.Layout, sb: Super, view: Core.View, st: Fs)
    requires Shows(L, sb, view, st) && Sound(sb, st)
    ensures Sound(sb, Decoded(sb, view)) && SameBytes(sb, st, Decoded(sb, view))
    ensures Decoded(sb, view).inodes == st.inodes
  {
    hide Bit, Ref, ByteAt, DiskInode;
    var d := Decoded(sb, view);
    DecodedInodes(L, sb, view, st);
    DecodedBlocks(L, sb, view, st);
    hide Decoded, Shows;
    MetaKeepsBytes(sb, st, d);
    BitFrame(sb, st, d);
    SameRefs(sb, st, NONE, d, NONE);
    forall i: nat | i < sb.ninodes
      ensures NoHoles(sb, d, i)
    {
      SameAddrs(sb, st, d, i);
      assert NoHoles(sb, st, i);
    }
  }

  // ---------------------------------------------------------- operations

  /** What one operation does: writei of a range, or itrunc, of some file. */
  ghost predicate Operates(sb: Super, st: Fs, st': Fs) {
    && Owned(sb, st', NONE)
    && ((exists i: nat, off: nat, src :: Written(sb, st, st', i, off, src)) ||
        (exists i: nat :: Truncated(sb, st, st', i)))
  }

  lemma HolesElsewhere(sb: Super, st: Fs, st': Fs, i: nat)
    requires Sized(sb, st) && Sized(sb, st') && i < sb.ninodes && OthersAddrs(sb, st, st', i)
    requires forall j: nat | j < sb.ninodes && j != i :: st'.inodes[j] == st.inodes[j] && NoHoles(sb, st, j)
    ensures forall j: nat | j < sb.ninodes && j != i :: NoHoles(sb, st', j)
  {
    hide Addr;
  }

  lemma WriteKeepsSound(sb: Super, st: Fs, st': Fs, i: nat, off: nat, src: seq<Byte>)
    requires Sound(sb, st) && Owned(sb, st', NONE) && Written(sb, st, st', i, off, src)
    ensures Sound(sb, st')
  {
    hide Owned, ByteAt, DiskInode, Contents, Splice, NoHoles;
    OwnedSized(sb, st);
    HolesElsewhere(sb, st, st', i);
    assert Synced(sb, st, i);
    forall j: nat | j < sb.ninodes
      ensures Synced(sb, st', j)
    {
      assert Synced(sb, st, j);
    }
  }

  lemma TruncKeepsSound(sb: Super, st: Fs, st': Fs, i: nat)
    requires Sound(sb, st) && Owned(sb, st', NONE) && Truncated(sb, st, st', i)
    ensures Sound(sb, st')
  {
    hide Owned, ByteAt, DiskInode;
    OwnedSized(sb, st);
    HolesElsewhere(sb, st, st', i);
    forall j: nat | j < sb.ninodes
      ensures Synced(sb, st', j)
    {
      assert Synced(sb, st, j);
    }
  }

  lemma OperationKeepsSound(sb: Super, st: Fs, st': Fs)
    requires Sound(sb, st) && Operates(sb, st, st')
    ensures Sound(sb, st')
  {
    hide Sound, Owned, Written, Truncated;
    if i: nat, off: nat, src :| Written(sb, st, st', i, off, src) {
      WriteKeepsSound(sb, st, st', i, off, src);
    } else {
      var i: nat :| Truncated(sb, st, st', i);
      TruncKeepsSound(sb, st, st', i);
    }
  }

  // ---------------------------------------------------------- whole runs

  ghost predicate Quiet(s: Log.Sys) {
    s.outstanding == 0
  }

  /**
    The file system behind a run of the log, in which `fs[i]` is the state that
    the operations finished or taking effect by moment i make.  Whenever no
    operation is in progress the log shows that state.  After a crash it is what
    the kernel finds on the disk.
   */
  ghost predicate Serves(L: Core.Layout, sb: Super, run: seq<Log.Sys>, fs: seq<Fs>) {
    && Fits(L, sb) && Log.IsRun(L, run) && |fs| == |run|
    && (forall i | 0 <= i < |run| && Log.SysInv(L, run[i]) && Quiet(run[i]) ::
          Shows(L, sb, Core.Current(L, run[i].core), fs[i]))
    && (forall i | 0 <= i < |run| - 1 :: Goes(L, sb, run[i], run[i + 1], fs[i], fs[i + 1]))
  }

  ghost predicate Goes(L: Core.Layout, sb: Super, s: Log.Sys, s': Log.Sys, st: Fs, st': Fs) {
    || st' == st
    || Operates(sb, st, st')
    || (sb.Valid() && Log.SysInv(L, s) && s' == Log.PowerLoss(s) && st' == Decoded(sb, Core.Durable(L, s.core)))
  }

  lemma InvDisk(L: Core.Layout, s: Log.Sys)
    requires Log.SysInv(L, s)
    ensures Core.DiskOk(L, s.core.disk)
  {
  }

  /** A state at or before moment i that the durable contents show. */
  lemma DurableShows(L: Core.Layout, sb: Super, run: seq<Log.Sys>, fs: seq<Fs>, i: nat) returns (j: nat)
    requires Serves(L, sb, run, fs) && i < |run| && (L.size > Core.LOGSIZE || Log.Contained(L, run[i]))
    ensures j <= i && Log.SysInv(L, run[i]) && Core.DiskOk(L, run[i].core.disk) && Quiet(run[j])
    ensures Shows(L, sb, Core.Durable(L, run[i].core), fs[j])
  {
    hide Log.SysInv, Log.IsRun, Shows;
    j := Log.DurableIsAnEarlierQuietState(L, run, i);
    InvDisk(L, run[i]);
    assert Log.Abs(L, run[j]).active == run[j].outstanding;
  }

  /** Every state of the file system is sound. */
  lemma {:induction false} ServedSound(L: Core.Layout, sb: Super, run: seq<Log.Sys>, fs: seq<Fs>, i: nat)
    requires Serves(L, sb, run, fs) && i < |run| && (L.size > Core.LOGSIZE || Log.Contained(L, run[i]))
    requires Sound(sb, fs[0])
    ensures Sound(sb, fs[i])
  {
    hide Sound, Operates, Shows, Decoded, Log.SysInv, Log.IsRun, Log.PowerLoss, Core.DiskOk;
    if i > 0 {
      var k := i - 1;
      assert Goes(L, sb, run[k], run[k + 1], fs[k], fs[k + 1]);
      EarlierContained(L, run, k);
      ServedSound(L, sb, run, fs, k);
      if fs[i] == fs[k] {
      } else if Operates(sb, fs[k], fs[i]) {
        OperationKeepsSound(sb, fs[k], fs[i]);
      } else {
        var j := DurableShows(L, sb, run, fs, k);
        EarlierContained(L, run, j);
        ServedSound(L, sb, run, fs, j);
        DecodedSound(L, sb, Core.Durable(L, run[k].core), fs[j]);
      }
    }
  }

  lemma EarlierContained(L: Core.Layout, run: seq<Log.Sys>, k: nat)
    requires Log.IsRun(L, run) && k + 1 < |run|
    ensures Log.Contained(L, run[k])
  {
    assert Log.CanStep(L, run[k], run[k + 1]);
  }

  /**
    Crash safety: at every moment of every run, the disk that a crash would
    leave decodes to a file system in which the used blocks are exactly the
    referenced ones and none is referenced twice, no file has holes, and every
    file has the contents it had at some earlier moment with no operation in
    progress, the same for all files.
   */
  lemma CrashLeavesSound(L: Core.Layout, sb: Super, run: seq<Log.Sys>, fs: seq<Fs>, i: nat) returns (j: nat)
    requires Serves(L, sb, run, fs) && i < |run| && (L.size > Core.LOGSIZE || Log.Contained(L, run[i]))
    requires Sound(sb, fs[0])
    ensures j <= i && Quiet(run[j]) && Log.SysInv(L, run[i]) && Sound(sb, fs[j])
    ensures var d := Decoded(sb, Core.Durable(L, run[i].core));
      Sound(sb, d) && d.inodes == fs[j].inodes && SameBytes(sb, fs[j], d)
  {
    hide Sound, Operates, Shows, Decoded, Log.SysInv, Log.IsRun, Core.DiskOk;
    j := DurableShows(L, sb, run, fs, i);
    if j < i { EarlierContained(L, run, j); }
    ServedSound(L, sb, run, fs, j);
    DecodedSound(L, sb, Core.Durable(L, run[i].core), fs[j]);
  }
}
