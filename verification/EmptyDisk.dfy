/**
  An empty file system: the free map marks the blocks up to the first data
  block, and no inode refers to any.  It is sound, and a run of the log on it that
  takes one operation to the disk is built step by step.
 */
module EmptyDisk {
  import opened Common
  import opened Blocks
  import opened FsFormat
  import opened FsState
  import opened FileBytes
  import opened FileSystem
  import opened CrashSafety
  import opened SerialRuns
  import Core = LogCore
  import Log = LogSystem

  function FreeInode(): Inode {
    Inode(0, 0, 0, 0, 0, seq<Word>(NDIRECT + 1, _ => 0))
  }

  /** All blocks zero but for the first k bits of the free map. */
  function MarkedUpTo(sb: Super, k: nat): (blocks: seq<Block>)
    requires sb.Valid() && k <= sb.size
    ensures |blocks| == sb.size
  {
    if k == 0 then seq(sb.size, _ => ZeroBlock()) else WithBit(sb, MarkedUpTo(sb, k - 1), k - 1, true)
  }

  function Formatted(sb: Super): Fs
    requires sb.Valid()
  {
    Fs(MarkedUpTo(sb, sb.nmeta), seq(sb.ninodes, _ => FreeInode()))
  }

  lemma ZeroBits(i: nat)
    requires i < BPB
    ensures !BitIn(ZeroBlock(), i)
  {
    ZeroTests(i % 8);
  }

  lemma {:induction false} ZeroTests(k: nat)
    ensures !TestBit(0, k)
  {
    if k > 0 { ZeroTests(k - 1); }
  }

  ghost predicate MarksFirst(sb: Super, k: nat, st: Fs) {
    && Sized(sb, st) && k <= sb.size
    && (forall x: nat | x < sb.size && !(sb.bmapstart <= x < sb.nmeta) :: st.blocks[x] == ZeroBlock())
    && (forall x: nat | x < sb.size :: Bit(sb, st, x) <==> x < k)
  }

  lemma FirstSized(sb: Super, k: nat, st: Fs)
    requires MarksFirst(sb, k, st)
    ensures Sized(sb, st)
  {
  }

  lemma {:induction false} MarkedBits(sb: Super, k: nat)
    requires sb.Valid() && k <= sb.size
    ensures MarksFirst(sb, k, Formatted(sb).(blocks := MarkedUpTo(sb, k)))
  {
    hide MarksFirst, Formatted, WithBit;
    if k == 0 {
      NoneMarked(sb);
    } else {
      var st := Formatted(sb).(blocks := MarkedUpTo(sb, k - 1));
      MarkedBits(sb, k - 1);
      FirstSized(sb, k - 1, st);
      OneMoreMarked(sb, k - 1, st);
    }
  }

  lemma NoneMarked(sb: Super)
    requires sb.Valid()
    ensures MarksFirst(sb, 0, Formatted(sb).(blocks := MarkedUpTo(sb, 0)))
  {
    hide BitIn;
    forall x: nat | x < sb.size
      ensures !Bit(sb, Formatted(sb).(blocks := MarkedUpTo(sb, 0)), x)
    {
      BBlockIsMeta(sb, x);
      ZeroBits(x % BPB);
    }
  }

  lemma OneMoreMarked(sb: Super, k: nat, st: Fs)
    requires MarksFirst(sb, k, st) && k < sb.size
    ensures MarksFirst(sb, k + 1, st.(blocks := WithBit(sb, st.blocks, k, true)))
  {
    hide BitIn, MarkBit, Bit;
    BBlockIsMeta(sb, k);
    WithBitSets(sb, st, k, true);
  }

  lemma ZeroInode(slot: nat)
    requires slot < IPB
    ensures GetInode(ZeroBlock(), slot) == FreeInode()
  {
    hide GetWord;
    forall k: nat | k < IWORDS
      ensures IWord(ZeroBlock(), slot, k) == 0
    {
      ZeroWords(slot * IWORDS + k);
    }
    assert GetInode(ZeroBlock(), slot).addrs == FreeInode().addrs;
  }

  /** It is sound: the used blocks are the metadata, no file has holes, and the inodes are on disk. */
  lemma FormattedIsSound(sb: Super)
    requires sb.Valid()
    ensures Sound(sb, Formatted(sb))
  {
    hide Bit, GetInode, MarkedUpTo;
    var st := Formatted(sb);
    MarkedBits(sb, sb.nmeta);
    assert st == st.(blocks := MarkedUpTo(sb, sb.nmeta));
    assert forall s | IsSlot(sb, s) :: Ref(sb, st, NONE, s) == 0;
    forall i: nat | i < sb.ninodes
      ensures NoHoles(sb, st, i) && Synced(sb, st, i)
    {
      assert i / IPB <= sb.ninodes / IPB;
      ZeroInode(i % IPB);
    }
  }

  /** mkfs, as far as the free map goes: zeroed blocks, and its loop that marks the used ones. */
  method Mkfs(sb: Super) returns (fs: FileSystem)
    requires sb.Valid()
    ensures fresh(fs) && fs.sb == sb && fs.Valid() && fs.State() == Formatted(sb) && Sound(sb, fs.State())
  {
    hide Bit, MarkBit;
    var blocks: seq<Block> := seq(sb.size, _ => ZeroBlock());
    for k := 0 to sb.nmeta
      invariant blocks == MarkedUpTo(sb, k)
    {
      BBlockIsMeta(sb, k);
      blocks := blocks[sb.BBlock(k) := MarkBit(blocks[sb.BBlock(k)], k % BPB, true)];
    }
    FormattedIsSound(sb);
    fs := new FileSystem(sb, Fs(blocks, seq(sb.ninodes, _ => FreeInode())));
  }

  /** itrunc of a file that has no blocks: the inode is written, and nothing else. */
  lemma TruncOfEmpty(sb: Super, i: nat) returns (written: map<nat, Block>)
    requires sb.Valid() && i < sb.ninodes
    ensures Sized(sb, Formatted(sb)) && |written| == 1 && written.Keys == {sb.IBlock(i)}
    ensures Completes(sb, Formatted(sb), written, Updated(sb, Formatted(sb), i))
  {
    hide Bit, GetInode, PutInode, MarkedUpTo;
    FormattedIsSound(sb);
    var st := Formatted(sb);
    var st' := Updated(sb, st, i);
    assert i / IPB <= sb.ninodes / IPB;
    UpdateSyncs(sb, st, i);
    EmptyTruncated(sb, st, i);
    hide Truncated, Owned;
    written := map[sb.IBlock(i) := st'.blocks[sb.IBlock(i)]];
    assert written.Keys == {sb.IBlock(i)};
  }

  lemma EmptyTruncated(sb: Super, st: Fs, i: nat)
    requires Owned(sb, st, NONE) && i < sb.ninodes && st.inodes[i] == FreeInode()
    ensures Truncated(sb, st, Updated(sb, st, i), i)
  {
    hide Bit, Ref, Owned, ByteAt, DiskInode;
    OwnedSized(sb, st);
    UpdateSyncs(sb, st, i);
    assert forall k | 0 <= k <= NDIRECT :: st.inodes[i].addrs[k] == 0;
  }

  /** A whole run: boot on a formatted disk, one operation, its commit; the disk then shows the result. */
  lemma FirstOperation(L: Core.Layout, sb: Super, i: nat) returns (t: Trace, s: Log.Sys)
    requires Fits(L, sb) && i < sb.ninodes && L.size >= 2
    ensures Sound(sb, Formatted(sb)) && Serial(L, sb, t.run, t.acts, t.ms) && t.ms[0].st == Formatted(sb)
    ensures |t.run| > 0 && t.run[|t.run| - 1] == s && Serves(L, sb, t.run, States(t.ms))
    ensures Core.DiskOk(L, s.core.disk) && Shows(L, sb, Core.Durable(L, s.core), Updated(sb, Formatted(sb), i))
  {
    hide Serial, Serves, Sound, Completes, Shows, Formatted, Updated;
    FormattedIsSound(sb);
    var written := TruncOfEmpty(sb, i);
    t, s := OperationReachesDisk(L, sb, Formatted(sb), written, Updated(sb, Formatted(sb), i));
    SerialLengths(L, sb, t.run, t.acts, t.ms);
    SerialServes(L, sb, t.run, t.acts, t.ms);
  }
}
