/**
  The on-disk formats of fs.h: free-map bits and inode records, both stored
  inside raw blocks.
 */
module FsFormat {
  import opened Common
  import opened Blocks

  const NDIRECT := 12
  const NINDIRECT := WORDS
  const MAXFILE := NDIRECT + NINDIRECT
  const BPB := 4096  // bits of the free map per block
  const IPB := 8     // inodes per block
  const IWORDS := 16 // sizeof(struct dinode) in words

  // ----------------------------------------------------------------- bits

  /** x & (1 << k) */
  function TestBit(x: nat, k: nat): bool {
    if k == 0 then x % 2 == 1 else TestBit(x / 2, k - 1)
  }

  /** x | (1 << k), or x & ~(1 << k). */
  function PutBit(x: nat, k: nat, v: bool): nat {
    if k == 0 then x / 2 * 2 + (if v then 1 else 0) else x % 2 + 2 * PutBit(x / 2, k - 1, v)
  }

  lemma {:induction false} PutBitReads(x: nat, k: nat, v: bool, j: nat)
    ensures TestBit(PutBit(x, k, v), j) == if j == k then v else TestBit(x, j)
  {
    if k > 0 && j > 0 {
      PutBitReads(x / 2, k - 1, v, j - 1);
      assert (x % 2 + 2 * PutBit(x / 2, k - 1, v)) / 2 == PutBit(x / 2, k - 1, v);
    }
  }

  function Pow2(n: nat): (r: nat)
    ensures r > 0
  {
    if n == 0 then 1 else 2 * Pow2(n - 1)
  }

  lemma {:induction false} PutBitFits(x: nat, k: nat, v: bool, n: nat)
    requires x < Pow2(n) && k < n
    ensures PutBit(x, k, v) < Pow2(n)
  {
    if k > 0 {
      PutBitFits(x / 2, k - 1, v, n - 1);
    }
  }

  predicate BitIn(blk: Block, i: nat)
    requires i < BPB
  {
    TestBit(blk[i / 8], i % 8)
  }

  function MarkBit(blk: Block, i: nat, v: bool): (r: Block)
    requires i < BPB
    ensures forall j: nat | j < BPB :: BitIn(r, j) == if j == i then v else BitIn(blk, j)
  {
    PutBitFits(blk[i / 8], i % 8, v, 8);
    assert Pow2(8) == 256;
    assert forall j: nat ::
        TestBit(PutBit(blk[i / 8], i % 8, v), j) == if j == i % 8 then v else TestBit(blk[i / 8], j) by {
      forall j: nat { PutBitReads(blk[i / 8], i % 8, v, j); }
    }
    blk[i / 8 := PutBit(blk[i / 8], i % 8, v)]
  }

  /** Block number 8 * i + k is bit k of byte i, counted from the low end. */
  lemma BitOfByte(blk: Block, i: nat, k: nat)
    requires i < BSIZE && k < 8
    ensures BitIn(blk, 8 * i + k) <==> blk[i] / Pow2(k) % 2 == 1
  {
    assert (8 * i + k) / 8 == i && (8 * i + k) % 8 == k;
    ShiftedBit(blk[i], k);
  }

  lemma {:induction false} ShiftedBit(x: nat, k: nat)
    ensures TestBit(x, k) <==> x / Pow2(k) % 2 == 1
  {
    if k > 0 {
      ShiftedBit(x / 2, k - 1);
      HalfFirst(x, Pow2(k - 1));
    }
  }

  lemma HalfFirst(x: nat, n: nat)
    requires n > 0
    ensures x / 2 / n == x / (2 * n)
  {
    var q, r := x / 2 / n, x / 2 % n;
    assert x == 2 * n * q + (2 * r + x % 2) by { assert x / 2 == n * q + r; }
    assert 2 * r + x % 2 < 2 * n;
    Quotient(x, 2 * n, q, 2 * r + x % 2);
  }

  lemma Quotient(x: nat, n: nat, q: nat, r: nat)
    requires n > 0 && r < n && x == n * q + r
    ensures x / n == q
  {
    var d := x / n - q;
    assert n * d + x % n == r;
    Multiple(n, d);
  }

  lemma Multiple(n: int, d: int)
    requires n > 0
    ensures d >= 1 ==> n * d >= n
    ensures d <= -1 ==> n * d <= -n
  {
  }

  // --------------------------------------------------------------- inodes

  type Short = x: int | 0 <= x < 0x1_0000

  datatype Inode = Inode(typ: Short, major: Short, minor: Short, nlink: Short, size: Word, addrs: seq<Word>)

  /** The record as the 16 words that struct dinode occupies. */
  function InodeWords(ip: Inode): seq<Word>
    requires |ip.addrs| == NDIRECT + 1
  {
    [ip.typ + 0x1_0000 * ip.major, ip.minor + 0x1_0000 * ip.nlink, ip.size] + ip.addrs
  }

  /** Word k of the record in the given slot of an inode block. */
  function IWord(blk: Block, slot: nat, k: nat): Word
    requires slot < IPB && k < IWORDS
  {
    GetWord(blk, slot * IWORDS + k)
  }

  function GetInode(blk: Block, slot: nat): (ip: Inode)
    requires slot < IPB
    ensures |ip.addrs| == NDIRECT + 1
  {
    Inode(IWord(blk, slot, 0) % 0x1_0000, IWord(blk, slot, 0) / 0x1_0000,
          IWord(blk, slot, 1) % 0x1_0000, IWord(blk, slot, 1) / 0x1_0000,
          IWord(blk, slot, 2),
          seq<Word>(NDIRECT + 1, k requires 0 <= k < NDIRECT + 1 => IWord(blk, slot, 3 + k)))
  }

  function PutWords(blk: Block, base: nat, ws: seq<Word>): (r: Block)
    requires base + |ws| <= WORDS
    decreases |ws|
  {
    if ws == [] then blk else PutWord(PutWords(blk, base, ws[..|ws| - 1]), base + |ws| - 1, ws[|ws| - 1])
  }

  lemma {:induction false} PutWordsReads(blk: Block, base: nat, ws: seq<Word>, j: nat)
    requires base + |ws| <= WORDS && j < WORDS
    ensures GetWord(PutWords(blk, base, ws), j) == if base <= j < base + |ws| then ws[j - base] else GetWord(blk, j)
    decreases |ws|
  {
    hide GetWord, PutWord;
    if ws != [] {
      PutWordsReads(blk, base, ws[..|ws| - 1], j);
    }
  }

  /** iupdate's stores into the inode block. */
  function PutInode(blk: Block, slot: nat, ip: Inode): Block
    requires slot < IPB && |ip.addrs| == NDIRECT + 1
  {
    PutWords(blk, slot * IWORDS, InodeWords(ip))
  }

  lemma PutInodeWord(blk: Block, slot: nat, ip: Inode, other: nat, k: nat)
    requires slot < IPB && |ip.addrs| == NDIRECT + 1 && other < IPB && k < IWORDS
    ensures IWord(PutInode(blk, slot, ip), other, k) == if other == slot then InodeWords(ip)[k]
        else IWord(blk, other, k)
  {
    hide GetWord, PutWord, PutWords;
    PutWordsReads(blk, slot * IWORDS, InodeWords(ip), other * IWORDS + k);
  }

  /** The record reads back as written; its neighbours in the block are untouched. */
  lemma PutInodeReads(blk: Block, slot: nat, ip: Inode, other: nat)
    requires slot < IPB && |ip.addrs| == NDIRECT + 1 && other < IPB
    ensures GetInode(PutInode(blk, slot, ip), other) == if other == slot then ip else GetInode(blk, other)
  {
    hide IWord, PutInode;
    PutInodeWord(blk, slot, ip, other, 0);
    PutInodeWord(blk, slot, ip, other, 1);
    PutInodeWord(blk, slot, ip, other, 2);
    var got, was := GetInode(PutInode(blk, slot, ip), other).addrs, GetInode(blk, other).addrs;
    forall k | 0 <= k < NDIRECT + 1
      ensures got[k] == if other == slot then ip.addrs[k] else was[k]
    {
      PutInodeWord(blk, slot, ip, other, 3 + k);
    }
    assert got == if other == slot then ip.addrs else was;
  }

  /** The number whose bytes, from the low end, are these: as xshort and xint of mkfs take it apart. */
  function FromBytes(bs: seq<Byte>): int {
    if bs == [] then 0 else FromBytes(bs[1..]) * 0x100 + bs[0]
  }

  lemma TwoBytes(bs: seq<Byte>)
    requires |bs| == 2
    ensures FromBytes(bs) == Compose(bs[0], bs[1], 0, 0)
  {
    assert FromBytes(bs[1..]) == FromBytes(bs[1..][1..]) * 0x100 + bs[1];
  }

  lemma FourBytes(bs: seq<Byte>)
    requires |bs| == 4
    ensures FromBytes(bs) == Compose(bs[0], bs[1], bs[2], bs[3])
  {
    TwoBytes(bs[1..][1..]);
    assert FromBytes(bs[1..]) == FromBytes(bs[1..][1..]) * 0x100 + bs[1];
  }

  lemma IWordBytes(blk: Block, slot: nat, k: nat, p: nat)
    requires slot < IPB && k < IWORDS && p == 64 * slot + 4 * k
    ensures p + 4 <= BSIZE && IWord(blk, slot, k) == FromBytes(blk[p..p + 4])
  {
    FourBytes(blk[p..p + 4]);
  }

  lemma Halves(blk: Block, p: nat)
    requires p + 4 <= BSIZE
    ensures FromBytes(blk[p..p + 4]) % 0x1_0000 == FromBytes(blk[p..p + 2])
    ensures FromBytes(blk[p..p + 4]) / 0x1_0000 == FromBytes(blk[p + 2..p + 4])
  {
    FourBytes(blk[p..p + 4]);
    TwoBytes(blk[p..p + 2]);
    TwoBytes(blk[p + 2..p + 4]);
  }

  /** Where the fields of struct dinode are: 64 bytes a record. */
  lemma InodeBytes(blk: Block, slot: nat, p: nat, k: nat)
    requires slot < IPB && p == 64 * slot && k <= NDIRECT
    ensures var ip := GetInode(blk, slot);
      && p + 64 <= BSIZE
      && ip.typ == FromBytes(blk[p..p + 2]) && ip.major == FromBytes(blk[p + 2..p + 4])
      && ip.minor == FromBytes(blk[p + 4..p + 6]) && ip.nlink == FromBytes(blk[p + 6..p + 8])
      && ip.size == FromBytes(blk[p + 8..p + 12])
      && ip.addrs[k] == FromBytes(blk[p + 12 + 4 * k..p + 16 + 4 * k])
  {
    hide FromBytes, IWord;
    IWordBytes(blk, slot, 0, p);
    IWordBytes(blk, slot, 1, p + 4);
    IWordBytes(blk, slot, 2, p + 8);
    IWordBytes(blk, slot, 3 + k, p + 12 + 4 * k);
    Halves(blk, p);
    Halves(blk, p + 4);
  }
}
