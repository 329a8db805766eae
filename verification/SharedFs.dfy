/**
  writei and itrunc by many processes at once, on different files: each step is
  one block handed to log_write, together with what the process does to its locked
  inode in memory around it, or such a change alone.  Whenever no operation is under
  way the file system is sound and every file has the contents that the finished
  operations gave it.
 */
module SharedFs {
  import opened Common
  import opened Blocks
  import opened FsFormat
  import opened FsState
  import opened FileBytes
  import opened FileSystem
  import opened SharedOwn
  import CrashSafety

  /** Inside bmap.  Taken: balloc has marked a block.  Cleared: and zeroed it, for the indirect block. */
  datatype Phase = Plain | Taken | Cleared | Finished

  /** How far itrunc has come. */
  datatype Emptying = Directs(k: nat) | Entries(k: nat) | Emptied | Over

  /** An operation on file i, whose lock its process holds; `tot` bytes of src are written. */
  datatype Op =
    | Writing(i: nat, off: nat, src: seq<Byte>, tot: nat, phase: Phase)
    | Truncating(i: nat, at: Emptying)

  /** files: the contents that the finished operations have made. */
  datatype Shared = Shared(m: Mid, ops: map<nat, Op>, files: seq<seq<Byte>>)

  // ------------------------------------------------------------- the steps

  datatype Deed =
    | StartWrite(i: nat, off: nat, src: seq<Byte>)
    | StartTrunc(i: nat)
    | Take(b: nat)
    | Fill
    | Enter
    | Store
    | Finish
    | FreeNext
    | End

  ghost predicate Locked(s: Shared, j: nat) {
    exists p | p in s.ops :: s.ops[p].i == j
  }

  /** The file block that the next byte goes to. */
  function Target(op: Op): nat
    requires op.Writing?
  {
    (op.off + op.tot) / BSIZE
  }

  /** A write under way, in the given phase. */
  ghost predicate Busy(sb: Super, s: Shared, p: nat, phase: Phase) {
    && Sized(sb, s.m.st) && p in s.ops && s.ops[p].Writing? && s.ops[p].phase == phase && s.ops[p].i < sb.ninodes
    && s.ops[p].tot <= |s.ops[p].src| && s.ops[p].off + |s.ops[p].src| <= MAXFILE * BSIZE
  }

  function WithOp(s: Shared, m: Mid, p: nat, op: Op): Shared {
    s.(m := m, ops := s.ops[p := op])
  }

  ghost predicate Takes(sb: Super, s: Shared, p: nat, b: nat, x: Option<nat>, s': Shared) {
    && Busy(sb, s, p, Plain)
    && var op := s.ops[p];
       && op.tot < |op.src| && Addr(sb, s.m.st, op.i, Target(op)) == 0 && b < sb.size && !Bit(sb, s.m.st, b)
       && x == Some(sb.BBlock(b)) && s' == WithOp(s, Marked(sb, s.m, p, b), p, op.(phase := Taken))
  }

  /** The slot of the inode that bmap fills next, if it is not an entry of the indirect block. */
  function InodeGap(st: Fs, op: Op): Option<nat>
    requires op.Writing? && op.i < |st.inodes| && |st.inodes[op.i].addrs| == NDIRECT + 1
  {
    if Target(op) < NDIRECT then Some(Target(op))
    else if st.inodes[op.i].addrs[NDIRECT] == 0 then Some(NDIRECT) else None
  }

  ghost predicate Fills(sb: Super, s: Shared, p: nat, x: Option<nat>, s': Shared) {
    && Busy(sb, s, p, Taken) && p in s.m.pend && s.m.pend[p] < sb.size
    && var op, gap := s.ops[p], InodeGap(s.m.st, s.ops[p]);
       && x == Some(s.m.pend[p])
       && if gap.Some? then s' == WithOp(s, Attached(s.m, p, op.i, gap.value), p, op.(phase := Plain))
          else s' == WithOp(s, Zeroed(s.m, p), p, op.(phase := Cleared))
  }

  ghost predicate Enters(sb: Super, s: Shared, p: nat, x: Option<nat>, s': Shared) {
    && Busy(sb, s, p, Cleared) && p in s.m.pend && s.m.pend[p] < sb.size
    && var op := s.ops[p];
       && NDIRECT <= Target(op) < MAXFILE && 0 < s.m.st.inodes[op.i].addrs[NDIRECT] < sb.size
       && x == Some(s.m.st.inodes[op.i].addrs[NDIRECT])
       && s' == WithOp(s, Entered(sb, s.m, p, op.i, Target(op) - NDIRECT), p, op.(phase := Plain))
  }

  /** How many bytes go into the current block. */
  function Part(op: Op): nat
    requires op.Writing? && op.tot <= |op.src|
  {
    Min(|op.src| - op.tot, BSIZE - (op.off + op.tot) % BSIZE)
  }

  /** The block with those bytes laid over it. */
  function Laid(op: Op, blk: Block): Block
    requires op.Writing? && op.tot <= |op.src|
  {
    var at := (op.off + op.tot) % BSIZE;
    blk[..at] + op.src[op.tot..op.tot + Part(op)] + blk[at + Part(op)..]
  }

  ghost predicate Stores(sb: Super, s: Shared, p: nat, x: Option<nat>, s': Shared) {
    && Busy(sb, s, p, Plain)
    && var op := s.ops[p];
       && op.tot < |op.src|
       && var a := Addr(sb, s.m.st, op.i, Target(op));
          && 0 < a < sb.size && x == Some(a)
          && s' == WithOp(s, Stored(sb, s.m, op.i, Target(op), Laid(op, s.m.st.blocks[a])), p,
                          op.(tot := op.tot + Part(op)))
  }

  ghost predicate Finishes(sb: Super, s: Shared, p: nat, x: Option<nat>, s': Shared) {
    && Busy(sb, s, p, Plain)
    && var op := s.ops[p];
       && op.tot == |op.src|
       && if |op.src| > 0 && op.off + |op.src| > s.m.st.inodes[op.i].size then
            && x == Some(sb.IBlock(op.i)) && op.off + |op.src| < UINT_LIMIT
            && s' == WithOp(s, WithSize(sb, s.m, op.i, op.off + |op.src|), p, op.(phase := Finished))
          else x == None && s' == WithOp(s, s.m, p, op.(phase := Finished))
  }

  ghost predicate FreesNext(sb: Super, s: Shared, p: nat, x: Option<nat>, s': Shared) {
    && Sized(sb, s.m.st) && p in s.ops && s.ops[p].Truncating? && s.ops[p].i < sb.ninodes
    && var op, m := s.ops[p], s.m;
       var addrs := m.st.inodes[op.i].addrs;
       match op.at
       case Directs(k) =>
         if k < NDIRECT then
           if addrs[k] != 0 then
             && addrs[k] < sb.size && x == Some(sb.BBlock(addrs[k]))
             && s' == WithOp(s, FreedAddr(sb, m, op.i, k), p, op.(at := Directs(k + 1)))
           else x == None && s' == WithOp(s, m, p, op.(at := Directs(k + 1)))
         else if addrs[NDIRECT] != 0 then
           x == None && s' == WithOp(s, m.(dead := m.dead[op.i := 0]), p, op.(at := Entries(0)))
         else x == None && s' == WithOp(s, m, p, op.(at := Emptied))
       case Entries(k) =>
         if k < NINDIRECT then
           && Ref(sb, m.st, NONE, Entry(op.i, k)) < sb.size
           && x == (if Ref(sb, m.st, NONE, Entry(op.i, k)) == 0 then None
                    else Some(sb.BBlock(Ref(sb, m.st, NONE, Entry(op.i, k)))))
           && s' == WithOp(s, FreedEntry(sb, m, op.i, k), p, op.(at := Entries(k + 1)))
         else
           && addrs[NDIRECT] < sb.size && x == Some(sb.BBlock(addrs[NDIRECT]))
           && s' == WithOp(s, FreedAddr(sb, m, op.i, NDIRECT), p, op.(at := Emptied))
       case Emptied => x == Some(sb.IBlock(op.i)) && s' == WithOp(s, WithSize(sb, m, op.i, 0), p, op.(at := Over))
       case Over => false
  }

  /** The contents that a finished operation leaves. */
  function Outcome(op: Op, c: seq<Byte>): seq<Byte> {
    match op
    case Writing(_, off, src, _, _) => if off <= |c| then Splice(c, off, src) else c
    case Truncating(_, _) => []
  }

  predicate IsDone(op: Op) {
    (op.Writing? && op.phase.Finished?) || (op.Truncating? && op.at.Over?)
  }

  /** One step of process p; x is the block that it logs. */
  ghost predicate Acts(sb: Super, s: Shared, p: nat, d: Deed, x: Option<nat>, s': Shared) {
    match d
    case StartWrite(i, off, src) =>
      && p !in s.ops && Sized(sb, s.m.st) && i < sb.ninodes && !Locked(s, i) && x == None
      && !BadWrite(s.m.st.inodes[i].size, off, |src|) && s' == WithOp(s, s.m, p, Writing(i, off, src, 0, Plain))
    case StartTrunc(i) =>
      && p !in s.ops && i < sb.ninodes && !Locked(s, i) && x == None
      && s' == WithOp(s, s.m, p, Truncating(i, Directs(0)))
    case Take(b) => Takes(sb, s, p, b, x, s')
    case Fill => Fills(sb, s, p, x, s')
    case Enter => Enters(sb, s, p, x, s')
    case Store => Stores(sb, s, p, x, s')
    case Finish => Finishes(sb, s, p, x, s')
    case FreeNext => FreesNext(sb, s, p, x, s')
    case End =>
      && p in s.ops && IsDone(s.ops[p]) && s.ops[p].i < |s.files| && x == None
      && s' == s.(ops := s.ops - {p}, files := s.files[s.ops[p].i := Outcome(s.ops[p], s.files[s.ops[p].i])])
  }

  // ------------------------------------------------------------- invariant

  /** The first |c| bytes of file j are c, in blocks that exist. */
  ghost predicate Shown(sb: Super, st: Fs, j: nat, c: seq<Byte>)
    requires Sized(sb, st) && j < sb.ninodes
  {
    && |c| <= MAXFILE * BSIZE && Allocated(sb, st, j, |c|)
    && forall q: nat | q < |c| :: ByteAt(sb, st, j, q) == c[q]
  }

  /** File j has the contents c, in memory and on disk. */
  ghost predicate Intact(sb: Super, st: Fs, j: nat, c: seq<Byte>)
    requires Sized(sb, st) && j < sb.ninodes
  {
    Shown(sb, st, j, c) && st.inodes[j].size == |c| && Synced(sb, st, j)
  }

  ghost predicate WritingOk(sb: Super, m: Mid, p: nat, op: Op, c: seq<Byte>)
    requires Sized(sb, m.st) && op.Writing? && op.i < sb.ninodes
  {
    && op.off <= |c| && op.off + |op.src| <= MAXFILE * BSIZE && op.tot <= |op.src| && op.i !in m.dead
    && (p in m.pend <==> op.phase.Taken? || op.phase.Cleared?)
    && if op.phase.Finished? then Intact(sb, m.st, op.i, Splice(c, op.off, op.src))
       else
         && m.st.inodes[op.i].size == |c| && Shown(sb, m.st, op.i, Splice(c, op.off, op.src[..op.tot]))
         && (op.off + |op.src| <= |c| ==> Synced(sb, m.st, op.i))
         && (op.phase.Taken? || op.phase.Cleared? ==>
               && 0 < m.pend[p] < sb.size && op.tot < |op.src| && Addr(sb, m.st, op.i, Target(op)) == 0)
         && (op.phase.Cleared? ==>
               && Target(op) >= NDIRECT && m.st.inodes[op.i].addrs[NDIRECT] != 0
               && m.st.blocks[m.pend[p]] == ZeroBlock())
  }

  ghost predicate EmptyingOk(sb: Super, m: Mid, p: nat, op: Op)
    requires Sized(sb, m.st) && op.Truncating? && op.i < sb.ninodes
  {
    var addrs := m.st.inodes[op.i].addrs;
    && p !in m.pend
    && match op.at
       case Directs(k) => k <= NDIRECT && op.i !in m.dead && forall h | 0 <= h < k :: addrs[h] == 0
       case Entries(k) =>
         && k <= NINDIRECT && op.i in m.dead && m.dead[op.i] == k && addrs[NDIRECT] != 0
         && forall h | 0 <= h < NDIRECT :: addrs[h] == 0
       case Emptied => op.i !in m.dead && forall h | 0 <= h <= NDIRECT :: addrs[h] == 0
       case Over => op.i !in m.dead && Intact(sb, m.st, op.i, [])
  }

  ghost predicate OpOk(sb: Super, s: Shared, p: nat)
    requires Sized(sb, s.m.st) && |s.files| == sb.ninodes && p in s.ops
  {
    && s.ops[p].i < sb.ninodes
    && match s.ops[p]
       case Writing(i, _, _, _, _) => WritingOk(sb, s.m, p, s.ops[p], s.files[i])
       case Truncating(_, _) => EmptyingOk(sb, s.m, p, s.ops[p])
  }

  ghost predicate Inv(sb: Super, s: Shared) {
    && OwnedBy(sb, s.m) && |s.files| == sb.ninodes
    && (forall p | p in s.ops :: OpOk(sb, s, p))
    && (forall p, q | p in s.ops && q in s.ops && p != q :: s.ops[p].i != s.ops[q].i)
    && (forall p | p in s.m.pend :: p in s.ops)
    && (forall i | i in s.m.dead :: Locked(s, i))
    && (forall j: nat | j < sb.ninodes && !Locked(s, j) :: Intact(sb, s.m.st, j, s.files[j]))
  }

  // ---------------------------------------------------------- what it is for

  /** With no operation under way the file system is sound, and has the files that were written. */
  lemma AtRest(sb: Super, s: Shared)
    requires Inv(sb, s) && s.ops == map[]
    ensures CrashSafety.Sound(sb, s.m.st)
    ensures forall j: nat | j < sb.ninodes ::
        s.m.st.inodes[j].size <= MAXFILE * BSIZE && Contents(sb, s.m.st, j) == s.files[j]
  {
    hide Bit, Ref, DiskInode, OwnedBy;
    assert OwnedBy(sb, s.m);
    assert s.m.pend == map[] && s.m.dead == map[];
    OwnedAtRest(sb, s.m);
    forall j: nat | j < sb.ninodes
      ensures NoHoles(sb, s.m.st, j) && Synced(sb, s.m.st, j)
      ensures s.m.st.inodes[j].size <= MAXFILE * BSIZE && Contents(sb, s.m.st, j) == s.files[j]
    {
      assert Intact(sb, s.m.st, j, s.files[j]);
    }
  }

  // --------------------------------------------------------- other operations

  lemma ShownStays(sb: Super, st: Fs, st': Fs, j: nat, c: seq<Byte>)
    requires Sized(sb, st) && Sized(sb, st') && j < sb.ninodes && Shown(sb, st, j, c)
    requires SameBytesOf(sb, st, st', j)
    requires forall n: nat | n < MAXFILE && Addr(sb, st, j, n) != 0 :: Addr(sb, st', j, n) != 0
    ensures Shown(sb, st', j, c)
  {
    hide ByteAt, Addr;
  }

  lemma SameAddrsOf(sb: Super, st: Fs, st': Fs, j: nat)
    requires Sized(sb, st) && Sized(sb, st') && j < sb.ninodes && SameRefsOf(sb, st, st', j)
    ensures forall n: nat | n < MAXFILE :: Addr(sb, st', j, n) == Addr(sb, st, j, n)
  {
    hide Ref;
    forall n: nat | n < MAXFILE
      ensures Addr(sb, st', j, n) == Addr(sb, st, j, n)
    {
      assert IsSlot(sb, DataSlot(j, n)) && DataSlot(j, n).inum == j;
    }
  }

  lemma FileStays(sb: Super, m: Mid, st': Fs, j: nat, c: seq<Byte>)
    requires SameFile(sb, m, st', j) && j !in m.dead
    ensures Shown(sb, m.st, j, c) ==> Shown(sb, st', j, c)
    ensures Intact(sb, m.st, j, c) ==> Intact(sb, st', j, c)
    ensures Synced(sb, m.st, j) ==> Synced(sb, st', j)
  {
    hide ByteAt, Addr, Ref, DiskInode, Shown;
    SameAddrsOf(sb, m.st, st', j);
    if Shown(sb, m.st, j, c) { ShownStays(sb, m.st, st', j, c); }
  }

  /** What a step by process p on file i leaves to the others. */
  ghost predicate Spares(sb: Super, m: Mid, m': Mid, p: nat, i: nat) {
    && Sized(sb, m.st) && Sized(sb, m'.st)
    && (forall j: nat | j < sb.ninodes && j != i :: SameFile(sb, m, m'.st, j))
    && (forall q | q != p :: (q in m'.pend <==> q in m.pend) && (q in m.pend ==> m'.pend[q] == m.pend[q]))
    && (forall q | q != p && q in m.pend && m.pend[q] < sb.size :: m'.st.blocks[m.pend[q]] == m.st.blocks[m.pend[q]])
    && (forall j | j != i :: (j in m'.dead <==> j in m.dead) && (j in m.dead ==> m'.dead[j] == m.dead[j]))
  }

  lemma OtherWrites(sb: Super, m: Mid, m': Mid, p: nat, i: nat, q: nat, op: Op, c: seq<Byte>)
    requires Spares(sb, m, m', p, i) && q != p && op.Writing? && op.i < sb.ninodes && op.i != i
    requires WritingOk(sb, m, q, op, c)
    ensures WritingOk(sb, m', q, op, c)
  {
    hide Shown, Synced, Ref, ByteAt, DiskInode, Splice, Addr;
    assert SameFile(sb, m, m'.st, op.i);
    SameAddrsOf(sb, m.st, m'.st, op.i);
    FileStays(sb, m, m'.st, op.i, Splice(c, op.off, op.src));
    FileStays(sb, m, m'.st, op.i, Splice(c, op.off, op.src[..op.tot]));
  }

  lemma OtherEmpties(sb: Super, m: Mid, m': Mid, p: nat, i: nat, q: nat, op: Op)
    requires Spares(sb, m, m', p, i) && q != p && op.Truncating? && op.i < sb.ninodes && op.i != i
    requires EmptyingOk(sb, m, q, op)
    ensures EmptyingOk(sb, m', q, op)
  {
    hide Shown, Synced, Ref, ByteAt, DiskInode;
    assert SameFile(sb, m, m'.st, op.i);
    if op.i !in m.dead { FileStays(sb, m, m'.st, op.i, []); }
  }

  /** The rest of the system is not disturbed. */
  lemma OthersStay(sb: Super, s: Shared, s': Shared, p: nat, i: nat)
    requires Inv(sb, s) && Spares(sb, s.m, s'.m, p, i) && i < sb.ninodes
    requires |s'.files| == |s.files| && forall j | 0 <= j < |s.files| && j != i :: s'.files[j] == s.files[j]
    requires forall q | q != p :: (q in s'.ops <==> q in s.ops) && (q in s.ops ==> s'.ops[q] == s.ops[q])
    requires p in s.ops ==> s.ops[p].i == i
    requires p in s'.ops ==> s'.ops[p].i == i
    requires forall q | q in s.ops && q != p :: s.ops[q].i != i
    ensures forall q | q in s'.ops && q != p :: OpOk(sb, s', q)
    ensures forall j: nat | j < sb.ninodes && j != i && !Locked(s', j) :: Intact(sb, s'.m.st, j, s'.files[j])
    ensures forall j | j != i :: Locked(s', j) <==> Locked(s, j)
  {
    hide WritingOk, EmptyingOk, Intact, SameFile, OwnedBy;
    forall j | j != i
      ensures Locked(s', j) <==> Locked(s, j)
    {
      if q :| q in s.ops && s.ops[q].i == j { assert s'.ops[q].i == j; }
      if q :| q in s'.ops && s'.ops[q].i == j { assert s.ops[q].i == j; }
    }
    forall q | q in s'.ops && q != p
      ensures OpOk(sb, s', q)
    {
      assert OpOk(sb, s, q);
      match s.ops[q]
      case Writing(j, _, _, _, _) => OtherWrites(sb, s.m, s'.m, p, i, q, s.ops[q], s.files[j]);
      case Truncating(_, _) => OtherEmpties(sb, s.m, s'.m, p, i, q, s.ops[q]);
    }
    forall j: nat | j < sb.ninodes && j != i && !Locked(s', j)
      ensures Intact(sb, s'.m.st, j, s'.files[j])
    {
      assert j !in s.m.dead;
      FileStays(sb, s.m, s'.m.st, j, s.files[j]);
    }
  }

  lemma SparesWhen(sb: Super, m: Mid, m': Mid, p: nat, i: nat, x: nat, u: Use)
    requires OwnedBy(sb, m) && Sized(sb, m'.st) && Touches(m.st, m'.st, x) && 0 < x
    requires x < sb.nmeta || (IsUse(sb, u) && Holds(sb, m, u) == x && (u == Pend(p) || u.At?))
    requires forall j: nat | j < sb.ninodes && j != i :: SameFile(sb, m, m'.st, j)
    requires forall q | q != p :: (q in m'.pend <==> q in m.pend) && (q in m.pend ==> m'.pend[q] == m.pend[q])
    requires forall j | j != i :: (j in m'.dead <==> j in m.dead) && (j in m.dead ==> m'.dead[j] == m.dead[j])
    ensures Spares(sb, m, m', p, i)
  {
    hide Bit, Ref, SameFile;
    forall q | q != p && q in m.pend && m.pend[q] < sb.size
      ensures m'.st.blocks[m.pend[q]] == m.st.blocks[m.pend[q]]
    {
      assert Holds(sb, m, Pend(q)) == m.pend[q];
    }
  }

  // -------------------------------------------------------- the steps of writei

  lemma SpliceLength(c: seq<Byte>, off: nat, src: seq<Byte>)
    requires off <= |c|
    ensures |Splice(c, off, src)| == Max(|c|, off + |src|)
    ensures src == [] ==> Splice(c, off, src) == c
  {
  }

  /** A block is missing only where the file grows. */
  lemma OnlyGrowing(sb: Super, st: Fs, op: Op, c: seq<Byte>)
    requires Sized(sb, st) && op.Writing? && op.i < sb.ninodes && op.off <= |c| && op.tot < |op.src|
    requires op.off + |op.src| <= MAXFILE * BSIZE
    requires Shown(sb, st, op.i, Splice(c, op.off, op.src[..op.tot])) && Addr(sb, st, op.i, Target(op)) == 0
    ensures op.off + |op.src| > |c|
  {
    hide Addr, ByteAt;
    SpliceLength(c, op.off, op.src[..op.tot]);
    var n := Target(op);
    assert n * BSIZE <= op.off + op.tot && n < MAXFILE;
  }

  /** A step by p on file i that logs block x, if any, and keeps what all rely on. */
  ghost predicate Kept(sb: Super, m: Mid, p: nat, i: nat, x: Option<nat>, m': Mid) {
    && OwnedBy(sb, m') && Spares(sb, m, m', p, i) && i < sb.ninodes
    && (x.Some? ==> sb.inodestart <= x.value < sb.size && Touches(m.st, m'.st, x.value))
    && (x.None? ==> m'.st.blocks == m.st.blocks)
  }

  /** What is left to show for a step of an operation under way. */
  lemma StepKeeps(sb: Super, s: Shared, p: nat, x: Option<nat>, m': Mid, op': Op)
    requires Inv(sb, s) && p in s.ops && op'.i == s.ops[p].i && Kept(sb, s.m, p, op'.i, x, m')
    requires OpOk(sb, WithOp(s, m', p, op'), p)
    ensures Inv(sb, WithOp(s, m', p, op'))
  {
    hide OwnedBy, OpOk, Intact, SameFile, Touches;
    var s' := WithOp(s, m', p, op');
    OthersStay(sb, s, s', p, op'.i);
    assert Locked(s', op'.i) by { assert p in s'.ops && s'.ops[p].i == op'.i; }
  }

  lemma OpFacts(sb: Super, s: Shared, p: nat)
    requires Inv(sb, s) && p in s.ops
    ensures OwnedBy(sb, s.m) && Sized(sb, s.m.st) && |s.files| == sb.ninodes && s.ops[p].i < sb.ninodes
    ensures s.ops[p].Writing? ==> WritingOk(sb, s.m, p, s.ops[p], s.files[s.ops[p].i])
    ensures s.ops[p].Truncating? ==> EmptyingOk(sb, s.m, p, s.ops[p])
  {
    assert OpOk(sb, s, p);
  }

  lemma WriteStep(sb: Super, s: Shared, p: nat, x: Option<nat>, m': Mid, op': Op)
    requires Inv(sb, s) && p in s.ops && op'.Writing? && op'.i == s.ops[p].i && Kept(sb, s.m, p, op'.i, x, m')
    requires Sized(sb, m'.st) && |s.files| == sb.ninodes && WritingOk(sb, m', p, op', s.files[op'.i])
    ensures Inv(sb, WithOp(s, m', p, op'))
  {
    hide WritingOk, Kept, Inv;
    assert s.ops[p].i < sb.ninodes by { OpFacts(sb, s, p); }
    var s' := WithOp(s, m', p, op');
    assert s'.ops[p] == op' && OpOk(sb, s', p);
    StepKeeps(sb, s, p, x, m', op');
  }

  lemma TakeMid(sb: Super, m: Mid, p: nat, op: Op, c: seq<Byte>, b: nat)
    requires OwnedBy(sb, m) && op.Writing? && op.i < sb.ninodes && WritingOk(sb, m, p, op, c) && op.phase.Plain?
    requires op.tot < |op.src| && Addr(sb, m.st, op.i, Target(op)) == 0 && b < sb.size && !Bit(sb, m.st, b)
    ensures Kept(sb, m, p, op.i, Some(sb.BBlock(b)), Marked(sb, m, p, b))
    ensures WritingOk(sb, Marked(sb, m, p, b), p, op.(phase := Taken), c)
  {
    hide Bit, Ref, ByteAt, DiskInode, OwnedBy, Shown, Splice, SameFile, Touches, Addr;
    OwnedBySized(sb, m);
    MarkedKeeps(sb, m, p, b);
    var m' := Marked(sb, m, p, b);
    OwnedBySized(sb, m');
    SparesWhen(sb, m, m', p, op.i, sb.BBlock(b), Pend(p));
    SameFileFacts(sb, m, m'.st, op.i);
    FileStays(sb, m, m'.st, op.i, Splice(c, op.off, op.src[..op.tot]));
    SameAddrsOf(sb, m.st, m'.st, op.i);
  }

  lemma OwnedBySized(sb: Super, m: Mid)
    requires OwnedBy(sb, m)
    ensures Sized(sb, m.st)
  {
  }

  lemma SameFileFacts(sb: Super, m: Mid, st': Fs, j: nat)
    requires SameFile(sb, m, st', j)
    ensures Sized(sb, m.st) && Sized(sb, st') && j < sb.ninodes && st'.inodes[j] == m.st.inodes[j]
    ensures SameRefsOf(sb, m.st, st', j)
  {
  }

  lemma TakeKeeps(sb: Super, s: Shared, p: nat, b: nat, x: Option<nat>, s': Shared)
    requires Inv(sb, s) && Takes(sb, s, p, b, x, s')
    ensures Inv(sb, s') && Kept(sb, s.m, p, s.ops[p].i, x, s'.m)
  {
    hide Inv, Kept, WritingOk, OwnedBy, Bit, Addr, Marked;
    var op := s.ops[p];
    OpFacts(sb, s, p);
    TakeMid(sb, s.m, p, op, s.files[op.i], b);
    KeptSized(sb, s.m, p, op.i, x, s'.m);
    WriteStep(sb, s, p, x, s'.m, op.(phase := Taken));
  }

  lemma KeptSized(sb: Super, m: Mid, p: nat, i: nat, x: Option<nat>, m': Mid)
    requires Kept(sb, m, p, i, x, m')
    ensures Sized(sb, m'.st)
  {
  }

  lemma GapIsFree(sb: Super, st: Fs, op: Op)
    requires Sized(sb, st) && op.Writing? && op.i < sb.ninodes && Target(op) < MAXFILE
    requires Addr(sb, st, op.i, Target(op)) == 0
    ensures InodeGap(st, op).Some? ==>
        InodeGap(st, op).value <= NDIRECT && st.inodes[op.i].addrs[InodeGap(st, op).value] == 0
    ensures InodeGap(st, op).None? ==> Target(op) >= NDIRECT && st.inodes[op.i].addrs[NDIRECT] != 0
  {
    hide GetWord;
  }

  lemma AddrsGrow(sb: Super, st: Fs, st': Fs, i: nat, s0: Slot, b: nat)
    requires Sized(sb, st) && Sized(sb, st') && i < sb.ninodes && OneSlotOf(sb, st, st', i, s0, b) && b != 0
    ensures forall n: nat | n < MAXFILE && Addr(sb, st, i, n) != 0 :: Addr(sb, st', i, n) != 0
  {
    hide Ref;
    forall n: nat | n < MAXFILE && Addr(sb, st, i, n) != 0
      ensures Addr(sb, st', i, n) != 0
    {
      assert IsSlot(sb, DataSlot(i, n)) && DataSlot(i, n).inum == i;
    }
  }

  /** A write that has marked a block and now fills a slot of the inode. */
  lemma AttachMid(sb: Super, m: Mid, p: nat, op: Op, c: seq<Byte>, k: nat)
    requires OwnedBy(sb, m) && op.Writing? && op.i < sb.ninodes && WritingOk(sb, m, p, op, c) && op.phase.Taken?
    requires k <= NDIRECT && m.st.inodes[op.i].addrs[k] == 0
    ensures Kept(sb, m, p, op.i, Some(m.pend[p]), Attached(m, p, op.i, k))
    ensures WritingOk(sb, Attached(m, p, op.i, k), p, op.(phase := Plain), c)
  {
    hide Bit, Ref, ByteAt, DiskInode, OwnedBy, Shown, Splice, SameFile, Touches, Addr, SameBytesOf, OneSlotOf;
    OwnedBySized(sb, m);
    AttachedKeeps(sb, m, p, op.i, k);
    var m' := Attached(m, p, op.i, k);
    OwnedBySized(sb, m');
    PendInRange(sb, m, p);
    SparesWhen(sb, m, m', p, op.i, m.pend[p], Pend(p));
    OnlyGrowing(sb, m.st, op, c);
    AddrsGrow(sb, m.st, m'.st, op.i, InodeSlot(op.i, k), m.pend[p]);
    ShownStays(sb, m.st, m'.st, op.i, Splice(c, op.off, op.src[..op.tot]));
  }

  lemma ClearMid(sb: Super, m: Mid, p: nat, op: Op, c: seq<Byte>)
    requires OwnedBy(sb, m) && op.Writing? && op.i < sb.ninodes && WritingOk(sb, m, p, op, c) && op.phase.Taken?
    requires Target(op) >= NDIRECT && m.st.inodes[op.i].addrs[NDIRECT] != 0
    ensures Kept(sb, m, p, op.i, Some(m.pend[p]), Zeroed(m, p))
    ensures WritingOk(sb, Zeroed(m, p), p, op.(phase := Cleared), c)
  {
    hide Bit, Ref, ByteAt, DiskInode, OwnedBy, Shown, Splice, SameFile, Touches, Addr;
    OwnedBySized(sb, m);
    ZeroedKeeps(sb, m, p);
    var m' := Zeroed(m, p);
    OwnedBySized(sb, m');
    PendInRange(sb, m, p);
    SparesWhen(sb, m, m', p, op.i, m.pend[p], Pend(p));
    SameFileFacts(sb, m, m'.st, op.i);
    FileStays(sb, m, m'.st, op.i, Splice(c, op.off, op.src[..op.tot]));
    SameAddrsOf(sb, m.st, m'.st, op.i);
  }

  lemma FillKeeps(sb: Super, s: Shared, p: nat, x: Option<nat>, s': Shared)
    requires Inv(sb, s) && Fills(sb, s, p, x, s')
    ensures Inv(sb, s') && Kept(sb, s.m, p, s.ops[p].i, x, s'.m)
  {
    hide Inv, Kept, OwnedBy, Addr, Attached, Zeroed, Shown, Synced;
    var op := s.ops[p];
    OpFacts(sb, s, p);
    GapIsFree(sb, s.m.st, op);
    var gap := InodeGap(s.m.st, op);
    if gap.Some? {
      AttachMid(sb, s.m, p, op, s.files[op.i], gap.value);
    } else {
      ClearMid(sb, s.m, p, op, s.files[op.i]);
    }
    hide WritingOk;
    KeptSized(sb, s.m, p, op.i, x, s'.m);
    WriteStep(sb, s, p, x, s'.m, s'.ops[p]);
  }

  lemma EnterMid(sb: Super, m: Mid, p: nat, op: Op, c: seq<Byte>)
    requires OwnedBy(sb, m) && op.Writing? && op.i < sb.ninodes && WritingOk(sb, m, p, op, c) && op.phase.Cleared?
    requires 0 < m.st.inodes[op.i].addrs[NDIRECT] < sb.size && NDIRECT <= Target(op) < MAXFILE
    ensures Kept(sb, m, p, op.i, Some(m.st.inodes[op.i].addrs[NDIRECT]), Entered(sb, m, p, op.i, Target(op) - NDIRECT))
    ensures WritingOk(sb, Entered(sb, m, p, op.i, Target(op) - NDIRECT), p, op.(phase := Plain), c)
  {
    hide Bit, Ref, ByteAt, DiskInode, OwnedBy, Shown, Splice, SameFile, Touches, SameBytesOf, OneSlotOf;
    var k := Target(op) - NDIRECT;
    OwnedBySized(sb, m);
    EnteredKeeps(sb, m, p, op.i, k);
    var m' := Entered(sb, m, p, op.i, k);
    OwnedBySized(sb, m');
    IndirectUse(sb, m, op.i);
    SparesWhen(sb, m, m', p, op.i, m.st.inodes[op.i].addrs[NDIRECT], At(Indirect(op.i)));
    OnlyGrowing(sb, m.st, op, c);
    AddrsGrow(sb, m.st, m'.st, op.i, Entry(op.i, k), m.pend[p]);
    ShownStays(sb, m.st, m'.st, op.i, Splice(c, op.off, op.src[..op.tot]));
  }

  lemma EnterKeeps(sb: Super, s: Shared, p: nat, x: Option<nat>, s': Shared)
    requires Inv(sb, s) && Enters(sb, s, p, x, s')
    ensures Inv(sb, s') && Kept(sb, s.m, p, s.ops[p].i, x, s'.m)
  {
    hide Inv, Kept, OwnedBy, Addr, Entered, WritingOk;
    var op := s.ops[p];
    OpFacts(sb, s, p);
    EnterMid(sb, s.m, p, op, s.files[op.i]);
    KeptSized(sb, s.m, p, op.i, x, s'.m);
    WriteStep(sb, s, p, x, s'.m, op.(phase := Plain));
  }

  // ------------------------------------------------------------- a block stored

  lemma SpliceStep(c: seq<Byte>, off: nat, src: seq<Byte>, tot: nat, cnt: nat, q: nat)
    requires off <= |c| && tot + cnt <= |src|
    ensures |Splice(c, off, src[..tot + cnt])| == Max(|Splice(c, off, src[..tot])|, off + tot + cnt)
    ensures off + tot <= |Splice(c, off, src[..tot])|
    ensures var c' := Splice(c, off, src[..tot + cnt]);
      q < |c'| ==> c'[q] == if off + tot <= q < off + tot + cnt then src[q - off] else Splice(c, off, src[..tot])[q]
  {
  }

  lemma LaidAt(op: Op, blk: Block, r: nat)
    requires op.Writing? && op.tot <= |op.src| && r < BSIZE
    ensures var at := (op.off + op.tot) % BSIZE;
      Laid(op, blk)[r] == if at <= r < at + Part(op) then op.src[op.tot + (r - at)] else blk[r]
  {
  }

  lemma StoreByte(sb: Super, m: Mid, st': Fs, op: Op, c: seq<Byte>, q: nat)
    requires Sized(sb, m.st) && Sized(sb, st') && op.Writing? && op.i < sb.ninodes
    requires op.off <= |c| && op.off + |op.src| <= MAXFILE * BSIZE && op.tot < |op.src|
    requires 0 < Addr(sb, m.st, op.i, Target(op)) < sb.size
    requires BlockOver(sb, m.st, st', op.i, Target(op), Laid(op, m.st.blocks[Addr(sb, m.st, op.i, Target(op))]))
    requires Shown(sb, m.st, op.i, Splice(c, op.off, op.src[..op.tot]))
    requires q < |Splice(c, op.off, op.src[..op.tot + Part(op)])| <= MAXFILE * BSIZE
    ensures ByteAt(sb, st', op.i, q) == Splice(c, op.off, op.src[..op.tot + Part(op)])[q]
  {
    hide Ref, Splice, Addr, Laid;
    var blk := m.st.blocks[Addr(sb, m.st, op.i, Target(op))];
    SpliceStep(c, op.off, op.src, op.tot, Part(op), q);
    LaidAt(op, blk, q % BSIZE);
    var o := op.off + op.tot;
    if q / BSIZE == o / BSIZE {
      assert q - o == q % BSIZE - o % BSIZE;
      assert ByteAt(sb, m.st, op.i, q) == blk[q % BSIZE];
    } else {
      assert !(o <= q < o + Part(op));
    }
  }

  lemma StoreShown(sb: Super, m: Mid, st': Fs, op: Op, c: seq<Byte>)
    requires Sized(sb, m.st) && Sized(sb, st') && op.Writing? && op.i < sb.ninodes
    requires op.off <= |c| && op.off + |op.src| <= MAXFILE * BSIZE && op.tot < |op.src|
    requires 0 < Addr(sb, m.st, op.i, Target(op)) < sb.size && SameRefsOf(sb, m.st, st', op.i)
    requires BlockOver(sb, m.st, st', op.i, Target(op), Laid(op, m.st.blocks[Addr(sb, m.st, op.i, Target(op))]))
    requires Shown(sb, m.st, op.i, Splice(c, op.off, op.src[..op.tot]))
    ensures Shown(sb, st', op.i, Splice(c, op.off, op.src[..op.tot + Part(op)]))
  {
    hide Ref, Splice, Addr, Laid, ByteAt, BlockOver;
    var c', o := Splice(c, op.off, op.src[..op.tot + Part(op)]), op.off + op.tot;
    SpliceStep(c, op.off, op.src, op.tot, Part(op), 0);
    SameAddrsOf(sb, m.st, st', op.i);
    forall q: nat | q < |c'|
      ensures ByteAt(sb, st', op.i, q) == c'[q]
    {
      StoreByte(sb, m, st', op, c, q);
    }
    forall n: nat | n < MAXFILE && n * BSIZE < |c'|
      ensures Addr(sb, st', op.i, n) != 0
    {
      if n * BSIZE >= |Splice(c, op.off, op.src[..op.tot])| { assert n == o / BSIZE; }
    }
  }

  lemma StoreMid(sb: Super, m: Mid, p: nat, op: Op, c: seq<Byte>)
    requires OwnedBy(sb, m) && op.Writing? && op.i < sb.ninodes && WritingOk(sb, m, p, op, c) && op.phase.Plain?
    requires op.tot < |op.src| && 0 < Addr(sb, m.st, op.i, Target(op)) < sb.size
    ensures var a := Addr(sb, m.st, op.i, Target(op));
      var m' := Stored(sb, m, op.i, Target(op), Laid(op, m.st.blocks[a]));
      && Kept(sb, m, p, op.i, Some(a), m') && WritingOk(sb, m', p, op.(tot := op.tot + Part(op)), c)
  {
    hide Bit, Ref, ByteAt, DiskInode, OwnedBy, Shown, Splice, SameFile, Touches, Addr, Laid, BlockOver;
    OwnedBySized(sb, m);
    var n := Target(op);
    var a := Addr(sb, m.st, op.i, n);
    var blk := Laid(op, m.st.blocks[a]);
    StoredKeeps(sb, m, op.i, n, blk);
    DataHolds(sb, m, op.i, n);
    var m' := Stored(sb, m, op.i, n, blk);
    OwnedBySized(sb, m');
    SparesWhen(sb, m, m', p, op.i, a, At(DataSlot(op.i, n)));
    StoreShown(sb, m, m'.st, op, c);
    SameAddrsOf(sb, m.st, m'.st, op.i);
  }

  lemma DataHolds(sb: Super, m: Mid, i: nat, n: nat)
    requires OwnedBy(sb, m) && i < sb.ninodes && i !in m.dead && n < MAXFILE && Addr(sb, m.st, i, n) != 0
    ensures IsUse(sb, At(DataSlot(i, n))) && Holds(sb, m, At(DataSlot(i, n))) == Addr(sb, m.st, i, n) >= sb.nmeta
  {
    hide Bit, Ref;
  }

  lemma StoreKeeps(sb: Super, s: Shared, p: nat, x: Option<nat>, s': Shared)
    requires Inv(sb, s) && Stores(sb, s, p, x, s')
    ensures Inv(sb, s') && Kept(sb, s.m, p, s.ops[p].i, x, s'.m)
  {
    hide Inv, Kept, OwnedBy, Addr, Stored, WritingOk, Laid;
    var op := s.ops[p];
    OpFacts(sb, s, p);
    StoreMid(sb, s.m, p, op, s.files[op.i]);
    KeptSized(sb, s.m, p, op.i, x, s'.m);
    WriteStep(sb, s, p, x, s'.m, op.(tot := op.tot + Part(op)));
  }

  lemma WholeSrc(op: Op)
    requires op.Writing? && op.tot == |op.src|
    ensures op.src[..op.tot] == op.src
  {
  }

  lemma FinishMid(sb: Super, m: Mid, p: nat, op: Op, c: seq<Byte>)
    requires OwnedBy(sb, m) && op.Writing? && op.i < sb.ninodes && WritingOk(sb, m, p, op, c) && op.phase.Plain?
    requires op.tot == |op.src| && |op.src| > 0 && op.off + |op.src| > |c| && op.off + |op.src| < UINT_LIMIT
    ensures var m' := WithSize(sb, m, op.i, op.off + |op.src|);
      Kept(sb, m, p, op.i, Some(sb.IBlock(op.i)), m') && WritingOk(sb, m', p, op.(phase := Finished), c)
  {
    hide Bit, Ref, ByteAt, DiskInode, OwnedBy, Shown, Splice, SameFile, Touches, Addr, SameBytesOf, SameRefsOf;
    OwnedBySized(sb, m);
    var m' := WithSize(sb, m, op.i, op.off + |op.src|);
    WithSizeKeeps(sb, m, op.i, op.off + |op.src|);
    OwnedBySized(sb, m');
    InodeBlockIsMeta(sb, op.i);
    SparesWhen(sb, m, m', p, op.i, sb.IBlock(op.i), Pend(p));
    WholeSrc(op);
    SpliceLength(c, op.off, op.src);
    SameAddrsOf(sb, m.st, m'.st, op.i);
    ShownStays(sb, m.st, m'.st, op.i, Splice(c, op.off, op.src));
  }

  lemma FinishInPlace(sb: Super, m: Mid, p: nat, op: Op, c: seq<Byte>)
    requires OwnedBy(sb, m) && op.Writing? && op.i < sb.ninodes && WritingOk(sb, m, p, op, c) && op.phase.Plain?
    requires op.tot == |op.src| && !(|op.src| > 0 && op.off + |op.src| > |c|)
    ensures Kept(sb, m, p, op.i, None, m) && WritingOk(sb, m, p, op.(phase := Finished), c)
  {
    hide Bit, Ref, ByteAt, DiskInode, Shown, Splice, Addr;
    KeptSame(sb, m, p, op.i);
    WholeSrc(op);
    SpliceLength(c, op.off, op.src);
  }

  lemma KeptSame(sb: Super, m: Mid, p: nat, i: nat)
    requires OwnedBy(sb, m) && i < sb.ninodes
    ensures Kept(sb, m, p, i, None, m)
  {
    hide Bit, Ref, ByteAt, DiskInode;
  }

  lemma FinishKeeps(sb: Super, s: Shared, p: nat, x: Option<nat>, s': Shared)
    requires Inv(sb, s) && Finishes(sb, s, p, x, s')
    ensures Inv(sb, s') && Kept(sb, s.m, p, s.ops[p].i, x, s'.m)
  {
    hide Inv, Kept, OwnedBy, WithSize, Shown, Synced;
    var op := s.ops[p];
    OpFacts(sb, s, p);
    if |op.src| > 0 && op.off + |op.src| > s.m.st.inodes[op.i].size {
      FinishMid(sb, s.m, p, op, s.files[op.i]);
    } else {
      FinishInPlace(sb, s.m, p, op, s.files[op.i]);
    }
    hide WritingOk;
    KeptSized(sb, s.m, p, op.i, x, s'.m);
    WriteStep(sb, s, p, x, s'.m, op.(phase := Finished));
  }

  // -------------------------------------------------------- the steps of itrunc

  lemma TruncStep(sb: Super, s: Shared, p: nat, x: Option<nat>, m': Mid, op': Op)
    requires Inv(sb, s) && p in s.ops && op'.Truncating? && op'.i == s.ops[p].i && Kept(sb, s.m, p, op'.i, x, m')
    requires Sized(sb, m'.st) && |s.files| == sb.ninodes && op'.i < sb.ninodes && EmptyingOk(sb, m', p, op')
    ensures Inv(sb, WithOp(s, m', p, op'))
  {
    hide EmptyingOk, Kept, Inv;
    var s' := WithOp(s, m', p, op');
    assert s'.ops[p] == op' && OpOk(sb, s', p);
    StepKeeps(sb, s, p, x, m', op');
  }

  lemma FreeDirectMid(sb: Super, m: Mid, p: nat, op: Op, k: nat)
    requires OwnedBy(sb, m) && op.Truncating? && op.i < sb.ninodes && EmptyingOk(sb, m, p, op)
    requires op.at == Directs(k) && k < NDIRECT && m.st.inodes[op.i].addrs[k] != 0
    ensures m.st.inodes[op.i].addrs[k] < sb.size
    ensures var m' := FreedAddr(sb, m, op.i, k);
      && Kept(sb, m, p, op.i, Some(sb.BBlock(m.st.inodes[op.i].addrs[k])), m')
      && EmptyingOk(sb, m', p, op.(at := Directs(k + 1)))
  {
    hide Bit, Ref, ByteAt, DiskInode, OwnedBy, SameFile, Touches, WithBit;
    OwnedBySized(sb, m);
    FreedDirectKeeps(sb, m, op.i, k);
    var m' := FreedAddr(sb, m, op.i, k);
    OwnedBySized(sb, m');
    BBlockIsMeta(sb, m.st.inodes[op.i].addrs[k]);
    SparesWhen(sb, m, m', p, op.i, sb.BBlock(m.st.inodes[op.i].addrs[k]), Pend(p));
  }

  /** The entries of the indirect block are about to be freed. */
  lemma OpenEntriesMid(sb: Super, m: Mid, p: nat, op: Op)
    requires OwnedBy(sb, m) && op.Truncating? && op.i < sb.ninodes && EmptyingOk(sb, m, p, op)
    requires op.at == Directs(NDIRECT) && m.st.inodes[op.i].addrs[NDIRECT] != 0
    ensures var m' := m.(dead := m.dead[op.i := 0]);
      Kept(sb, m, p, op.i, None, m') && EmptyingOk(sb, m', p, op.(at := Entries(0)))
  {
    hide Bit, Ref, ByteAt, DiskInode;
    var m' := m.(dead := m.dead[op.i := 0]);
    assert SameUses(sb, m, m');
    UsesStay(sb, m, m');
  }

  lemma FreeEntryMid(sb: Super, m: Mid, p: nat, op: Op, k: nat)
    requires OwnedBy(sb, m) && op.Truncating? && op.i < sb.ninodes && EmptyingOk(sb, m, p, op)
    requires op.at == Entries(k) && k < NINDIRECT
    ensures Ref(sb, m.st, NONE, Entry(op.i, k)) < sb.size
    ensures var b, m' := Ref(sb, m.st, NONE, Entry(op.i, k)), FreedEntry(sb, m, op.i, k);
      && Kept(sb, m, p, op.i, if b == 0 then None else Some(sb.BBlock(b)), m')
      && EmptyingOk(sb, m', p, op.(at := Entries(k + 1)))
  {
    hide Bit, Ref, ByteAt, DiskInode, OwnedBy, SameFile, Touches, WithBit;
    OwnedBySized(sb, m);
    EntryUses(sb, m, op.i, k);
    FreedEntryKeeps(sb, m, op.i, k);
    var b, m' := Ref(sb, m.st, NONE, Entry(op.i, k)), FreedEntry(sb, m, op.i, k);
    OwnedBySized(sb, m');
    if b != 0 {
      BBlockIsMeta(sb, b);
      SparesWhen(sb, m, m', p, op.i, sb.BBlock(b), Pend(p));
    }
  }

  lemma FreeIndirectMid(sb: Super, m: Mid, p: nat, op: Op)
    requires OwnedBy(sb, m) && op.Truncating? && op.i < sb.ninodes && EmptyingOk(sb, m, p, op)
    requires op.at == Entries(NINDIRECT)
    ensures m.st.inodes[op.i].addrs[NDIRECT] < sb.size
    ensures var m' := FreedAddr(sb, m, op.i, NDIRECT);
      && Kept(sb, m, p, op.i, Some(sb.BBlock(m.st.inodes[op.i].addrs[NDIRECT])), m')
      && EmptyingOk(sb, m', p, op.(at := Emptied))
  {
    hide Bit, Ref, ByteAt, DiskInode, OwnedBy, SameFile, Touches, WithBit;
    OwnedBySized(sb, m);
    FreedIndirectKeeps(sb, m, op.i);
    var m' := FreedAddr(sb, m, op.i, NDIRECT);
    OwnedBySized(sb, m');
    BBlockIsMeta(sb, m.st.inodes[op.i].addrs[NDIRECT]);
    SparesWhen(sb, m, m', p, op.i, sb.BBlock(m.st.inodes[op.i].addrs[NDIRECT]), Pend(p));
  }

  lemma EmptyMid(sb: Super, m: Mid, p: nat, op: Op)
    requires OwnedBy(sb, m) && op.Truncating? && op.i < sb.ninodes && EmptyingOk(sb, m, p, op) && op.at.Emptied?
    ensures var m' := WithSize(sb, m, op.i, 0);
      Kept(sb, m, p, op.i, Some(sb.IBlock(op.i)), m') && EmptyingOk(sb, m', p, op.(at := Over))
  {
    hide Bit, Ref, ByteAt, DiskInode, OwnedBy, SameFile, Touches;
    OwnedBySized(sb, m);
    WithSizeKeeps(sb, m, op.i, 0);
    var m' := WithSize(sb, m, op.i, 0);
    OwnedBySized(sb, m');
    InodeBlockIsMeta(sb, op.i);
    SparesWhen(sb, m, m', p, op.i, sb.IBlock(op.i), Pend(p));
  }

  lemma SkipMid(sb: Super, m: Mid, p: nat, op: Op)
    requires OwnedBy(sb, m) && op.Truncating? && op.i < sb.ninodes && EmptyingOk(sb, m, p, op) && op.at.Directs?
    ensures Kept(sb, m, p, op.i, None, m)
    ensures op.at.k < NDIRECT && m.st.inodes[op.i].addrs[op.at.k] == 0 ==>
        EmptyingOk(sb, m, p, op.(at := Directs(op.at.k + 1)))
    ensures op.at.k == NDIRECT && m.st.inodes[op.i].addrs[NDIRECT] == 0 ==> EmptyingOk(sb, m, p, op.(at := Emptied))
  {
    hide Kept;
    KeptSame(sb, m, p, op.i);
  }

  lemma FreeNextMid(sb: Super, s: Shared, p: nat, x: Option<nat>, s': Shared)
    requires FreesNext(sb, s, p, x, s') && OwnedBy(sb, s.m) && EmptyingOk(sb, s.m, p, s.ops[p])
    ensures Kept(sb, s.m, p, s.ops[p].i, x, s'.m) && Sized(sb, s'.m.st) && s'.ops[p].Truncating?
    ensures s'.ops[p].i == s.ops[p].i && EmptyingOk(sb, s'.m, p, s'.ops[p])
  {
    hide Kept, OwnedBy, FreedAddr, FreedEntry, WithSize, Ref, Intact;
    var op, m := s.ops[p], s.m;
    var addrs := m.st.inodes[op.i].addrs;
    match op.at {
      case Directs(k) =>
        if k < NDIRECT && addrs[k] != 0 {
          FreeDirectMid(sb, m, p, op, k);
        } else if k == NDIRECT && addrs[NDIRECT] != 0 {
          OpenEntriesMid(sb, m, p, op);
        } else {
          SkipMid(sb, m, p, op);
        }
      case Entries(k) => if k < NINDIRECT { FreeEntryMid(sb, m, p, op, k); } else { FreeIndirectMid(sb, m, p, op); }
      case Emptied => EmptyMid(sb, m, p, op);
    }
    KeptSized(sb, m, p, op.i, x, s'.m);
  }

  lemma FreeNextKeeps(sb: Super, s: Shared, p: nat, x: Option<nat>, s': Shared)
    requires Inv(sb, s) && FreesNext(sb, s, p, x, s')
    ensures Inv(sb, s') && Kept(sb, s.m, p, s.ops[p].i, x, s'.m)
  {
    OpFacts(sb, s, p);
    hide Inv, Kept, OwnedBy, EmptyingOk;
    FreeNextMid(sb, s, p, x, s');
    assert s' == WithOp(s, s'.m, p, s'.ops[p]);
    hide FreesNext;
    TruncStep(sb, s, p, x, s'.m, s'.ops[p]);
  }

  // --------------------------------------------------------- begin and end

  lemma StartKeeps(sb: Super, s: Shared, p: nat, op: Op)
    requires Inv(sb, s) && p !in s.ops && op.i < sb.ninodes && !Locked(s, op.i)
    requires op.Truncating? ==> op.at == Directs(0)
    requires op.Writing? ==> op.tot == 0 && op.phase.Plain?
    requires op.Writing? ==> !BadWrite(s.m.st.inodes[op.i].size, op.off, |op.src|)
    ensures Inv(sb, WithOp(s, s.m, p, op)) && Kept(sb, s.m, p, op.i, None, s.m)
  {
    hide Shown, Synced, OwnedBy;
    var s' := WithOp(s, s.m, p, op);
    assert OwnedBy(sb, s.m);
    OwnedBySized(sb, s.m);
    assert Intact(sb, s.m.st, op.i, s.files[op.i]);
    KeptSame(sb, s.m, p, op.i);
    assert op.i !in s.m.dead && p !in s.m.pend;
    if op.Writing? {
      SpliceLength(s.files[op.i], op.off, op.src[..op.tot]);
    }
    assert OpOk(sb, s', p);
    hide OpOk, Intact;
    OthersStay(sb, s, s', p, op.i);
    assert Locked(s', op.i) by { assert p in s'.ops && s'.ops[p].i == op.i; }
  }

  lemma EndKeeps(sb: Super, s: Shared, p: nat, s': Shared)
    requires Inv(sb, s) && Acts(sb, s, p, End, None, s')
    ensures Inv(sb, s') && Kept(sb, s.m, p, s.ops[p].i, None, s'.m)
  {
    hide Shown, Synced, OwnedBy, Splice;
    var op := s.ops[p];
    OpFacts(sb, s, p);
    assert Intact(sb, s.m.st, op.i, s'.files[op.i]);
    KeptSame(sb, s.m, p, op.i);
    assert p !in s.m.pend && op.i !in s.m.dead;
    hide OpOk, Intact, WritingOk, EmptyingOk;
    OthersStay(sb, s, s', p, op.i);
    assert !Locked(s', op.i);
  }

  /** Every step of every operation, whatever the others are doing, keeps the file system in order. */
  lemma NextKeeps(sb: Super, s: Shared, p: nat, d: Deed, x: Option<nat>, s': Shared)
    requires Inv(sb, s) && Acts(sb, s, p, d, x, s')
    ensures Inv(sb, s') && |s'.m.st.blocks| == |s.m.st.blocks|
    ensures x.None? ==> s'.m.st.blocks == s.m.st.blocks
    ensures x.Some? ==> sb.inodestart <= x.value < sb.size && Touches(s.m.st, s'.m.st, x.value)
  {
    hide Inv, OwnedBy, Spares;
    match d
    case StartWrite(i, off, src) => StartKeeps(sb, s, p, Writing(i, off, src, 0, Plain));
    case StartTrunc(i) => StartKeeps(sb, s, p, Truncating(i, Directs(0)));
    case Take(b) => TakeKeeps(sb, s, p, b, x, s');
    case Fill => FillKeeps(sb, s, p, x, s');
    case Enter => EnterKeeps(sb, s, p, x, s');
    case Store => StoreKeeps(sb, s, p, x, s');
    case Finish => FinishKeeps(sb, s, p, x, s');
    case FreeNext => FreeNextKeeps(sb, s, p, x, s');
    case End => EndKeeps(sb, s, p, s');
  }

  /** A step changes the operation of its own process only. */
  lemma OnlyOwn(sb: Super, s: Shared, p: nat, d: Deed, x: Option<nat>, s': Shared)
    requires Acts(sb, s, p, d, x, s')
    ensures forall q | q in s'.ops && q != p :: q in s.ops
  {
    hide Sized, Addr, Bit, Ref;
  }
}
