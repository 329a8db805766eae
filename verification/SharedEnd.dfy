/**
  Operations that overlap come to an end: a writei or itrunc under way can always go
  on, whatever the others have half done, and ends after a bounded number of its own
  steps; the one thing that stops a writei is a full disk.
 */
module SharedEnd {
  import opened Common
  import opened Blocks
  import opened FsFormat
  import opened FsState
  import opened FileBytes
  import opened FileSystem
  import opened SharedOwn
  import opened SharedFs

  /** bmap needs an indirect block before it can enter the block there. */
  predicate NoIndirect(st: Fs, op: Op)
    requires op.Writing? && op.i < |st.inodes| && |st.inodes[op.i].addrs| == NDIRECT + 1
  {
    Target(op) >= NDIRECT && st.inodes[op.i].addrs[NDIRECT] == 0
  }

  predicate Missing(sb: Super, st: Fs, op: Op)
    requires Sized(sb, st) && op.Writing? && op.i < sb.ninodes && op.tot < |op.src|
    requires op.off + |op.src| <= MAXFILE * BSIZE
  {
    Addr(sb, st, op.i, Target(op)) == 0
  }

  /** The next thing to do is balloc. */
  predicate WantsBlock(sb: Super, st: Fs, op: Op)
    requires Sized(sb, st)
  {
    && op.Writing? && op.i < sb.ninodes && op.phase.Plain? && op.tot < |op.src|
    && op.off + |op.src| <= MAXFILE * BSIZE && Missing(sb, st, op)
  }

  /** A bound on the steps that a write has before it. */
  function WriteLeft(sb: Super, st: Fs, op: Op): nat
    requires Sized(sb, st) && op.Writing? && op.i < sb.ninodes && op.tot <= |op.src|
    requires op.off + |op.src| <= MAXFILE * BSIZE
  {
    if op.phase.Finished? then 0
    else if op.tot == |op.src| then 1
    else
      8 * (|op.src| - op.tot) +
      match op.phase
      case Plain => if !Missing(sb, st, op) then 1 else if NoIndirect(st, op) then 7 else 5
      case Taken => if NoIndirect(st, op) then 6 else 4
      case _ => 3
  }

  function TruncLeft(at: Emptying): int {
    match at
    case Directs(k) => NDIRECT - k + NINDIRECT + 4
    case Entries(k) => NINDIRECT - k + 2
    case Emptied => 1
    case Over => 0
  }

  ghost predicate Bounded(sb: Super, s: Shared, p: nat) {
    && Sized(sb, s.m.st) && p in s.ops && s.ops[p].i < sb.ninodes
    && (s.ops[p].Writing? ==> s.ops[p].tot <= |s.ops[p].src| && s.ops[p].off + |s.ops[p].src| <= MAXFILE * BSIZE)
  }

  ghost function OpLeft(sb: Super, s: Shared, p: nat): int
    requires Bounded(sb, s, p)
  {
    if s.ops[p].Writing? then WriteLeft(sb, s.m.st, s.ops[p]) else TruncLeft(s.ops[p].at)
  }

  lemma InBounds(sb: Super, s: Shared, p: nat)
    requires Inv(sb, s) && p in s.ops
    ensures Bounded(sb, s, p) && OwnedBy(sb, s.m) && |s.files| == sb.ninodes
    ensures s.ops[p].Writing? ==> WritingOk(sb, s.m, p, s.ops[p], s.files[s.ops[p].i])
    ensures s.ops[p].Truncating? ==> EmptyingOk(sb, s.m, p, s.ops[p])
    ensures OpLeft(sb, s, p) >= 0
  {
    hide OwnedBy, Shown, Synced, Intact, Addr;
    OwnedBySized(sb, s.m);
    assert OpOk(sb, s, p);
  }

  lemma AddrDirect(sb: Super, st: Fs, op: Op)
    requires Sized(sb, st) && op.Writing? && op.i < sb.ninodes && op.tot < |op.src|
    requires op.off + |op.src| <= MAXFILE * BSIZE
    ensures Target(op) < MAXFILE
    ensures Target(op) < NDIRECT ==> Addr(sb, st, op.i, Target(op)) == st.inodes[op.i].addrs[Target(op)]
  {
  }

  lemma AddrInRange(sb: Super, m: Mid, i: nat, k: nat)
    requires OwnedBy(sb, m) && i < sb.ninodes && k <= NDIRECT
    ensures m.st.inodes[i].addrs[k] < sb.size
  {
    hide Bit;
    assert IsSlot(sb, InodeSlot(i, k)) && Holds(sb, m, At(InodeSlot(i, k))) == m.st.inodes[i].addrs[k];
  }

  lemma SlotInRange(sb: Super, m: Mid, s: Slot)
    requires OwnedBy(sb, m) && IsSlot(sb, s) && !IsDead(m, s)
    ensures Ref(sb, m.st, NONE, s) < sb.size
  {
    hide Bit, Ref;
    assert Holds(sb, m, At(s)) == Ref(sb, m.st, NONE, s);
  }

  lemma DataInRange(sb: Super, m: Mid, i: nat, n: nat)
    requires OwnedBy(sb, m) && i < sb.ninodes && i !in m.dead && n < MAXFILE
    ensures Addr(sb, m.st, i, n) < sb.size
  {
    SlotInRange(sb, m, DataSlot(i, n));
  }

  // ------------------------------------------------------------ it can go on

  lemma CanTake(sb: Super, s: Shared, p: nat) returns (d: Deed, x: Option<nat>, s': Shared)
    requires Bounded(sb, s, p) && WantsBlock(sb, s.m.st, s.ops[p]) && !DiskFull(sb, s.m.st)
    ensures Acts(sb, s, p, d, x, s')
  {
    hide Bit, Addr, Marked;
    var b: nat :| b < sb.size && !Bit(sb, s.m.st, b);
    d, x, s' := Take(b), Some(sb.BBlock(b)), WithOp(s, Marked(sb, s.m, p, b), p, s.ops[p].(phase := Taken));
    assert Takes(sb, s, p, b, x, s');
  }

  lemma CanFill(sb: Super, s: Shared, p: nat, c: seq<Byte>) returns (d: Deed, x: Option<nat>, s': Shared)
    requires Bounded(sb, s, p) && s.ops[p].Writing? && s.ops[p].phase.Taken?
    requires WritingOk(sb, s.m, p, s.ops[p], c)
    ensures Acts(sb, s, p, d, x, s')
  {
    hide Bit, Shown, Synced, Intact, Addr, Attached, Zeroed;
    var op, gap := s.ops[p], InodeGap(s.m.st, s.ops[p]);
    d, x := Fill, Some(s.m.pend[p]);
    s' := if gap.Some? then WithOp(s, Attached(s.m, p, op.i, gap.value), p, op.(phase := Plain))
    else WithOp(s, Zeroed(s.m, p), p, op.(phase := Cleared));
    assert Fills(sb, s, p, x, s');
  }

  lemma CanEnter(sb: Super, s: Shared, p: nat, c: seq<Byte>) returns (d: Deed, x: Option<nat>, s': Shared)
    requires Bounded(sb, s, p) && s.ops[p].Writing? && s.ops[p].phase.Cleared? && OwnedBy(sb, s.m)
    requires WritingOk(sb, s.m, p, s.ops[p], c)
    ensures Acts(sb, s, p, d, x, s')
  {
    hide Bit, Shown, Synced, Intact, OwnedBy, Addr, Entered;
    var op := s.ops[p];
    AddrInRange(sb, s.m, op.i, NDIRECT);
    AddrDirect(sb, s.m.st, op);
    d, x := Enter, Some(s.m.st.inodes[op.i].addrs[NDIRECT]);
    s' := WithOp(s, Entered(sb, s.m, p, op.i, Target(op) - NDIRECT), p, op.(phase := Plain));
    assert Enters(sb, s, p, x, s');
  }

  lemma CanStore(sb: Super, s: Shared, p: nat) returns (d: Deed, x: Option<nat>, s': Shared)
    requires Bounded(sb, s, p) && s.ops[p].Writing? && s.ops[p].phase.Plain? && OwnedBy(sb, s.m)
    requires s.ops[p].i !in s.m.dead && s.ops[p].tot < |s.ops[p].src| && !WantsBlock(sb, s.m.st, s.ops[p])
    ensures Acts(sb, s, p, d, x, s')
  {
    hide Bit, OwnedBy, Addr, Stored, Laid;
    var op := s.ops[p];
    AddrDirect(sb, s.m.st, op);
    var a := Addr(sb, s.m.st, op.i, Target(op));
    DataInRange(sb, s.m, op.i, Target(op));
    d, x := Store, Some(a);
    s' := WithOp(s, Stored(sb, s.m, op.i, Target(op), Laid(op, s.m.st.blocks[a])), p, op.(tot := op.tot + Part(op)));
    assert Stores(sb, s, p, x, s');
  }

  lemma CanFinish(sb: Super, s: Shared, p: nat) returns (d: Deed, x: Option<nat>, s': Shared)
    requires Bounded(sb, s, p) && s.ops[p].Writing? && s.ops[p].phase.Plain? && s.ops[p].tot == |s.ops[p].src|
    ensures Acts(sb, s, p, d, x, s')
  {
    hide WithSize;
    var op := s.ops[p];
    var grows := |op.src| > 0 && op.off + |op.src| > s.m.st.inodes[op.i].size;
    d, x := Finish, if grows then Some(sb.IBlock(op.i)) else None;
    var m' := if grows then WithSize(sb, s.m, op.i, op.off + |op.src|) else s.m;
    s' := WithOp(s, m', p, op.(phase := Finished));
    assert Finishes(sb, s, p, x, s');
  }

  lemma CanFreeDirect(sb: Super, s: Shared, p: nat) returns (d: Deed, x: Option<nat>, s': Shared)
    requires Bounded(sb, s, p) && s.ops[p].Truncating? && s.ops[p].at.Directs? && OwnedBy(sb, s.m)
    requires EmptyingOk(sb, s.m, p, s.ops[p])
    ensures Acts(sb, s, p, d, x, s')
  {
    hide OwnedBy, FreedAddr;
    var op, m, k := s.ops[p], s.m, s.ops[p].at.k;
    var addrs := m.st.inodes[op.i].addrs;
    d, x := FreeNext, None;
    if k < NDIRECT && addrs[k] != 0 {
      AddrInRange(sb, m, op.i, k);
      x, s' := Some(sb.BBlock(addrs[k])), WithOp(s, FreedAddr(sb, m, op.i, k), p, op.(at := Directs(k + 1)));
    } else if k < NDIRECT {
      s' := WithOp(s, m, p, op.(at := Directs(k + 1)));
    } else if addrs[NDIRECT] != 0 {
      s' := WithOp(s, m.(dead := m.dead[op.i := 0]), p, op.(at := Entries(0)));
    } else {
      s' := WithOp(s, m, p, op.(at := Emptied));
    }
    assert FreesNext(sb, s, p, x, s');
  }

  lemma CanFreeEntry(sb: Super, s: Shared, p: nat) returns (d: Deed, x: Option<nat>, s': Shared)
    requires Bounded(sb, s, p) && s.ops[p].Truncating? && s.ops[p].at.Entries? && OwnedBy(sb, s.m)
    requires EmptyingOk(sb, s.m, p, s.ops[p])
    ensures Acts(sb, s, p, d, x, s')
  {
    hide OwnedBy, FreedAddr, FreedEntry, Ref;
    var op, m, k := s.ops[p], s.m, s.ops[p].at.k;
    d := FreeNext;
    if k < NINDIRECT {
      var b := Ref(sb, m.st, NONE, Entry(op.i, k));
      SlotInRange(sb, m, Entry(op.i, k));
      x := if b == 0 then None else Some(sb.BBlock(b));
      s' := WithOp(s, FreedEntry(sb, m, op.i, k), p, op.(at := Entries(k + 1)));
    } else {
      AddrInRange(sb, m, op.i, NDIRECT);
      x := Some(sb.BBlock(m.st.inodes[op.i].addrs[NDIRECT]));
      s' := WithOp(s, FreedAddr(sb, m, op.i, NDIRECT), p, op.(at := Emptied));
    }
    assert FreesNext(sb, s, p, x, s');
  }

  lemma CanEmpty(sb: Super, s: Shared, p: nat) returns (d: Deed, x: Option<nat>, s': Shared)
    requires Bounded(sb, s, p) && s.ops[p].Truncating? && s.ops[p].at.Emptied?
    ensures Acts(sb, s, p, d, x, s')
  {
    hide WithSize;
    var op := s.ops[p];
    d, x, s' := FreeNext, Some(sb.IBlock(op.i)), WithOp(s, WithSize(sb, s.m, op.i, 0), p, op.(at := Over));
    assert FreesNext(sb, s, p, x, s');
  }

  lemma CanEnd(sb: Super, s: Shared, p: nat) returns (d: Deed, x: Option<nat>, s': Shared)
    requires Bounded(sb, s, p) && |s.files| == sb.ninodes && IsDone(s.ops[p])
    ensures Acts(sb, s, p, d, x, s')
  {
    var i := s.ops[p].i;
    d, x, s' := End, None, s.(ops := s.ops - {p}, files := s.files[i := Outcome(s.ops[p], s.files[i])]);
  }

  /** Whatever the others have half done, an operation can go on, unless it wants a block of a full disk. */
  lemma CanGoOn(sb: Super, s: Shared, p: nat) returns (d: Deed, x: Option<nat>, s': Shared)
    requires Inv(sb, s) && p in s.ops && Sized(sb, s.m.st)
    requires WantsBlock(sb, s.m.st, s.ops[p]) ==> !DiskFull(sb, s.m.st)
    ensures Acts(sb, s, p, d, x, s')
  {
    InBounds(sb, s, p);
    hide Inv, Acts, EmptyingOk, OwnedBy, DiskFull, Shown, Synced, Intact;
    var op := s.ops[p];
    if IsDone(op) {
      d, x, s' := CanEnd(sb, s, p);
    } else if op.Truncating? && op.at.Directs? {
      d, x, s' := CanFreeDirect(sb, s, p);
    } else if op.Truncating? && op.at.Entries? {
      d, x, s' := CanFreeEntry(sb, s, p);
    } else if op.Truncating? {
      d, x, s' := CanEmpty(sb, s, p);
    } else if op.phase.Taken? {
      d, x, s' := CanFill(sb, s, p, s.files[op.i]);
    } else if op.phase.Cleared? {
      d, x, s' := CanEnter(sb, s, p, s.files[op.i]);
    } else if op.tot == |op.src| {
      d, x, s' := CanFinish(sb, s, p);
    } else if WantsBlock(sb, s.m.st, op) {
      d, x, s' := CanTake(sb, s, p);
    } else {
      d, x, s' := CanStore(sb, s, p);
    }
  }

  /** Whoever is free can take up any file that nobody has; a write has to start within it and end within MAXFILE. */
  lemma CanStart(sb: Super, s: Shared, p: nat, i: nat, off: nat, src: seq<Byte>)
    requires Inv(sb, s) && p !in s.ops && i < |s.files| && !Locked(s, i)
    ensures exists s' :: Acts(sb, s, p, StartTrunc(i), None, s')
    ensures (exists s' :: Acts(sb, s, p, StartWrite(i, off, src), None, s')) <==>
            off <= |s.files[i]| && off + |src| <= MAXFILE * BSIZE
  {
    hide OwnedBy, Shown, Synced, OpOk, DiskFull;
    OwnedBySized(sb, s.m);
    assert Intact(sb, s.m.st, i, s.files[i]);
    assert Acts(sb, s, p, StartTrunc(i), None, WithOp(s, s.m, p, Truncating(i, Directs(0))));
    if off <= |s.files[i]| && off + |src| <= MAXFILE * BSIZE {
      assert Acts(sb, s, p, StartWrite(i, off, src), None, WithOp(s, s.m, p, Writing(i, off, src, 0, Plain)));
    }
  }

  // ------------------------------------------------------- every step shortens

  lemma TakeShortens(sb: Super, s: Shared, p: nat, b: nat, x: Option<nat>, s': Shared)
    requires Bounded(sb, s, p) && Takes(sb, s, p, b, x, s') && Bounded(sb, s', p)
    ensures OpLeft(sb, s', p) < OpLeft(sb, s, p)
  {
    hide Bit, WithBit, Addr;
  }

  lemma FillShortens(sb: Super, s: Shared, p: nat, x: Option<nat>, s': Shared)
    requires Bounded(sb, s, p) && Fills(sb, s, p, x, s') && Bounded(sb, s', p)
    requires s.m.pend[p] != 0 && s.ops[p].tot < |s.ops[p].src|
    ensures OpLeft(sb, s', p) < OpLeft(sb, s, p)
  {
    hide Ref;
    AddrDirect(sb, s'.m.st, s.ops[p]);
    hide Addr;
  }

  lemma EnterShortens(sb: Super, s: Shared, p: nat, x: Option<nat>, s': Shared)
    requires Bounded(sb, s, p) && Enters(sb, s, p, x, s') && Bounded(sb, s', p) && OwnedBy(sb, s.m)
    requires s.m.pend[p] != 0 && s.ops[p].tot < |s.ops[p].src|
    ensures OpLeft(sb, s', p) < OpLeft(sb, s, p)
  {
    hide Bit, OwnedBy, Ref, Entered;
    var op := s.ops[p];
    var k := Target(op) - NDIRECT;
    EnteredRefs(sb, s.m, p, op.i, k);
    assert IsSlot(sb, Entry(op.i, k)) && DataSlot(op.i, Target(op)) == Entry(op.i, k);
    assert Ref(sb, s'.m.st, NONE, Entry(op.i, k)) == s.m.pend[p];
  }

  lemma StoreShortens(sb: Super, s: Shared, p: nat, x: Option<nat>, s': Shared)
    requires Bounded(sb, s, p) && Stores(sb, s, p, x, s') && Bounded(sb, s', p)
    ensures OpLeft(sb, s', p) < OpLeft(sb, s, p)
  {
    hide Addr, Stored, Laid;
  }

  lemma FreeShortens(sb: Super, s: Shared, p: nat, x: Option<nat>, s': Shared)
    requires Bounded(sb, s, p) && FreesNext(sb, s, p, x, s') && Bounded(sb, s', p)
    requires EmptyingOk(sb, s.m, p, s.ops[p])
    ensures OpLeft(sb, s', p) < OpLeft(sb, s, p)
  {
    hide Ref, FreedAddr, FreedEntry, WithSize, Intact;
  }

  /** Each step of an operation brings it closer to its end. */
  lemma OwnShortens(sb: Super, s: Shared, p: nat, d: Deed, x: Option<nat>, s': Shared)
    requires Inv(sb, s) && p in s.ops && p in s'.ops && Acts(sb, s, p, d, x, s')
    ensures Bounded(sb, s, p) && Bounded(sb, s', p) && OpLeft(sb, s', p) < OpLeft(sb, s, p)
  {
    NextKeeps(sb, s, p, d, x, s');
    InBounds(sb, s, p);
    InBounds(sb, s', p);
    hide Inv, EmptyingOk, OwnedBy, OpLeft, Shown, Synced, Intact, Addr, Bit;
    match d {
      case Take(b) => TakeShortens(sb, s, p, b, x, s');
      case Fill => FillShortens(sb, s, p, x, s');
      case Enter => EnterShortens(sb, s, p, x, s');
      case Store => StoreShortens(sb, s, p, x, s');
      case Finish => assert OpLeft(sb, s', p) == 0 && OpLeft(sb, s, p) == 1;
      case FreeNext => FreeShortens(sb, s, p, x, s');
      case _ =>
    }
  }

  // ------------------------------------------------------ the others do not matter

  function FileOf(s: Shared, q: nat, d: Deed): nat
    requires d.StartWrite? || d.StartTrunc? || q in s.ops
  {
    if d.StartWrite? || d.StartTrunc? then d.i else s.ops[q].i
  }

  lemma StepSpares(sb: Super, s: Shared, q: nat, d: Deed, x: Option<nat>, s': Shared)
    requires Inv(sb, s) && Acts(sb, s, q, d, x, s')
    ensures (d.StartWrite? || d.StartTrunc? || q in s.ops) && Spares(sb, s.m, s'.m, q, FileOf(s, q, d))
  {
    hide Inv, OwnedBy, Spares;
    match d
    case StartWrite(i, off, src) => StartKeeps(sb, s, q, Writing(i, off, src, 0, Plain));
    case StartTrunc(i) => StartKeeps(sb, s, q, Truncating(i, Directs(0)));
    case Take(b) => TakeKeeps(sb, s, q, b, x, s');
    case Fill => FillKeeps(sb, s, q, x, s');
    case Enter => EnterKeeps(sb, s, q, x, s');
    case Store => StoreKeeps(sb, s, q, x, s');
    case Finish => FinishKeeps(sb, s, q, x, s');
    case FreeNext => FreeNextKeeps(sb, s, q, x, s');
    case End => EndKeeps(sb, s, q, s');
  }

  lemma OtherFile(sb: Super, s: Shared, q: nat, d: Deed, x: Option<nat>, s': Shared, p: nat)
    requires Inv(sb, s) && Acts(sb, s, q, d, x, s') && p in s.ops && p != q
    requires d.StartWrite? || d.StartTrunc? || q in s.ops
    ensures p in s'.ops && s'.ops[p] == s.ops[p] && FileOf(s, q, d) != s.ops[p].i
  {
    hide OwnedBy, OpOk, Intact, Sized, Addr, Bit, Ref;
  }

  lemma OthersLeave(sb: Super, s: Shared, q: nat, d: Deed, x: Option<nat>, s': Shared, p: nat)
    requires Inv(sb, s) && Acts(sb, s, q, d, x, s') && p in s.ops && p != q
    ensures Bounded(sb, s, p) && Bounded(sb, s', p) && OpLeft(sb, s', p) == OpLeft(sb, s, p)
  {
    hide Acts;
    InBounds(sb, s, p);
    StepSpares(sb, s, q, d, x, s');
    OtherFile(sb, s, q, d, x, s', p);
    hide Inv, OwnedBy, WritingOk, EmptyingOk, WriteLeft, SameFile;
    assert SameFile(sb, s.m, s'.m.st, s.ops[p].i);
    if s.ops[p].Writing? { SameLeft(sb, s.m, s'.m.st, s.ops[p]); }
  }

  lemma SameLeft(sb: Super, m: Mid, st': Fs, op: Op)
    requires SameFile(sb, m, st', op.i) && op.Writing? && op.tot <= |op.src|
    requires op.off + |op.src| <= MAXFILE * BSIZE
    ensures WriteLeft(sb, st', op) == WriteLeft(sb, m.st, op)
  {
    hide Ref, ByteAt, DiskInode;
    SameAddrsOf(sb, m.st, st', op.i);
    if op.tot < |op.src| { AddrDirect(sb, m.st, op); }
    hide Addr;
  }

  // -------------------------------------------------------------- whole runs

  datatype Move = Move(p: nat, d: Deed, x: Option<nat>)

  ghost predicate IsRun(sb: Super, run: seq<Shared>, moves: seq<Move>) {
    && |run| == |moves| + 1 && Inv(sb, run[0])
    && forall i | 0 <= i < |moves| :: Acts(sb, run[i], moves[i].p, moves[i].d, moves[i].x, run[i + 1])
  }

  /** How many of the moves from j to k are steps of process p. */
  function StepsOf(moves: seq<Move>, p: nat, j: nat, k: nat): nat
    requires j <= k <= |moves|
  {
    if j == k then 0 else StepsOf(moves, p, j, k - 1) + (if moves[k - 1].p == p then 1 else 0)
  }

  lemma {:induction false} RunInv(sb: Super, run: seq<Shared>, moves: seq<Move>, i: nat)
    requires IsRun(sb, run, moves) && i <= |moves|
    ensures Inv(sb, run[i])
  {
    hide Inv, Acts;
    if i > 0 {
      RunInv(sb, run, moves, i - 1);
      var v := moves[i - 1];
      NextKeeps(sb, run[i - 1], v.p, v.d, v.x, run[i]);
    }
  }

  ghost predicate UnderWay(run: seq<Shared>, p: nat, j: nat, k: nat) {
    k < |run| && forall i | j <= i <= k :: p in run[i].ops
  }

  lemma StepLeaves(sb: Super, s: Shared, v: Move, s': Shared, p: nat)
    requires Inv(sb, s) && Acts(sb, s, v.p, v.d, v.x, s') && p in s.ops && p in s'.ops
    ensures Bounded(sb, s, p) && Bounded(sb, s', p)
    ensures OpLeft(sb, s', p) + (if v.p == p then 1 else 0) <= OpLeft(sb, s, p)
  {
    hide Inv, Acts, OpLeft, Bounded;
    if v.p == p { OwnShortens(sb, s, p, v.d, v.x, s'); } else { OthersLeave(sb, s, v.p, v.d, v.x, s', p); }
  }

  /**
    In every interleaving an operation takes no more steps than it had left: what the
    others do in between adds none.
   */
  lemma {:induction false} EndsInTime(sb: Super, run: seq<Shared>, moves: seq<Move>, p: nat, j: nat, k: nat)
    requires IsRun(sb, run, moves) && j <= k <= |moves| && UnderWay(run, p, j, k)
    ensures Bounded(sb, run[j], p) && Bounded(sb, run[k], p) && OpLeft(sb, run[k], p) >= 0
    ensures OpLeft(sb, run[k], p) + StepsOf(moves, p, j, k) <= OpLeft(sb, run[j], p)
  {
    hide Inv, Acts, OpLeft, Bounded;
    RunInv(sb, run, moves, k);
    InBounds(sb, run[k], p);
    if j < k {
      EndsInTime(sb, run, moves, p, j, k - 1);
      RunInv(sb, run, moves, k - 1);
      StepLeaves(sb, run[k - 1], moves[k - 1], run[k], p);
    }
  }
}
