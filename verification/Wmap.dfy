/**
  The mapping table as the kernel keeps it: sixteen blocks that are shifted in
  place, and the arrays of wmapinfo that are shifted along with them.
 */
module Wmap {
  import opened Common
  import opened WmapSpec

  const FAILED := -1

  class Table {
    const arr: array<Block>
    const addr: array<int>    // wmapinfo->addr
    const length: array<int>  // wmapinfo->length
    var total: nat            // wmapinfo->total_mmaps

    ghost predicate Sized()
      reads this
    {
      arr.Length == SLOTS && addr.Length == SLOTS && length.Length == SLOTS && addr != length && total <= SLOTS
    }

    /** Slots 0 .. total-1 are the ones in use; wmapinfo agrees with them, and has zeros behind. */
    ghost predicate Valid()
      reads this, arr, addr, length
    {
      && Sized()
      && (forall i: nat | i < SLOTS :: arr[i].valid <==> i < total)
      && (forall i: nat | i < total :: addr[i] == arr[i].start && length[i] == arr[i].length)
      && (forall i: nat | total <= i < SLOTS :: addr[i] == 0 && length[i] == 0)
    }

    ghost function Blocks(): seq<Block>
      requires Sized()
      reads this, arr
    {
      arr[..total]
    }

    constructor ()
      ensures Valid() && Blocks() == [] && fresh(arr) && fresh(addr) && fresh(length)
    {
      arr := new Block[SLOTS](_ => Block(false, 0, 0, 0, 0, 0, 0));
      addr := new int[SLOTS](_ => 0);
      length := new int[SLOTS](_ => 0);
      total := 0;
    }

    /** One slot is copied over another, field by field and in wmapinfo. */
    method CopySlot(from: nat, to: nat)
      requires Sized() && from < SLOTS && to < SLOTS
      modifies arr, addr, length
      ensures arr[to] == old(arr[from]) && addr[to] == old(addr[from]) && length[to] == old(length[from])
      ensures forall i: nat | i < SLOTS && i != to ::
          arr[i] == old(arr[i]) && addr[i] == old(addr[i]) && length[i] == old(length[i])
    {
      arr[to], addr[to], length[to] := arr[from], addr[from], length[from];
    }

    /** The shifting loop of insert_mapping(): slot k becomes free for a block that starts at `start`. */
    method OpenSlot(start: int) returns (k: nat)
      requires Valid() && total < SLOTS
      modifies arr, addr, length
      ensures k == Place(old(Blocks()), start)
      ensures forall i: nat | i < k :: arr[i] == old(arr[i])
      ensures forall i: nat | k < i <= total :: arr[i] == old(arr[i - 1])
      ensures forall i: nat | total < i < SLOTS :: arr[i] == old(arr[i]) && addr[i] == 0 && length[i] == 0
      ensures forall i: nat | i <= total && i != k :: addr[i] == arr[i].start && length[i] == arr[i].length
    {
      hide Place;
      ghost var s := Blocks();
      assert forall i: nat | i < total :: s[i] == arr[i];
      k := total;
      while k > 0 && arr[k - 1].start > start
        invariant k <= total
        invariant forall i: nat | i < k :: arr[i] == old(arr[i])
        invariant forall i: nat | k < i <= total :: arr[i] == old(arr[i - 1])
        invariant forall i: nat | total < i < SLOTS :: arr[i] == old(arr[i]) && addr[i] == 0 && length[i] == 0
        invariant forall i: nat | i <= total && i != k :: addr[i] == arr[i].start && length[i] == arr[i].length
        invariant forall i: nat | k <= i < total :: s[i].start > start
      {
        CopySlot(k - 1, k);
        k := k - 1;
      }
      PlaceAt(s, start, k);
    }

    /** The block goes into the slot that is open for it. */
    method PutBlock(k: nat, b: Block, ghost s: seq<Block>)
      requires Sized() && b.valid && k == Place(s, b.start) <= total == |s| < SLOTS
      requires forall i: nat | i < k :: arr[i] == s[i] && s[i].valid
      requires forall i: nat | k < i <= total :: arr[i] == s[i - 1] && s[i - 1].valid
      requires forall i: nat | total < i < SLOTS :: !arr[i].valid && addr[i] == 0 && length[i] == 0
      requires forall i: nat | i <= total && i != k :: addr[i] == arr[i].start && length[i] == arr[i].length
      modifies this`total, arr, addr, length
      ensures Valid() && total == |s| + 1 && Blocks() == Inserted(s, b)
    {
      hide Place;
      arr[k], addr[k], length[k] := b, b.start, b.length;
      total := total + 1;
      InsertedAt(s, b, Blocks());
    }

    /** insert_mapping(), with its block in one piece */
    method InsertMapping(b: Block) returns (r: int)
      requires Valid() && b.valid
      modifies this`total, arr, addr, length
      ensures Valid()
      ensures old(total) == SLOTS ==> r == FAILED && Blocks() == old(Blocks())
      ensures old(total) < SLOTS ==> r == b.start && Blocks() == Inserted(old(Blocks()), b)
    {
      hide Place, Inserted;
      ghost var s := Blocks();
      if total == SLOTS {
        return FAILED;
      }
      if total == 0 {
        PutBlock(0, b, s);
        return b.start;
      }
      var k := OpenSlot(b.start);
      PutBlock(k, b, s);
      return b.start;
    }

    /** The first loop of remove_mapping() */
    method FindMapping(start: int) returns (k: nat)
      requires Valid()
      ensures k == if Find(Blocks(), start) < total then Find(Blocks(), start) else SLOTS
    {
      k := 0;
      while k < SLOTS
        invariant k <= SLOTS
        invariant forall i: nat | i < k && i < total :: arr[i].start != start
      {
        if arr[k].valid && arr[k].start == start {
          return;
        }
        k := k + 1;
      }
    }

    /** The loop that closes the gap at slot k */
    method ShiftLeft(k: nat)
      requires Sized() && k < SLOTS
      modifies arr, addr, length
      ensures forall i: nat | i < k || i == SLOTS - 1 ::
          arr[i] == old(arr[i]) && addr[i] == old(addr[i]) && length[i] == old(length[i])
      ensures forall i: nat | k <= i < SLOTS - 1 ::
          arr[i] == old(arr[i + 1]) && addr[i] == old(addr[i + 1]) && length[i] == old(length[i + 1])
    {
      for i := k to SLOTS - 1
        invariant forall j: nat | j < k || i <= j < SLOTS ::
            arr[j] == old(arr[j]) && addr[j] == old(addr[j]) && length[j] == old(length[j])
        invariant forall j: nat | k <= j < i ::
            arr[j] == old(arr[j + 1]) && addr[j] == old(addr[j + 1]) && length[j] == old(length[j + 1])
      {
        CopySlot(i + 1, i);
      }
    }

    /** The block in slot k is wiped, in wmapinfo too; behind it the others are still where they were. */
    method Wipe(k: nat)
      requires Valid() && k < total
      modifies this`total, arr, addr, length
      ensures Sized() && total == old(total) - 1
      ensures forall i: nat | i < SLOTS :: arr[i].valid <==> i <= total && i != k
      ensures forall i: nat | i < SLOTS && i != k :: arr[i] == old(arr[i])
      ensures forall i: nat | i <= total && i != k :: addr[i] == arr[i].start && length[i] == arr[i].length
      ensures forall i: nat | i < SLOTS && (i == k || total < i) :: addr[i] == 0 && length[i] == 0
    {
      addr[k], length[k] := 0, 0;
      total := total - 1;
      arr[k] := Block(false, arr[k].start, 0, 0, 0, 0, 0);
    }

    /** remove_mapping() when the last reference to slot k is gone */
    method Erase(k: nat)
      requires Valid() && k < total
      modifies this`total, arr, addr, length
      ensures Sized() && total == old(total) - 1
      ensures Valid() <==> old(total) < SLOTS || k == SLOTS - 1
      ensures Valid() ==> Blocks() == Without(old(Blocks()), k)
    {
      ghost var s := Blocks();
      Wipe(k);
      assert forall i: nat | i <= total && i != k :: arr[i] == s[i];
      ShiftLeft(k);
      assert arr[SLOTS - 1].valid <==> total == SLOTS - 1 != k;
      assert forall i: nat | i < total :: arr[i] == Without(s, k)[i];
    }

    /** remove_mapping(); a full table loses its shape unless the last block goes. */
    method RemoveMapping(start: int) returns (r: int)
      requires Valid()
      modifies this`total, arr, addr, length
      ensures Find(old(Blocks()), start) == old(total) ==> r == 0 && Valid() && Blocks() == old(Blocks())
      ensures Find(old(Blocks()), start) < old(total) ==>
          r == 1 && Sized() && (Valid() <==> KeepsShape(old(Blocks()), Find(old(Blocks()), start)))
      ensures Find(old(Blocks()), start) < old(total) && Valid() ==>
          Blocks() == Dropped(old(Blocks()), Find(old(Blocks()), start))
      ensures total <= old(total)
    {
      hide Find;
      ghost var s := Blocks();
      var k := FindMapping(start);
      if k == SLOTS {
        return 0;
      }
      arr[k] := arr[k].(ref := arr[k].ref - 1);
      assert Blocks() == s[k := s[k].(ref := s[k].ref - 1)];
      if arr[k].ref == 0 {
        ghost var s1 := Blocks();
        Erase(k);
        assert Without(s1, k) == Without(s, k);
      }
      return 1;
    }

    /** The loop of sys_wmap() that looks for an address */
    method FindAddr(len: int) returns (leftmost: int)
      requires Valid() && total < SLOTS
      ensures leftmost == NextAddr(Blocks())
    {
      var prevEnd, i := MIN_ADDR - 1, 0;
      leftmost := MIN_ADDR;
      while i < SLOTS
        invariant i <= total && Wrap(prevEnd + 1) == NextAddr(arr[..i])
      {
        if !arr[i].valid {
          leftmost := Wrap(prevEnd + 1);
          break;
        }
        if arr[i].start - prevEnd > Round(len) {
          leftmost := Wrap(prevEnd + 1);
        }
        prevEnd := arr[i].end;
        i := i + 1;
      }
    }

    /** sys_wmap() without MAP_FIXED */
    method Map(len: int, flags: int, fd: int) returns (r: int)
      requires Valid() && len <= MAX_LEN
      modifies this`total, arr, addr, length
      ensures Valid() && Blocks() == WmapSpec.Map(old(Blocks()), len, flags, fd).blocks
      ensures r == match WmapSpec.Map(old(Blocks()), len, flags, fd) case Failed(_) => FAILED case Done(_, a) => a
    {
      if len < 1 || total == SLOTS {
        return FAILED;
      }
      var leftmost := FindAddr(len);
      r := InsertMapping(NewBlock(leftmost, len, flags, fd));
    }

    /** sys_wunmap(), for the table */
    method Unmap(start: int) returns (r: int)
      requires Valid() && total < SLOTS
      modifies this`total, arr, addr, length
      ensures Valid() && Blocks() == WmapSpec.Unmap(old(Blocks()), start).blocks
      ensures r == if WmapSpec.Unmap(old(Blocks()), start).Done? then 0 else FAILED
    {
      if start % PGSIZE != 0 {
        return FAILED;
      }
      var k := Locate(start);
      if k == total {
        return FAILED;
      }
      var _ := RemoveMapping(arr[k].start);
      return 0;
    }

    /** The search of sys_wunmap() and sys_wremap() */
    method Locate(start: int) returns (k: nat)
      requires Valid()
      ensures k == Find(Blocks(), start)
    {
      k := 0;
      while k < total
        invariant k <= total && forall i: nat | i < k :: arr[i].start != start
      {
        if arr[k].start == start {
          return;
        }
        k := k + 1;
      }
    }

    /** remove_mapping(), then insert_mapping() */
    method Reinsert(start: int, b: Block) returns (r: int)
      requires Valid() && total < SLOTS && Find(Blocks(), start) < total && b.valid
      modifies this`total, arr, addr, length
      ensures Valid() && r == b.start && Blocks() == Inserted(Dropped(old(Blocks()), Find(old(Blocks()), start)), b)
    {
      hide Find, Inserted, Place, Round, Dropped;
      var _ := RemoveMapping(start);
      r := InsertMapping(b);
    }

    /** sys_wremap() */
    method Remap(start: int, size: int, flag: int) returns (r: int)
      requires Valid() && total < SLOTS && size <= MAX_LEN
      modifies this`total, arr, addr, length
      ensures Valid() && Blocks() == WmapSpec.Remap(old(Blocks()), start, size, flag).blocks
      ensures r == match WmapSpec.Remap(old(Blocks()), start, size, flag) case Failed(_) => FAILED case Done(_, a) => a
    {
      hide Find, Inserted, Place, Round, Dropped;
      ghost var s := Blocks();
      if start % PGSIZE != 0 {
        return FAILED;
      }
      var k := Locate(start);
      if k == total {
        return FAILED;
      }
      assert arr[k] == s[k] && (arr[k + 1].valid <==> k + 1 < |s|) && (k + 1 < |s| ==> arr[k + 1] == s[k + 1]);
      var flags, fd, end := arr[k].flags, arr[k].fd, Wrap(start + Round(size));
      if arr[k + 1].valid && end < arr[k + 1].start {
        r := Reinsert(start, NewBlock(start, size, flags, fd));
        return;
      } else if !arr[k + 1].valid {
        if end > MAX_ADDR {
          return FAILED;
        }
        r := Reinsert(start, NewBlock(start, size, flags, fd));
        return;
      } else if flag == 0 {
        return FAILED;
      }
      var _ := RemoveMapping(start);
      var leftmost := FindAddr(size);
      end := Wrap(leftmost + Round(size) - 1);
      r := InsertMapping(Block(true, leftmost, Wrap(end - 1), flags, size, fd, 1));
    }
  }

  /** Slot 15 is never cleared by the shift, so it has to be unused, or the one removed. */
  predicate KeepsShape(s: seq<Block>, k: nat)
    requires k < |s|
  {
    |s| < SLOTS || k == SLOTS - 1 || s[k].ref != 1
  }

  lemma InsertedAt(s: seq<Block>, b: Block, r: seq<Block>)
    requires var k := Place(s, b.start);
      && |r| == |s| + 1 && r[k] == b && (forall i: nat | i < k :: r[i] == s[i])
      && forall i: nat | k < i < |r| :: r[i] == s[i - 1]
    ensures r == Inserted(s, b)
  {
  }

  /** Sixteen mappings of one page each. */
  function FullTable(): seq<Block> {
    seq(SLOTS, i => NewBlock(MIN_ADDR + i * PGSIZE, 1, 0, 0))
  }

  lemma PageBlock(i: nat)
    requires i < SLOTS
    ensures BlockOk(NewBlock(MIN_ADDR + i * PGSIZE, 1, 0, 0))
    ensures NewBlock(MIN_ADDR + i * PGSIZE, 1, 0, 0).start == MIN_ADDR + i * PGSIZE
    ensures NewBlock(MIN_ADDR + i * PGSIZE, 1, 0, 0).end == MIN_ADDR + (i + 1) * PGSIZE - 1
  {
    assert Round(1) == PGSIZE;
  }

  lemma FullTableGood()
    ensures Good(FullTable())
  {
    hide BlockOk, NewBlock;
    var s := FullTable();
    forall i: nat | i < SLOTS
      ensures BlockOk(s[i]) && s[i].start == MIN_ADDR + i * PGSIZE && s[i].end == MIN_ADDR + (i + 1) * PGSIZE - 1
    {
      PageBlock(i);
    }
  }

  /** Every one of them but the last breaks the table when it is removed. */
  lemma FullTableLosesShape(k: nat)
    requires k < SLOTS
    ensures Good(FullTable()) && |FullTable()| == SLOTS && (KeepsShape(FullTable(), k) <==> k == SLOTS - 1)
  {
    FullTableGood();
    hide Good, Round, Wrap;
  }
}
