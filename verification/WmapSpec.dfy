/**
  The table of memory mappings of a process (sysfile.c), as the sequence of its
  blocks in address order: what mapping, unmapping and resizing do to it.
 */
module WmapSpec {
  import opened Common

  const SLOTS := 16          // MAX_WMMAP_INFO
  const MIN_ADDR := 0x6000_0000
  const MAX_ADDR := 0x8000_0000
  const MAX_LEN := 0x7FFF_F000 // rounding up a longer length overflows an int

  /** struct mem_block */
  datatype Block = Block(valid: bool, start: int, end: int, flags: int, length: int, fd: int, ref: int)

  /** PGROUNDUP */
  function Round(n: int): int {
    (n + PGSIZE - 1) / PGSIZE * PGSIZE
  }

  /** Addresses are unsigned and wrap around. */
  function Wrap(x: int): int {
    x % UINT_LIMIT
  }

  /** A block as sys_wmap makes it: whole pages between MIN_ADDR and MAX_ADDR. */
  predicate BlockOk(b: Block) {
    && b.valid && b.ref >= 1 && b.length >= 1
    && MIN_ADDR <= b.start && b.start % PGSIZE == 0 && b.end == b.start + Round(b.length) - 1 && b.end < MAX_ADDR
  }

  /** Sorted by address and pairwise disjoint. */
  ghost predicate Ordered(s: seq<Block>) {
    forall i: nat, j: nat | i < j < |s| :: s[i].end < s[j].start
  }

  ghost predicate Good(s: seq<Block>) {
    |s| <= SLOTS && (forall i: nat | i < |s| :: BlockOk(s[i])) && Ordered(s)
  }

  // --------------------------------------------------- inserting, removing

  /** Behind every block that does not start later, counted from the right. */
  function Place(s: seq<Block>, start: int): (k: nat)
    ensures k <= |s| && (k > 0 ==> s[k - 1].start <= start)
    ensures forall i: nat | k <= i < |s| :: s[i].start > start
  {
    if s == [] || s[|s| - 1].start <= start then |s| else Place(s[..|s| - 1], start)
  }

  function Inserted(s: seq<Block>, b: Block): seq<Block> {
    var k := Place(s, b.start);
    s[..k] + [b] + s[k..]
  }

  /** The first block at addr; |s| if there is none. */
  function Find(s: seq<Block>, addr: int): (k: nat)
    ensures k <= |s| && (k < |s| ==> s[k].start == addr)
    ensures forall i: nat | i < k :: s[i].start != addr
  {
    if s == [] || s[0].start == addr then 0 else 1 + Find(s[1..], addr)
  }

  /** remove_mapping() drops a reference, and the block with the last one. */
  function Dropped(s: seq<Block>, k: nat): seq<Block>
    requires k < |s|
  {
    if s[k].ref == 1 then Without(s, k) else s[k := s[k].(ref := s[k].ref - 1)]
  }

  // -------------------------------------------------------- the operations

  /** Where a mapping without a fixed address goes. */
  function NextAddr(s: seq<Block>): int {
    if s == [] then MIN_ADDR else Wrap(s[|s| - 1].end + 1)
  }

  function NewBlock(start: int, length: int, flags: int, fd: int): Block {
    Block(true, start, Wrap(start + Round(length) - 1), flags, length, fd, 1)
  }

  datatype Reply = Failed(blocks: seq<Block>) | Done(blocks: seq<Block>, addr: int)

  function Map(s: seq<Block>, length: int, flags: int, fd: int): Reply {
    if length < 1 || |s| == SLOTS then Failed(s)
    else Done(Inserted(s, NewBlock(NextAddr(s), length, flags, fd)), NextAddr(s))
  }

  function Unmap(s: seq<Block>, addr: int): Reply {
    var k := Find(s, addr);
    if addr % PGSIZE != 0 || k == |s| then Failed(s) else Done(Dropped(s, k), 0)
  }

  /** The block could not grow where it is, and the caller allows it to move. */
  predicate Moves(s: seq<Block>, addr: int, size: int, flag: int) {
    var k := Find(s, addr);
    addr % PGSIZE == 0 && k < |s| && k + 1 < |s| && Wrap(addr + Round(size)) >= s[k + 1].start && flag != 0
  }

  function Remap(s: seq<Block>, addr: int, size: int, flag: int): Reply {
    var k, end := Find(s, addr), Wrap(addr + Round(size));
    if addr % PGSIZE != 0 || k == |s| then Failed(s)
    else
      var rest := Dropped(s, k);
      var b := NewBlock(addr, size, s[k].flags, s[k].fd);
      if k + 1 < |s| && end < s[k + 1].start then Done(Inserted(rest, b), addr)
      else if k + 1 == |s| then
        if end > MAX_ADDR then Failed(s) else Done(Inserted(rest, b), addr)
      else if flag == 0 then Failed(s)
      else
        var c := NewBlock(NextAddr(rest), size, s[k].flags, s[k].fd);
        Done(Inserted(rest, c.(end := Wrap(c.end - 1))), c.start)
  }

  // ------------------------------------------------------------- theorems

  lemma RoundUp(n: int)
    requires n >= 1
    ensures Round(n) % PGSIZE == 0 && n <= Round(n) < n + PGSIZE
  {
  }

  /** The next address is aligned and behind every block. */
  lemma NextFree(s: seq<Block>)
    requires Good(s)
    ensures MIN_ADDR <= NextAddr(s) <= MAX_ADDR && NextAddr(s) % PGSIZE == 0
    ensures forall i: nat | i < |s| :: s[i].end < NextAddr(s)
  {
    if s != [] {
      var b := s[|s| - 1];
      assert BlockOk(b);
      RoundUp(b.length);
      forall i: nat | i < |s| - 1
        ensures s[i].end < NextAddr(s)
      {
        RoundUp(s[i].length);
        assert s[i].end < b.start;
      }
    }
  }

  lemma PlaceLast(s: seq<Block>, start: int)
    requires s == [] || s[|s| - 1].start <= start
    ensures Place(s, start) == |s|
  {
  }

  /** A new mapping keeps the table good exactly if it ends within MAX_ADDR. */
  lemma MapKeepsIff(s: seq<Block>, length: int, flags: int, fd: int)
    requires Good(s)
    ensures Good(Map(s, length, flags, fd).blocks) <==>
        length < 1 || |s| == SLOTS || NextAddr(s) + Round(length) <= MAX_ADDR
    ensures Map(s, length, flags, fd).Done? ==>
        Map(s, length, flags, fd).blocks == s + [NewBlock(NextAddr(s), length, flags, fd)]
  {
    if length >= 1 && |s| < SLOTS {
      var b := NewBlock(NextAddr(s), length, flags, fd);
      NextFree(s);
      RoundUp(length);
      if s != [] { RoundUp(s[|s| - 1].length); }
      PlaceLast(s, b.start);
      assert Inserted(s, b) == s + [b];
      assert (s + [b])[|s|] == b;
    }
  }

  lemma StartsDiffer(s: seq<Block>, i: nat, j: nat)
    requires Good(s) && i < j < |s|
    ensures s[i].start < s[j].start
  {
    RoundUp(s[i].length);
  }

  lemma WithoutKeeps(s: seq<Block>, k: nat)
    requires Good(s) && k < |s|
    ensures Good(Without(s, k))
  {
    var r := Without(s, k);
    forall i: nat | i < |r|
      ensures r[i] == s[if i < k then i else i + 1]
    {
    }
  }

  lemma UnmapKeeps(s: seq<Block>, addr: int)
    requires Good(s)
    ensures Good(Unmap(s, addr).blocks)
  {
    var k := Find(s, addr);
    if addr % PGSIZE == 0 && k < |s| {
      if s[k].ref == 1 {
        WithoutKeeps(s, k);
      } else {
        var r := Dropped(s, k);
        assert forall i: nat | i < |r| :: r[i].start == s[i].start && r[i].end == s[i].end;
        assert BlockOk(s[k]);
      }
    }
  }

  /** The blocks that do not start at addr, in order. */
  function Others(s: seq<Block>, addr: int): seq<Block> {
    if s == [] then [] else if s[0].start == addr then Others(s[1..], addr) else [s[0]] + Others(s[1..], addr)
  }

  ghost predicate Starts(s: seq<Block>, addr: int) {
    exists i: nat :: i < |s| && s[i].start == addr
  }

  lemma {:induction false} OthersOf(s: seq<Block>, addr: int)
    requires forall i: nat | i < |s| :: s[i].start != addr
    ensures Others(s, addr) == s
  {
    if s != [] { OthersOf(s[1..], addr); }
  }

  lemma {:induction false} OthersWithout(s: seq<Block>, k: nat, addr: int)
    requires k < |s| && s[k].start == addr && forall i: nat | i < |s| && i != k :: s[i].start != addr
    ensures Others(s, addr) == Without(s, k)
  {
    if k == 0 {
      OthersOf(s[1..], addr);
      assert Without(s, 0) == s[1..];
    } else {
      OthersWithout(s[1..], k - 1, addr);
      assert Without(s, k) == [s[0]] + Without(s[1..], k - 1);
    }
  }

  lemma OnlyAt(s: seq<Block>, k: nat)
    requires Good(s) && k < |s|
    ensures forall i: nat | i < |s| && i != k :: s[i].start != s[k].start
  {
    forall i: nat | i < |s| && i != k
      ensures s[i].start != s[k].start
    {
      if i < k { StartsDiffer(s, i, k); } else { StartsDiffer(s, k, i); }
    }
  }

  /**
    wunmap fails exactly for an unaligned address or one where no block starts, and
    then changes nothing.  Otherwise a block with one reference is gone and the others
    are as they were; of a block with more, one reference is gone and nothing else.
   */
  lemma UnmapDoes(s: seq<Block>, addr: int)
    requires Good(s)
    ensures Unmap(s, addr).Done? <==> addr % PGSIZE == 0 && Starts(s, addr)
    ensures Unmap(s, addr).Failed? ==> Unmap(s, addr).blocks == s
    ensures forall k: nat | Unmap(s, addr).Done? && k < |s| && s[k].start == addr ::
        Unmap(s, addr).blocks == if s[k].ref == 1 then Others(s, addr) else s[k := s[k].(ref := s[k].ref - 1)]
    ensures !Starts(Others(s, addr), addr)
  {
    hide Others, Without;
    var k := Find(s, addr);
    if k < |s| {
      OnlyAt(s, k);
      OthersWithout(s, k, addr);
    }
    hide Find, Good;
    OthersAvoid(s, addr);
  }

  lemma {:induction false} OthersAvoid(s: seq<Block>, addr: int)
    ensures !Starts(Others(s, addr), addr)
  {
    if s != [] {
      OthersAvoid(s[1..], addr);
      var r := Others(s[1..], addr);
      assert forall i: nat | i < |r| :: r[i].start != addr;
    }
  }

  /**
    wmap: it fails exactly for a length below one and on a full table.  Otherwise one
    block is new; it starts at the address in the reply, behind all others, and has the
    caller's length, flags and file, and one reference.
   */
  lemma MapDoes(s: seq<Block>, length: int, flags: int, fd: int)
    requires Good(s)
    ensures Map(s, length, flags, fd).Failed? <==> length < 1 || |s| == SLOTS
    ensures Map(s, length, flags, fd).Failed? ==> Map(s, length, flags, fd).blocks == s
    ensures Map(s, length, flags, fd).Done? ==>
              var r := Map(s, length, flags, fd);
              && |r.blocks| == |s| + 1 && r.blocks[..|s|] == s && r.addr % PGSIZE == 0 && r.addr >= MIN_ADDR
              && (forall i: nat | i < |s| :: s[i].end < r.addr)
              && var b := r.blocks[|s|];
                 && b.start == r.addr && b.end == Wrap(r.addr + Round(length) - 1) && b.length == length
                 && b.flags == flags && b.fd == fd && b.ref == 1 && b.valid
  {
    hide Place, Inserted;
    MapKeepsIff(s, length, flags, fd);
    NextFree(s);
    if length >= 1 { RoundUp(length); }
  }

  /** A wunmap of what wmap has just returned gives the table of before. */
  lemma MapThenUnmap(s: seq<Block>, length: int, flags: int, fd: int)
    requires Good(s) && Map(s, length, flags, fd).Done?
    ensures Unmap(Map(s, length, flags, fd).blocks, Map(s, length, flags, fd).addr) == Done(s, 0)
  {
    var r := Map(s, length, flags, fd);
    MapDoes(s, length, flags, fd);
    hide Map, NextAddr, Find;
    assert r.blocks[|s|].start == r.addr;
    forall i: nat | i < |s|
      ensures s[i].start != r.addr && r.blocks[i] == s[i]
    {
      RoundUp(s[i].length);
      assert r.blocks[..|s|][i] == s[i];
    }
    assert Find(r.blocks, r.addr) == |s|;
    assert Without(r.blocks, |s|) == s;
  }

  lemma PlaceAt(s: seq<Block>, start: int, k: nat)
    requires k <= |s| && (k > 0 ==> s[k - 1].start <= start) && forall i: nat | k <= i < |s| :: s[i].start > start
    ensures Place(s, start) == k
  {
    var p := Place(s, start);
  }

  lemma OutAndIn(s: seq<Block>, k: nat, b: Block)
    requires k < |s|
    ensures var r := Without(s, k); r[..k] + [b] + r[k..] == s[k := b]
  {
  }

  /** Taking a block out and putting one back at the same address replaces it. */
  lemma BackInPlace(s: seq<Block>, k: nat, b: Block)
    requires Good(s) && k < |s| && b.start == s[k].start
    ensures Inserted(Without(s, k), b) == s[k := b]
  {
    hide Place, Round;
    var r := Without(s, k);
    if k > 0 { StartsDiffer(s, k - 1, k); }
    forall i: nat | k <= i < |r|
      ensures r[i].start > b.start
    {
      assert r[i] == s[i + 1];
      StartsDiffer(s, k, i + 1);
    }
    hide Good;
    PlaceAt(r, b.start, k);
    OutAndIn(s, k, b);
  }

  /** What a resize in place leaves: the one block with its new length, behind the old one if that is shared. */
  lemma RemapInPlace(s: seq<Block>, addr: int, size: int, flag: int)
    requires Good(s) && Remap(s, addr, size, flag).Done? && !Moves(s, addr, size, flag)
    ensures var k := Find(s, addr); var b := NewBlock(addr, size, s[k].flags, s[k].fd);
      Remap(s, addr, size, flag).blocks ==
        if s[k].ref == 1 then s[k := b] else s[..k] + [s[k].(ref := s[k].ref - 1), b] + s[k + 1..]
  {
    hide Place, Round, Wrap, Find, Inserted, Good, Without;
    var k := Find(s, addr);
    var b := NewBlock(addr, size, s[k].flags, s[k].fd);
    if s[k].ref == 1 { BackInPlace(s, k, b); } else { BehindShared(s, k, b); }
  }

  lemma BehindShared(s: seq<Block>, k: nat, b: Block)
    requires Good(s) && k < |s| && b.start == s[k].start
    ensures Inserted(s[k := s[k].(ref := s[k].ref - 1)], b) ==
            s[..k] + [s[k].(ref := s[k].ref - 1), b] + s[k + 1..]
  {
    hide Round, Place;
    var r := s[k := s[k].(ref := s[k].ref - 1)];
    forall i: nat | k + 1 <= i < |r|
      ensures r[i].start > b.start
    {
      StartsDiffer(s, k, i);
    }
    PlaceAt(r, b.start, k + 1);
    assert r[..k + 1] == s[..k] + [r[k]] && r[k + 1..] == s[k + 1..];
  }

  lemma ReplaceKeeps(s: seq<Block>, k: nat, b: Block)
    requires Good(s) && k < |s| && BlockOk(b) && b.start == s[k].start && (k + 1 < |s| ==> b.end < s[k + 1].start)
    ensures Good(s[k := b])
  {
    var r := s[k := b];
    forall i: nat, j: nat | i < j < |r|
      ensures r[i].end < r[j].start
    {
      if i == k && j > k + 1 {
        StartsDiffer(s, k + 1, j);
      }
    }
  }

  /** With another reference left, the old block stays and the new one overlaps it. */
  lemma SharedOverlaps(s: seq<Block>, k: nat, b: Block)
    requires Good(s) && k < |s| && b.start == s[k].start
    ensures !Good(Inserted(s[k := s[k].(ref := s[k].ref - 1)], b))
  {
    RoundUp(s[k].length);
    hide Round, Inserted;
    BehindShared(s, k, b);
    var t := s[..k] + [s[k].(ref := s[k].ref - 1), b] + s[k + 1..];
    assert t[k].end == s[k].end && t[k + 1] == b;
  }

  /** A block that is not well-formed shows wherever it is inserted. */
  lemma BadBlock(s: seq<Block>, b: Block)
    requires !BlockOk(b)
    ensures !Good(Inserted(s, b))
  {
    hide Round, BlockOk;
    assert Inserted(s, b)[Place(s, b.start)] == b;
  }

  lemma ShortBlock(c: Block, size: int)
    requires c.end == Wrap(c.start + Round(size) - 1) && c.length == size
    ensures !BlockOk(c.(end := Wrap(c.end - 1)))
    ensures c.start % PGSIZE == 0 ==> Wrap(Wrap(c.end - 1) + 1) % PGSIZE == PGSIZE - 1
  {
  }

  lemma LongBlock(b: Block)
    requires b.length < 1 || b.length > MAX_LEN
    ensures !BlockOk(b)
  {
  }

  lemma NoWrap(b: Block)
    requires MIN_ADDR <= b.start < MAX_ADDR && 1 <= b.length <= MAX_LEN
    ensures Wrap(b.start + Round(b.length)) == b.start + Round(b.length)
    ensures Wrap(b.start + Round(b.length) - 1) == b.start + Round(b.length) - 1
  {
  }

  /**
    wremap keeps the table good if and only if it fails, or resizes to at least
    one byte, in place, a block with no other reference.
   */
  lemma RemapKeepsIff(s: seq<Block>, addr: int, size: int, flag: int)
    requires Good(s)
    ensures Remap(s, addr, size, flag).Failed? ==> Good(Remap(s, addr, size, flag).blocks)
    ensures Remap(s, addr, size, flag).Done? ==>
              (Good(Remap(s, addr, size, flag).blocks)
               <==> 1 <= size <= MAX_LEN && s[Find(s, addr)].ref == 1 && !Moves(s, addr, size, flag))
  {
    hide Place, Round, Find, Inserted, Wrap;
    var k := Find(s, addr);
    var r := Remap(s, addr, size, flag);
    assert k < |s| ==> BlockOk(s[k]) && (k + 1 < |s| ==> BlockOk(s[k + 1]));
    if r.Done? {
      var rest, b := Dropped(s, k), NewBlock(addr, size, s[k].flags, s[k].fd);
      var c := NewBlock(NextAddr(rest), size, s[k].flags, s[k].fd);
      if Moves(s, addr, size, flag) {
        ShortBlock(c, size);
        BadBlock(rest, c.(end := Wrap(c.end - 1)));
      } else if size < 1 || size > MAX_LEN {
        LongBlock(b);
        BadBlock(rest, b);
      } else if s[k].ref != 1 {
        SharedOverlaps(s, k, b);
      } else {
        RemapInPlace(s, addr, size, flag);
        RoundUp(s[k].length);
        if k + 1 < |s| { RoundUp(s[k + 1].length); }
        NoWrap(b);
        ReplaceKeeps(s, k, b);
      }
    }
  }

  /** A block at the next address goes behind all others. */
  lemma InsertedLast(s: seq<Block>, c: Block)
    requires Good(s) && c.start == NextAddr(s)
    ensures Inserted(s, c) == s + [c]
  {
    if s != [] {
      NextFree(s);
      RoundUp(s[|s| - 1].length);
    }
    PlaceLast(s, c.start);
  }

  /** A block that moves is recorded one byte short, so the next address is not a page boundary. */
  lemma MovedIsShort(s: seq<Block>, addr: int, size: int, flag: int)
    requires Good(s) && size >= 1 && Moves(s, addr, size, flag) && s[Find(s, addr)].ref == 1
    ensures NextAddr(Remap(s, addr, size, flag).blocks) % PGSIZE == PGSIZE - 1
  {
    hide Place, Inserted, Round, Good, Wrap;
    var k := Find(s, addr);
    var rest := Without(s, k);
    WithoutKeeps(s, k);
    NextFree(rest);
    var c := NewBlock(NextAddr(rest), size, s[k].flags, s[k].fd);
    ShortBlock(c, size);
    InsertedLast(rest, c.(end := Wrap(c.end - 1)));
  }

  /**
    A resize that leaves the block where it is and would overlap nothing succeeds,
    if and only if the block would not end exactly where its neighbour starts.
   */
  lemma ResizedInPlaceIff(s: seq<Block>, addr: int, size: int, flag: int)
    requires Good(s) && size >= 1 && Find(s, addr) < |s|
    requires var k := Find(s, addr); addr + Round(size) <= if k + 1 < |s| then s[k + 1].start else MAX_ADDR
    ensures Remap(s, addr, size, flag).Done? && !Moves(s, addr, size, flag) <==>
            var k := Find(s, addr); !(k + 1 < |s| && addr + Round(size) == s[k + 1].start)
  {
    hide Inserted, Find;
    var k := Find(s, addr);
    assert BlockOk(s[k]);
    if k + 1 < |s| {
      assert BlockOk(s[k + 1]);
      RoundUp(s[k + 1].length);
    }
    RoundUp(size);
  }

  lemma FindAt(s: seq<Block>, k: nat)
    requires Good(s) && k < |s|
    ensures Find(s, s[k].start) == k
  {
    var i := Find(s, s[k].start);
    if i < k { StartsDiffer(s, i, k); }
  }

  lemma EndsAtNext(s: seq<Block>, k: nat)
    requires Good(s) && k + 1 < |s| && s[k].end + 1 == s[k + 1].start
    ensures s[k].start % PGSIZE == 0 && Wrap(s[k].start + Round(s[k].length)) == s[k + 1].start
  {
    assert BlockOk(s[k]) && BlockOk(s[k + 1]);
    RoundUp(s[k + 1].length);
  }

  /** A block whose neighbour starts where it ends cannot even be resized to its own size. */
  lemma TouchingNeighbour(s: seq<Block>, k: nat, flag: int)
    requires Good(s) && k + 1 < |s| && s[k].end + 1 == s[k + 1].start
    ensures flag == 0 ==> Remap(s, s[k].start, s[k].length, flag) == Failed(s)
    ensures flag != 0 ==> Moves(s, s[k].start, s[k].length, flag)
    ensures flag != 0 ==> !Good(Remap(s, s[k].start, s[k].length, flag).blocks)
  {
    hide Inserted, Find, Place, Round, Wrap, Good;
    FindAt(s, k);
    EndsAtNext(s, k);
    RemapKeepsIff(s, s[k].start, s[k].length, flag);
  }

  /** Two adjacent mappings of a page: resizing the first to its own size fails, or breaks the table. */
  lemma OwnSizeRefused()
    ensures var s := [NewBlock(MIN_ADDR, 1, 0, 0), NewBlock(MIN_ADDR + 0x1000, 1, 0, 0)];
      && Good(s) && Remap(s, MIN_ADDR, 1, 0).Failed?
      && Remap(s, MIN_ADDR, 1, 1).Done? && !Good(Remap(s, MIN_ADDR, 1, 1).blocks)
  {
    assert Round(1) == PGSIZE;
    var s := [NewBlock(MIN_ADDR, 1, 0, 0), NewBlock(MIN_ADDR + 0x1000, 1, 0, 0)];
    TouchingNeighbour(s, 0, 0);
    TouchingNeighbour(s, 0, 1);
  }

  /** A block that moves keeps its flags and its file; it goes behind the others, at the address in the reply. */
  lemma RemapMoves(s: seq<Block>, addr: int, size: int, flag: int)
    requires Good(s) && Moves(s, addr, size, flag) && s[Find(s, addr)].ref == 1
    ensures var r, k := Remap(s, addr, size, flag), Find(s, addr);
      && r.Done? && |r.blocks| == |s| && r.blocks[..|s| - 1] == Others(s, addr)
      && var b := r.blocks[|s| - 1];
         b.start == r.addr && b.flags == s[k].flags && b.fd == s[k].fd && b.length == size && b.ref == 1 && b.valid
  {
    hide Place, Inserted, Round, Good, Wrap, Others, Without;
    var k := Find(s, addr);
    OnlyAt(s, k);
    OthersWithout(s, k, addr);
    var rest := Without(s, k);
    WithoutKeeps(s, k);
    WithoutLength(s, k);
    var c := NewBlock(NextAddr(rest), size, s[k].flags, s[k].fd);
    InsertedLast(rest, c.(end := Wrap(c.end - 1)));
  }

  lemma WithoutLength(s: seq<Block>, k: nat)
    requires k < |s|
    ensures |Without(s, k)| == |s| - 1
  {
  }

  /**
    wremap fails, and then changes nothing, exactly for an unaligned address, an address
    where no block starts, a last block that would end behind MAX_ADDR, or a block that
    would reach its neighbour while the caller does not let it move.
   */
  lemma RemapFailsIff(s: seq<Block>, addr: int, size: int, flag: int)
    requires Good(s)
    ensures Remap(s, addr, size, flag).Failed? ==> Remap(s, addr, size, flag).blocks == s
    ensures Remap(s, addr, size, flag).Failed? <==>
            || addr % PGSIZE != 0 || !Starts(s, addr)
            || exists k: nat :: k < |s| && s[k].start == addr &&
                 var end := Wrap(addr + Round(size));
                 if k + 1 == |s| then end > MAX_ADDR else end >= s[k + 1].start && flag == 0
  {
    hide Place, Inserted, Round, Wrap;
    var k := Find(s, addr);
    if k < |s| { OnlyAt(s, k); }
    hide Good;
  }

  /** Two neighbours: the first cannot double in place, and moves to an odd end. */
  lemma NeighbourMoves()
    ensures var s := [NewBlock(MIN_ADDR, 1, 0, 0), NewBlock(MIN_ADDR + 0x1000, 1, 0, 0)];
      Good(s) && Moves(s, MIN_ADDR, 0x2000, 1) && !Good(Remap(s, MIN_ADDR, 0x2000, 1).blocks)
  {
    assert Round(1) == PGSIZE && Round(0x2000) == 0x2000;
    var s := [NewBlock(MIN_ADDR, 1, 0, 0), NewBlock(MIN_ADDR + 0x1000, 1, 0, 0)];
    RemapKeepsIff(s, MIN_ADDR, 0x2000, 1);
  }

  // ------------------------------------------------- the leftmost address

  /** A block of `size` bytes at address a would overlap nothing. */
  ghost predicate Fits(s: seq<Block>, a: int, size: int) {
    MIN_ADDR <= a && forall i: nat | i < |s| :: a + size <= s[i].start || s[i].end < a
  }

  /** The gap in front of block i. */
  function Gap(s: seq<Block>, i: nat): int
    requires i < |s|
  {
    s[i].start - NextAddr(s[..i])
  }

  ghost predicate Leftmost(s: seq<Block>, a: int, size: int) {
    Fits(s, a, size) && forall b: int | Fits(s, b, size) :: a <= b
  }

  lemma GapFits(s: seq<Block>, i: nat, size: int)
    requires Good(s) && i < |s| && size >= 1 && Gap(s, i) >= size
    ensures Fits(s, NextAddr(s[..i]), size) && NextAddr(s[..i]) < s[i].start
  {
    var t, a := s[..i], NextAddr(s[..i]);
    assert Good(t);
    NextFree(t);
    forall j: nat | j < |s|
      ensures a + size <= s[j].start || s[j].end < a
    {
      if j < i { assert t[j].end < a; }
      if j > i { StartsDiffer(s, i, j); }
    }
  }

  /** Whatever fits before the end of the table lies in a gap. */
  lemma {:induction false} FitsInGap(s: seq<Block>, a: int, size: int)
    requires Good(s) && size >= 1 && Fits(s, a, size) && a < NextAddr(s)
    ensures exists i: nat :: i < |s| && Gap(s, i) >= size
  {
    var n := |s| - 1;
    assert s != [];
    var t := s[..n];
    assert Good(t);
    RoundUp(s[n].length);
    assert s[n].end >= a;
    if a < NextAddr(t) {
      assert forall i: nat | i < n :: t[i] == s[i];
      FitsInGap(t, a, size);
      var i: nat :| i < |t| && Gap(t, i) >= size;
      assert t[..i] == s[..i];
      assert Gap(s, i) >= size;
    } else {
      assert Gap(s, n) >= size;
    }
  }

  /**
    "find leftmost available place": the address chosen is the leftmost one
    exactly if no gap in front of a block is large enough.
   */
  lemma LeftmostIff(s: seq<Block>, size: int)
    requires Good(s) && size >= 1
    ensures Leftmost(s, NextAddr(s), size) <==> forall i: nat | i < |s| :: Gap(s, i) < size
  {
    NextFree(s);
    assert Fits(s, NextAddr(s), size);
    if i: nat :| i < |s| && Gap(s, i) >= size {
      GapFits(s, i, size);
      RoundUp(s[i].length);
      assert s[i].end < NextAddr(s);
    }
    forall b: int | Fits(s, b, size) && b < NextAddr(s)
      ensures exists i: nat :: i < |s| && Gap(s, i) >= size
    {
      FitsInGap(s, b, size);
    }
  }

  /** Two blocks with two pages between them: a one-page mapping goes behind both. */
  lemma GapIgnored()
    ensures var s := [NewBlock(MIN_ADDR, 1, 0, 0), NewBlock(MIN_ADDR + 0x3000, 1, 0, 0)];
      Good(s) && Fits(s, MIN_ADDR + 0x1000, PGSIZE) && NextAddr(s) == MIN_ADDR + 0x4000
  {
    assert Round(1) == PGSIZE;
  }

  // ------------------------------------------------------------- whole runs

  datatype Op = MapOp(length: int, flags: int, fd: int) | UnmapOp(addr: int) | RemapOp(addr: int, size: int, flag: int)

  function Step(s: seq<Block>, op: Op): Reply {
    match op
    case MapOp(length, flags, fd) => Map(s, length, flags, fd)
    case UnmapOp(addr) => Unmap(s, addr)
    case RemapOp(addr, size, flag) => Remap(s, addr, size, flag)
  }

  /**
    What the calls must respect: mappings end within MAX_ADDR, a full table stays
    as it is, and only sole references are resized, in place.
   */
  predicate Allowed(s: seq<Block>, op: Op) {
    match op
    case MapOp(length, _, _) => length < 1 || |s| == SLOTS || NextAddr(s) + Round(length) <= MAX_ADDR
    case UnmapOp(_) => |s| < SLOTS
    case RemapOp(addr, size, flag) =>
      && |s| < SLOTS && 1 <= size <= MAX_LEN && !Moves(s, addr, size, flag)
      && (Find(s, addr) < |s| ==> s[Find(s, addr)].ref == 1)
  }

  ghost predicate IsRun(run: seq<seq<Block>>, ops: seq<Op>) {
    && |run| == |ops| + 1 && run[0] == []
    && forall i: nat | i < |ops| :: Allowed(run[i], ops[i]) && run[i + 1] == Step(run[i], ops[i]).blocks
  }

  lemma StepKeeps(s: seq<Block>, op: Op)
    requires Good(s) && Allowed(s, op)
    ensures Good(Step(s, op).blocks)
  {
    hide Map, Unmap, Inserted, Dropped, Moves, Good, Round, Wrap;
    match op
    case MapOp(length, flags, fd) => MapKeepsIff(s, length, flags, fd);
    case UnmapOp(addr) => UnmapKeeps(s, addr);
    case RemapOp(addr, size, flag) => RemapKeepsIff(s, addr, size, flag);
  }

  lemma {:induction false} RunGood(run: seq<seq<Block>>, ops: seq<Op>, i: nat)
    requires IsRun(run, ops) && i < |run|
    ensures Good(run[i])
  {
    if i > 0 {
      RunGood(run, ops, i - 1);
      StepKeeps(run[i - 1], ops[i - 1]);
    }
  }
}
