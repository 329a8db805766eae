/**
  Physical frames and two-level page tables (32-bit paging, section 4.3 of the
  Intel SDM Volume 3A) under vm.c and kalloc.c: who uses which frame, and the
  flat map that a page directory stands for.
 */
module VmSpec {
  import opened Common

  const NENT := 1024       // entries of a directory or a table
  const NPAGES := 0x100000 // pages of the 4 GB address space
  const UPAGES := 0x80000  // KERNBASE / PGSIZE
  const MINPAGE := 0x60000 // MIN_ADDR / PGSIZE

  const PTE_P := 1
  const PTE_W := 2
  const PTE_U := 4

  type Page = p: seq<Word> | |p| == NENT witness seq(NENT, _ => 0)

  function ZeroPage(): Page {
    seq(NENT, _ => 0)
  }

  predicate Present(w: Word) {
    w % 2 == 1
  }

  /** PTE_ADDR(w) / PGSIZE */
  function FrameOf(w: Word): nat {
    w / PGSIZE
  }

  /** pa | perm | PTE_P, for a page-aligned pa and perm below PGSIZE. */
  function Entry(f: nat, perm: nat): (w: Word)
    requires f < 0x10_0000 && perm < PGSIZE
    ensures Present(w) && FrameOf(w) == f && w % PGSIZE == (if perm % 2 == 1 then perm else perm + 1)
  {
    var low := if perm % 2 == 1 then perm else perm + 1;
    Parts(f, low);
    f * PGSIZE + low
  }

  lemma Parts(f: nat, low: nat)
    requires low < PGSIZE
    ensures (f * PGSIZE + low) / PGSIZE == f && (f * PGSIZE + low) % PGSIZE == low
    ensures (f * PGSIZE + low) % 2 == low % 2
  {
  }

  lemma LowBits(f: nat, low: nat)
    requires low < PGSIZE
    ensures (f * PGSIZE + low) % 8 == low % 8
  {
    Eighths(f * PGSIZE + low, 512 * f, low);
  }

  lemma Eighths(w: nat, q: nat, low: nat)
    requires w == 8 * q + low
    ensures w % 8 == low % 8
  {
  }

  /** Frames lo .. hi-1 are what kinit hands to the allocator. */
  datatype Phys = Phys(lo: nat, hi: nat) {
    predicate Valid() {
      0 < lo <= hi <= 0xE000
    }
  }

  /**
    spaces: the page directories in use.  outside: frames that are neither free
    nor part of an address space (kernel stacks, frames in a caller's hands).
   */
  datatype Vm = Vm(mem: seq<Page>, free: set<nat>, spaces: set<nat>, outside: set<nat>)

  ghost predicate Sized(ph: Phys, st: Vm) {
    ph.Valid() && |st.mem| == ph.hi && forall d | d in st.spaces :: d < ph.hi
  }

  /**
    The frame a present entry points to, 0 for an entry that is not present.
    Frame 0 belongs to nobody: a present entry for it counts as out of range.
   */
  function Target(w: Word): nat {
    if !Present(w) then 0 else if FrameOf(w) == 0 then NPAGES else FrameOf(w)
  }

  /** The page table that directory d has for its entry x; 0 if none. */
  function Tab(st: Vm, d: nat, x: nat): nat
    requires x < NENT
  {
    if d in st.spaces && d < |st.mem| then Target(st.mem[d][x]) else 0
  }

  /** The flat map: the entry for page v of the address space, 0 if there is none. */
  function Pte(st: Vm, d: nat, v: nat): Word
    requires v < NPAGES
  {
    var t := Tab(st, d, v / NENT);
    if 0 < t < |st.mem| then st.mem[t][v % NENT] else 0
  }

  function PageFrame(st: Vm, d: nat, v: nat): nat
    requires v < NPAGES
  {
    Target(Pte(st, d, v))
  }

  /** Every way a frame can be in use. */
  datatype Use = Free(f: nat) | Dir(d: nat) | Table(d: nat, x: nat) | User(d: nat, v: nat)

  predicate IsUse(u: Use) {
    match u
    case Table(_, x) => x < NENT
    case User(_, v) => v < UPAGES
    case _ => true
  }

  /** The frame in that use; 0 if none is. */
  function Holds(st: Vm, u: Use): nat
    requires IsUse(u)
  {
    match u
    case Free(f) => if f in st.free then f else 0
    case Dir(d) => if d in st.spaces then d else 0
    case Table(d, x) => Tab(st, d, x)
    case User(d, v) => PageFrame(st, d, v)
  }

  ghost predicate Used(st: Vm, f: nat) {
    exists u :: IsUse(u) && Holds(st, u) == f
  }

  /** Directory entries leave the rights to the tables: present, writable, for users. */
  ghost predicate TablesOpen(st: Vm) {
    forall d, x: nat | d in st.spaces && d < |st.mem| && x < NENT && Present(st.mem[d][x]) :: st.mem[d][x] % 8 == 7
  }

  /** Free, directory, table and user frames, and those outside, partition lo .. hi-1. */
  ghost predicate Inv(ph: Phys, st: Vm) {
    && Sized(ph, st) && TablesOpen(st)
    && (forall u | IsUse(u) && Holds(st, u) != 0 :: ph.lo <= Holds(st, u) < ph.hi && Holds(st, u) !in st.outside)
    && (forall u, w | IsUse(u) && IsUse(w) && Holds(st, u) == Holds(st, w) != 0 :: u == w)
    && (forall f | f in st.outside :: ph.lo <= f < ph.hi)
    && (forall f | ph.lo <= f < ph.hi :: f in st.outside || Used(st, f))
  }

  // ------------------------------------------------ one use changes hands

  ghost predicate OneUse(st: Vm, st': Vm, u0: Use, f: nat) {
    forall u | IsUse(u) :: Holds(st', u) == if u == u0 then f else Holds(st, u)
  }

  lemma UsedElsewhere(st: Vm, st': Vm, u0: Use, f: nat, g: nat)
    requires IsUse(u0) && OneUse(st, st', u0, f) && g != f && g != 0 && g != Holds(st, u0)
    ensures Used(st', g) <==> Used(st, g)
  {
    hide Holds;
    if u :| IsUse(u) && Holds(st, u) == g { assert Holds(st', u) == g; }
    if u :| IsUse(u) && Holds(st', u) == g { assert Holds(st, u) == g; }
  }

  /** A frame from outside enters a use. */
  lemma Give(ph: Phys, st: Vm, st': Vm, u0: Use, f: nat)
    requires Inv(ph, st) && Sized(ph, st') && TablesOpen(st') && IsUse(u0) && f in st.outside && Holds(st, u0) == 0
    requires OneUse(st, st', u0, f) && st'.outside == st.outside - {f}
    ensures Inv(ph, st')
  {
    hide Holds;
    forall g | ph.lo <= g < ph.hi
      ensures g in st'.outside || Used(st', g)
    {
      if g == f {
        assert Holds(st', u0) == f;
      } else {
        UsedElsewhere(st, st', u0, f, g);
      }
    }
  }

  /** A frame leaves its use, into the caller's hands. */
  lemma TakeBack(ph: Phys, st: Vm, st': Vm, u0: Use)
    requires Inv(ph, st) && Sized(ph, st') && TablesOpen(st') && IsUse(u0) && Holds(st, u0) != 0
    requires OneUse(st, st', u0, 0) && st'.outside == st.outside + {Holds(st, u0)}
    ensures Inv(ph, st')
  {
    hide Holds;
    forall g | ph.lo <= g < ph.hi
      ensures g in st'.outside || Used(st', g)
    {
      if g != Holds(st, u0) { UsedElsewhere(st, st', u0, 0, g); }
    }
  }

  /** Nothing changes hands. */
  lemma SameUses(ph: Phys, st: Vm, st': Vm)
    requires Inv(ph, st) && Sized(ph, st') && TablesOpen(st') && st'.outside == st.outside
    requires forall u | IsUse(u) :: Holds(st', u) == Holds(st, u)
    ensures Inv(ph, st')
  {
    hide Holds;
    forall g | ph.lo <= g < ph.hi
      ensures g in st'.outside || Used(st', g)
    {
      if u :| IsUse(u) && Holds(st, u) == g { assert Holds(st', u) == g; }
    }
  }

  // ------------------------------------------------------- reading frames

  lemma UsesDiffer(ph: Phys, st: Vm, u: Use, w: Use)
    requires Inv(ph, st) && IsUse(u) && IsUse(w) && u != w && Holds(st, u) != 0
    ensures Holds(st, u) != Holds(st, w)
  {
  }

  lemma DirUse(ph: Phys, st: Vm, d: nat)
    requires Inv(ph, st) && d in st.spaces && d != 0
    ensures ph.lo <= d < ph.hi && d !in st.outside && d !in st.free
  {
    assert Holds(st, Dir(d)) == d;
    UsesDiffer(ph, st, Dir(d), Free(d));
  }

  lemma TableUse(ph: Phys, st: Vm, d: nat, x: nat)
    requires Inv(ph, st) && x < NENT && Tab(st, d, x) != 0
    ensures ph.lo <= Tab(st, d, x) < ph.hi && Tab(st, d, x) !in st.outside && Tab(st, d, x) !in st.free
    ensures Tab(st, d, x) !in st.spaces
    ensures forall e, y: nat | y < NENT && Tab(st, e, y) == Tab(st, d, x) :: e == d && y == x
    ensures forall e, v: nat | v < UPAGES :: PageFrame(st, e, v) != Tab(st, d, x)
  {
    var t := Tab(st, d, x);
    assert Holds(st, Table(d, x)) == t;
    UsesDiffer(ph, st, Table(d, x), Free(t));
    UsesDiffer(ph, st, Table(d, x), Dir(t));
    forall e, y: nat | y < NENT && Tab(st, e, y) == t
      ensures e == d && y == x
    {
      assert Holds(st, Table(e, y)) == t;
    }
    forall e, v: nat | v < UPAGES
      ensures PageFrame(st, e, v) != t
    {
      assert Holds(st, User(e, v)) == PageFrame(st, e, v);
    }
  }

  /** A present entry of a directory leads to a table of its own. */
  lemma PresentTable(ph: Phys, st: Vm, d: nat, x: nat)
    requires Inv(ph, st) && d in st.spaces && x < NENT
    ensures Present(st.mem[d][x]) <==> Tab(st, d, x) != 0
    ensures Present(st.mem[d][x]) ==> Tab(st, d, x) == FrameOf(st.mem[d][x]) && ph.lo <= FrameOf(st.mem[d][x]) < ph.hi
  {
    assert Holds(st, Table(d, x)) == Tab(st, d, x);
  }

  /** What the processor makes of a linear address: the byte it stands for, and who may do what. */
  datatype Access = Access(addr: nat, writable: bool, user: bool)

  predicate Writable(w: Word) {
    w / 2 % 2 == 1
  }

  predicate ForUsers(w: Word) {
    w / 4 % 2 == 1
  }

  /**
    The translation with 4-KByte pages, as the manual has it: ten bits of the address
    choose the directory entry, ten the table entry, and both have to allow an access.
   */
  function Translated(mem: seq<Page>, d: nat, va: Word): Option<Access>
    requires d < |mem|
  {
    var pde := mem[d][va / 0x40_0000];
    if !Present(pde) || FrameOf(pde) >= |mem| then None
    else
      var pte := mem[FrameOf(pde)][va / 0x1000 % 0x400];
      if !Present(pte) then None
      else Some(Access(FrameOf(pte) * 0x1000 + va % 0x1000, Writable(pde) && Writable(pte),
                       ForUsers(pde) && ForUsers(pte)))
  }

  /** The flat map is what the processor sees. */
  lemma FlatIsTranslated(ph: Phys, st: Vm, d: nat, va: Word)
    requires Inv(ph, st) && d in st.spaces
    ensures d < |st.mem| && Translated(st.mem, d, va) ==
            var w := Pte(st, d, va / PGSIZE);
            if Present(w) then Some(Access(FrameOf(w) * PGSIZE + va % PGSIZE, Writable(w), ForUsers(w))) else None
  {
    var v := va / PGSIZE;
    assert va / 0x40_0000 == v / NENT && va / 0x1000 % 0x400 == v % NENT;
    PresentTable(ph, st, d, v / NENT);
    if Present(st.mem[d][v / NENT]) { OpenRights(st.mem[d][v / NENT]); }
  }

  lemma OpenRights(w: Word)
    requires w % 8 == 7
    ensures Writable(w) && ForUsers(w)
  {
  }

  /** Memory that is no directory and no table does not show in any flat map. */
  lemma FlatFrame(st: Vm, st': Vm)
    requires |st'.mem| == |st.mem| && st'.spaces == st.spaces
    requires forall d | d in st.spaces && d < |st.mem| :: st'.mem[d] == st.mem[d]
    requires forall d, x: nat | x < NENT && 0 < Tab(st, d, x) < |st.mem| ::
        st'.mem[Tab(st, d, x)] == st.mem[Tab(st, d, x)]
    ensures forall d, x: nat | x < NENT :: Tab(st', d, x) == Tab(st, d, x)
    ensures forall d, v: nat | v < NPAGES :: Pte(st', d, v) == Pte(st, d, v)
  {
    forall d, x: nat | x < NENT
      ensures Tab(st', d, x) == Tab(st, d, x)
    {
    }
    forall d, v: nat | v < NPAGES
      ensures Pte(st', d, v) == Pte(st, d, v)
    {
      assert Tab(st', d, v / NENT) == Tab(st, d, v / NENT);
    }
  }

  /** A user page lies apart from every other use, and from the frames outside. */
  lemma UserApart(ph: Phys, st: Vm, d: nat, v: nat, u: Use)
    requires Inv(ph, st) && v < UPAGES && PageFrame(st, d, v) != 0 && IsUse(u) && u != User(d, v)
    ensures ph.lo <= PageFrame(st, d, v) < ph.hi && PageFrame(st, d, v) !in st.outside
    ensures PageFrame(st, d, v) != Holds(st, u)
  {
    assert Holds(st, User(d, v)) == PageFrame(st, d, v);
  }

  lemma OutsideNotUsed(ph: Phys, st: Vm, f: nat, u: Use)
    requires Inv(ph, st) && f in st.outside && IsUse(u)
    ensures Holds(st, u) != f && f != 0
  {
  }

  /** Space d has the same entries, and its user pages the same contents. */
  ghost predicate SameSpace(st: Vm, st': Vm, d: nat) {
    && (forall v: nat | v < NPAGES :: Pte(st', d, v) == Pte(st, d, v))
    && SameMemory(st, st', d)
  }

  ghost predicate SameMemory(st: Vm, st': Vm, d: nat) {
    |st'.mem| == |st.mem| && forall v: nat | v < UPAGES && 0 < PageFrame(st, d, v) < |st.mem| ::
      st'.mem[PageFrame(st, d, v)] == st.mem[PageFrame(st, d, v)]
  }

  // ---------------------------------------------------------- micro steps

  function Allocated(st: Vm, f: nat): Vm {
    st.(free := st.free - {f}, outside := st.outside + {f})
  }

  /** kalloc(): a free frame comes into the caller's hands. */
  lemma AllocFrame(ph: Phys, st: Vm, f: nat)
    requires Inv(ph, st) && f in st.free && f != 0
    ensures Inv(ph, Allocated(st, f)) && forall d: nat :: SameSpace(st, Allocated(st, f), d)
    ensures f !in st.outside && f !in st.spaces
  {
    var st' := Allocated(st, f);
    assert Holds(st, Free(f)) == f;
    UsesDiffer(ph, st, Free(f), Dir(f));
    FlatFrame(st, st');
    assert OneUse(st, st', Free(f), 0);
    TakeBack(ph, st, st', Free(f));
  }

  lemma WriteKeepsFlat(ph: Phys, st: Vm, f: nat, page: Page, st': Vm)
    requires Inv(ph, st) && f in st.outside && st'.mem == st.mem[f := page] && st'.spaces == st.spaces
    ensures TablesOpen(st')
    ensures forall d, x: nat | x < NENT :: Tab(st', d, x) == Tab(st, d, x)
    ensures forall d, v: nat | v < NPAGES :: Pte(st', d, v) == Pte(st, d, v)
    ensures forall d: nat :: SameSpace(st, st', d)
  {
    OutsideNotUsed(ph, st, f, Dir(f));
    forall d, x: nat | x < NENT && Tab(st, d, x) != 0
      ensures Tab(st, d, x) != f
    {
      TableUse(ph, st, d, x);
    }
    FlatFrame(st, st');
    forall d: nat
      ensures SameSpace(st, st', d)
    {
      forall v: nat | v < UPAGES && 0 < PageFrame(st, d, v) < |st.mem|
        ensures PageFrame(st, d, v) != f
      {
        UserApart(ph, st, d, v, Free(f));
      }
    }
  }

  function Wrote(st: Vm, f: nat, page: Page): Vm
    requires f < |st.mem|
  {
    st.(mem := st.mem[f := page])
  }

  /** The caller writes to a frame in its hands. */
  lemma WriteOutside(ph: Phys, st: Vm, f: nat, page: Page)
    requires Inv(ph, st) && f in st.outside
    ensures f < |st.mem|
    ensures Inv(ph, Wrote(st, f, page)) && forall d: nat :: SameSpace(st, Wrote(st, f, page), d)
  {
    var st' := Wrote(st, f, page);
    WriteKeepsFlat(ph, st, f, page, st');
    hide Tab, Pte;
    SameUses(ph, st, st');
  }

  function Freed(st: Vm, f: nat, page: Page): Vm
    requires f < |st.mem|
  {
    st.(mem := st.mem[f := page], free := st.free + {f}, outside := st.outside - {f})
  }

  /** kfree(): junk and a link are stored, and the frame is free. */
  lemma FreeFrame(ph: Phys, st: Vm, f: nat, page: Page)
    requires Inv(ph, st) && f in st.outside
    ensures f < |st.mem| && f !in st.free && f != 0
    ensures Inv(ph, Freed(st, f, page)) && forall d: nat :: SameSpace(st, Freed(st, f, page), d)
    ensures forall d, x: nat | x < NENT :: Tab(Freed(st, f, page), d, x) == Tab(st, d, x)
  {
    var st' := Freed(st, f, page);
    WriteKeepsFlat(ph, st, f, page, st');
    hide Tab, Pte;
    OutsideNotUsed(ph, st, f, Free(f));
    assert OneUse(st, st', Free(f), f);
    Give(ph, st, st', Free(f), f);
  }

  /** The frame of directory d, and that its table is missing. */
  function Linked(st: Vm, d: nat, x: nat, f: nat): Vm
    requires d < |st.mem| && x < NENT && f < 0x10_0000
  {
    st.(mem := st.mem[d := st.mem[d][x := Entry(f, 7)]], outside := st.outside - {f})
  }

  /** walkpgdir installs a zeroed page table; no page becomes mapped by that. */
  lemma LinkTable(ph: Phys, st: Vm, d: nat, x: nat, f: nat)
    requires Inv(ph, st) && d in st.spaces && d != 0 && x < NENT && !Present(st.mem[d][x])
    requires f in st.outside && st.mem[f] == ZeroPage()
    ensures Inv(ph, Linked(st, d, x, f)) && Tab(Linked(st, d, x, f), d, x) == f
    ensures forall e: nat :: SameSpace(st, Linked(st, d, x, f), e)
    ensures forall e, y: nat | y < NENT && !(e == d && y == x) :: Tab(Linked(st, d, x, f), e, y) == Tab(st, e, y)
  {
    DirUse(ph, st, d);
    var st' := Linked(st, d, x, f);
    forall e, y: nat | y < NENT
      ensures Tab(st', e, y) == if e == d && y == x then f else Tab(st, e, y)
      ensures Tab(st, e, y) != d
    {
      if Tab(st, e, y) != 0 { TableUse(ph, st, e, y); }
    }
    hide Tab;
    forall e, v: nat | v < NPAGES
      ensures Pte(st', e, v) == Pte(st, e, v)
    {
      if e == d && v / NENT == x {
        assert Tab(st, d, x) == 0 by { NoTable(st, d, x); }
      }
    }
    LinkedMemory(ph, st, d, x, f);
    LinkedOpen(st, d, x, f);
    hide Pte, TablesOpen;
    assert Holds(st, Table(d, x)) == 0 by { NoTable(st, d, x); }
    assert OneUse(st, st', Table(d, x), f);
    Give(ph, st, st', Table(d, x), f);
  }

  lemma NoTable(st: Vm, d: nat, x: nat)
    requires x < NENT && (d < |st.mem| ==> !Present(st.mem[d][x]))
    ensures Tab(st, d, x) == 0
  {
  }

  lemma LinkedOpen(st: Vm, d: nat, x: nat, f: nat)
    requires TablesOpen(st) && d < |st.mem| && x < NENT && f < 0x10_0000
    ensures TablesOpen(Linked(st, d, x, f))
  {
    assert Entry(f, 7) % 8 == 7 by { LowBits(f, 7); }
    hide Entry;
  }

  lemma LinkedMemory(ph: Phys, st: Vm, d: nat, x: nat, f: nat)
    requires Inv(ph, st) && d in st.spaces && d != 0 && x < NENT && f < 0x10_0000 && d < |st.mem|
    ensures forall e: nat :: SameMemory(st, Linked(st, d, x, f), e)
  {
    hide Pte;
    forall e: nat, v: nat | v < UPAGES && PageFrame(st, e, v) != 0
      ensures PageFrame(st, e, v) != d
    {
      UserApart(ph, st, e, v, Dir(d));
    }
  }

  // ------------------------------------------------- one entry of the map

  /** The entry for page v of space d becomes w. */
  function WithPte(st: Vm, d: nat, v: nat, w: Word): Vm
    requires v < NPAGES && 0 < Tab(st, d, v / NENT) < |st.mem|
  {
    var t := Tab(st, d, v / NENT);
    st.(mem := st.mem[t := st.mem[t][v % NENT := w]])
  }

  /** Storing one entry changes the flat map at that page of that space only. */
  lemma WithPteFlat(ph: Phys, st: Vm, d: nat, v: nat, w: Word)
    requires Inv(ph, st) && v < NPAGES && 0 < Tab(st, d, v / NENT) < |st.mem|
    ensures var st' := WithPte(st, d, v, w);
      && Sized(ph, st') && TablesOpen(st')
      && (forall e, y: nat | y < NENT :: Tab(st', e, y) == Tab(st, e, y))
      && (forall e, u: nat | u < NPAGES :: Pte(st', e, u) == if e == d && u == v then w else Pte(st, e, u))
      && (forall e: nat :: SameMemory(st, st', e))
  {
    var t := Tab(st, d, v / NENT);
    TableUse(ph, st, d, v / NENT);
    var st' := WithPte(st, d, v, w);
    forall e, y: nat | y < NENT
      ensures Tab(st', e, y) == Tab(st, e, y)
    {
    }
    hide Tab;
    forall e, u: nat | u < NPAGES
      ensures Pte(st', e, u) == if e == d && u == v then w else Pte(st, e, u)
    {
      assert u == v <==> u / NENT == v / NENT && u % NENT == v % NENT;
    }
    hide Pte;
    forall e: nat, u: nat | u < UPAGES && PageFrame(st, e, u) != 0
      ensures PageFrame(st, e, u) != t
    {
      UserApart(ph, st, e, u, Table(d, v / NENT));
    }
  }

  /** mappages maps a frame in the caller's hands at a user page. */
  lemma MapUser(ph: Phys, st: Vm, d: nat, v: nat, f: nat, perm: nat)
    requires Inv(ph, st) && v < UPAGES && 0 < Tab(st, d, v / NENT) < |st.mem| && !Present(Pte(st, d, v))
    requires f in st.outside && perm < PGSIZE
    ensures f < 0x10_0000
    ensures Inv(ph, WithPte(st, d, v, Entry(f, perm)).(outside := st.outside - {f}))
  {
    var w := Entry(f, perm);
    WithPteFlat(ph, st, d, v, w);
    var st' := WithPte(st, d, v, w).(outside := st.outside - {f});
    SameFlat(WithPte(st, d, v, w), st');
    hide Tab, Pte, WithPte;
    assert OneUse(st, st', User(d, v), f);
    Give(ph, st, st', User(d, v), f);
  }

  lemma SameFlat(st: Vm, st': Vm)
    requires st'.mem == st.mem && st'.spaces == st.spaces
    ensures forall e, y: nat | y < NENT :: Tab(st', e, y) == Tab(st, e, y)
    ensures forall e, u: nat | u < NPAGES :: Pte(st', e, u) == Pte(st, e, u)
  {
  }

  /** mappages in the kernel part: no frame changes hands. */
  lemma MapKernel(ph: Phys, st: Vm, d: nat, v: nat, w: Word)
    requires Inv(ph, st) && UPAGES <= v < NPAGES && 0 < Tab(st, d, v / NENT) < |st.mem|
    ensures Inv(ph, WithPte(st, d, v, w))
  {
    WithPteFlat(ph, st, d, v, w);
    hide Tab, Pte, WithPte;
    WithPteSets(st, d, v, w);
    SameUses(ph, st, WithPte(st, d, v, w));
  }

  lemma WithPteSets(st: Vm, d: nat, v: nat, w: Word)
    requires v < NPAGES && 0 < Tab(st, d, v / NENT) < |st.mem|
    ensures var st' := WithPte(st, d, v, w);
      st'.free == st.free && st'.spaces == st.spaces && st'.outside == st.outside && |st'.mem| == |st.mem|
  {
  }

  /** deallocuvm clears a present entry: its frame comes into the caller's hands. */
  lemma Unmap(ph: Phys, st: Vm, d: nat, v: nat)
    requires Inv(ph, st) && v < UPAGES && 0 < Tab(st, d, v / NENT) < |st.mem| && Present(Pte(st, d, v))
    ensures FrameOf(Pte(st, d, v)) == PageFrame(st, d, v) != 0
    ensures Inv(ph, WithPte(st, d, v, 0).(outside := st.outside + {FrameOf(Pte(st, d, v))}))
  {
    WithPteFlat(ph, st, d, v, 0);
    var f := FrameOf(Pte(st, d, v));
    var st' := WithPte(st, d, v, 0).(outside := st.outside + {f});
    SameFlat(WithPte(st, d, v, 0), st');
    hide Tab, Pte, WithPte;
    WithPteSets(st, d, v, 0);
    UserApart(ph, st, d, v, Dir(0));
    assert Holds(st, User(d, v)) == f;
    assert OneUse(st, st', User(d, v), 0);
    TakeBack(ph, st, st', User(d, v));
  }

  // ------------------------------------------------------- whole spaces

  function Opened(st: Vm, f: nat): Vm {
    st.(spaces := st.spaces + {f}, outside := st.outside - {f})
  }

  /** A zeroed frame becomes a page directory that maps nothing. */
  lemma NewSpace(ph: Phys, st: Vm, f: nat)
    requires Inv(ph, st) && f in st.outside && st.mem[f] == ZeroPage()
    ensures Inv(ph, Opened(st, f)) && f !in st.spaces && f != 0
    ensures forall v: nat | v < NPAGES :: Pte(Opened(st, f), f, v) == 0
    ensures forall x: nat | x < NENT :: Tab(Opened(st, f), f, x) == 0
    ensures forall e: nat | e != f :: SameSpace(st, Opened(st, f), e)
    ensures forall e, x: nat | x < NENT && e != f :: Tab(Opened(st, f), e, x) == Tab(st, e, x)
  {
    OutsideNotUsed(ph, st, f, Dir(f));
    var st' := Opened(st, f);
    forall e, x: nat | x < NENT
      ensures Tab(st', e, x) == Tab(st, e, x)
    {
      if e == f { NoTable(st, f, x); NoTable(st', f, x); }
    }
    hide Tab;
    assert forall e, v: nat | v < NPAGES :: Pte(st', e, v) == Pte(st, e, v);
    assert forall x: nat | x < NENT :: Tab(st', f, x) == 0 by {
      forall x: nat | x < NENT { NoTable(st', f, x); }
    }
    assert forall v: nat | v < NPAGES :: Pte(st', f, v) == 0;
    hide Pte;
    assert OneUse(st, st', Dir(f), f);
    Give(ph, st, st', Dir(f), f);
  }

  /** The frames of space d: its directory, its tables, its user pages. */
  ghost function TableFrames(st: Vm, d: nat): set<nat> {
    set x: nat | x < NENT && Tab(st, d, x) != 0 :: Tab(st, d, x)
  }

  ghost function UserFrames(st: Vm, d: nat, from: nat): set<nat> {
    set v: nat | v < UPAGES && from <= v && PageFrame(st, d, v) != 0 :: PageFrame(st, d, v)
  }

  function Closed(st: Vm, d: nat, frames: set<nat>): Vm {
    st.(spaces := st.spaces - {d}, outside := st.outside + frames)
  }

  lemma ClosedHolds(st: Vm, d: nat, frames: set<nat>, u: Use)
    requires IsUse(u)
    ensures Holds(Closed(st, d, frames), u) == if u == Dir(d) || (u.Table? && u.d == d) ||
        (u.User? && u.d == d) then 0 else Holds(st, u)
  {
  }

  /** freevm's last phase: all frames of the space go into the caller's hands. */
  lemma DropSpace(ph: Phys, st: Vm, d: nat)
    requires Inv(ph, st) && d in st.spaces && d != 0
    ensures Inv(ph, Closed(st, d, {d} + TableFrames(st, d) + UserFrames(st, d, 0)))
    ensures forall e: nat | e != d :: SameSpace(st, Closed(st, d, {d} + TableFrames(st, d) + UserFrames(st, d, 0)), e)
  {
    var frames := {d} + TableFrames(st, d) + UserFrames(st, d, 0);
    var st' := Closed(st, d, frames);
    assert forall e, v: nat | v < NPAGES && e != d :: Pte(st', e, v) == Pte(st, e, v);
    forall u | IsUse(u)
      ensures Holds(st', u) == if InSpace(u, d) then 0 else Holds(st, u)
      ensures Holds(st, u) != 0 ==> (Holds(st, u) in frames <==> InSpace(u, d))
    {
      ClosedHolds(st, d, frames, u);
      if Holds(st, u) != 0 { FramesOfSpace(ph, st, d, u); }
    }
    FramesInRange(ph, st, d);
    hide Tab, Pte, TableFrames, UserFrames, Holds;
    DropCovers(ph, st, d, frames);
  }

  predicate InSpace(u: Use, d: nat) {
    u == Dir(d) || (u.Table? && u.d == d) || (u.User? && u.d == d)
  }

  lemma FramesOfSpace(ph: Phys, st: Vm, d: nat, u: Use)
    requires Inv(ph, st) && d in st.spaces && d != 0 && IsUse(u) && Holds(st, u) != 0
    ensures Holds(st, u) in {d} + TableFrames(st, d) + UserFrames(st, d, 0) <==> InSpace(u, d)
  {
    var g := Holds(st, u);
    hide Tab, Pte;
    assert Holds(st, Dir(d)) == d;
    if g in TableFrames(st, d) {
      var x: nat :| x < NENT && Tab(st, d, x) == g;
      assert Holds(st, Table(d, x)) == g;
    }
    if g in UserFrames(st, d, 0) {
      var v: nat :| v < UPAGES && PageFrame(st, d, v) == g;
      assert Holds(st, User(d, v)) == g;
    }
  }

  lemma FramesInRange(ph: Phys, st: Vm, d: nat)
    requires Inv(ph, st) && d in st.spaces && d != 0
    ensures forall f | f in {d} + TableFrames(st, d) + UserFrames(st, d, 0) ::
        ph.lo <= f < ph.hi && f !in st.outside && f !in st.free
  {
    hide Tab, Pte;
    DirUse(ph, st, d);
    forall f | f in TableFrames(st, d)
      ensures ph.lo <= f < ph.hi && f !in st.outside && f !in st.free
    {
      var x: nat :| x < NENT && Tab(st, d, x) == f != 0;
      TableUse(ph, st, d, x);
    }
    forall f | f in UserFrames(st, d, 0)
      ensures ph.lo <= f < ph.hi && f !in st.outside && f !in st.free
    {
      var v: nat :| v < UPAGES && PageFrame(st, d, v) == f != 0;
      UserApart(ph, st, d, v, Free(f));
    }
  }

  lemma DropCovers(ph: Phys, st: Vm, d: nat, frames: set<nat>)
    requires Inv(ph, st) && d in st.spaces
    requires forall u | IsUse(u) :: Holds(Closed(st, d, frames), u) == if InSpace(u, d) then 0 else Holds(st, u)
    requires forall u | IsUse(u) && Holds(st, u) != 0 :: (Holds(st, u) in frames <==> InSpace(u, d))
    requires forall f | f in frames :: ph.lo <= f < ph.hi
    ensures Inv(ph, Closed(st, d, frames))
  {
    hide Holds;
    var st' := Closed(st, d, frames);
    forall g | ph.lo <= g < ph.hi
      ensures g in st'.outside || Used(st', g)
    {
      if u :| IsUse(u) && Holds(st, u) == g {
        assert !InSpace(u, d) ==> Holds(st', u) == g;
      }
    }
  }
}
