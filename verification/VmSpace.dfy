/**
  Whole address spaces: the kernel half that setupkvm gives every one of them,
  and what becomes of the frames of one that freevm takes apart.
 */
module VmSpace {
  import opened Common
  import opened VmSpec
  import opened VmChange
  import opened VmGrow

  // ------------------------------------------------------- the kernel half

  /** A run of n pages from `virt` on, to frames from `phys` on. */
  datatype Segment = Segment(virt: nat, phys: nat, n: nat, perm: nat)

  /** kmap[]; `data` is the page where the kernel's writable data starts. */
  function KMap(data: nat): seq<Segment>
    requires 0x8_0100 < data < 0x8_E000
  {
    [Segment(0x8_0000, 0, 0x100, PTE_W),
     Segment(0x8_0100, 0x100, data - 0x8_0100, 0),
     Segment(data, data - 0x8_0000, 0x8_E000 - data, PTE_W),
     Segment(0xF_E000, 0xF_E000, 0x2000, PTE_W)]
  }

  predicate InSegment(g: Segment, u: nat) {
    g.virt <= u < g.virt + g.n
  }

  /** The entries that the first k segments ask for. */
  ghost function KernelUpTo(data: nat, k: nat, u: nat): Word
    requires 0x8_0100 < data < 0x8_E000 && k <= 4
  {
    if k == 0 then 0
    else
      var g := KMap(data)[k - 1];
      if InSegment(g, u) then Entry(g.phys + (u - g.virt), g.perm) else KernelUpTo(data, k - 1, u)
  }

  /** The kernel half: physical memory from 0x80000 on, read-only up to `data`, and the devices. */
  ghost function KernelEntry(data: nat, u: nat): Word
    requires 0x8_0100 < data < 0x8_E000 && u < NPAGES
  {
    if 0x8_0000 <= u < 0x8_0100 || data <= u < 0x8_E000 then Entry(u - 0x8_0000, PTE_W)
    else if 0x8_0100 <= u < data then Entry(u - 0x8_0000, 0)
    else if u >= 0xF_E000 then Entry(u, PTE_W)
    else 0
  }

  lemma KernelWhole(data: nat, u: nat)
    requires 0x8_0100 < data < 0x8_E000 && u < NPAGES
    ensures KernelUpTo(data, 4, u) == KernelEntry(data, u)
  {
    assert KernelUpTo(data, 1, u) == if u < 0x8_0100 then KernelEntry(data, u) else 0;
    assert KernelUpTo(data, 2, u) == if u < data then KernelEntry(data, u) else 0;
    assert KernelUpTo(data, 3, u) == if u < 0xF_E000 then KernelEntry(data, u) else 0;
  }

  /** Addresses of the kernel half reach the memory from 0 on and the devices, and no user. */
  lemma KernelIsPrivate(ph: Phys, st: Vm, d: nat, data: nat, va: Word)
    requires Inv(ph, st) && d in st.spaces && 0x8_0100 < data < 0x8_E000 && va >= 0x8000_0000
    requires forall u: nat | UPAGES <= u < NPAGES :: Pte(st, d, u) == KernelEntry(data, u)
    ensures d < |st.mem| && Translated(st.mem, d, va) ==
            if va < 0x8E00_0000 then
              Some(Access(va - 0x8000_0000, va < 0x8010_0000 || data * PGSIZE <= va, false))
            else if va >= 0xFE00_0000 then Some(Access(va, true, false)) else None
  {
    FlatIsTranslated(ph, st, d, va);
    hide Inv, Pte, Translated;
    var u := va / PGSIZE;
    assert Pte(st, d, u) == KernelEntry(data, u);
    KernelRights(data, u);
  }

  lemma KernelRights(data: nat, u: nat)
    requires 0x8_0100 < data < 0x8_E000 && UPAGES <= u < NPAGES
    ensures var w := KernelEntry(data, u);
      && !ForUsers(w) && (Present(w) <==> u < 0x8_E000 || u >= 0xF_E000)
      && (u < 0x8_E000 ==> FrameOf(w) == u - UPAGES && (Writable(w) <==> u < 0x8_0100 || data <= u))
      && (u >= 0xF_E000 ==> FrameOf(w) == u && Writable(w))
  {
    var f := if u < 0x8_E000 then u - UPAGES else u;
    LowRights(f, 1);
    LowRights(f, 3);
  }

  lemma LowRights(f: nat, low: nat)
    requires f < NPAGES && (low == 1 || low == 3)
    ensures var w := f * PGSIZE + low; !ForUsers(w) && (Writable(w) <==> low == 3)
  {
    OctalRights(f * PGSIZE + low, 512 * f, low);
  }

  lemma OctalRights(w: Word, q: nat, low: nat)
    requires w == 8 * q + low && (low == 1 || low == 3)
    ensures !ForUsers(w) && (Writable(w) <==> low == 3)
  {
    assert w / 4 == 2 * q;
    assert w / 2 == 4 * q + low / 2;
  }

  /** Segments do not overlap: what one maps, none before it did. */
  lemma SegmentVacant(data: nat, k: nat, u: nat)
    requires 0x8_0100 < data < 0x8_E000 && k < 4 && InSegment(KMap(data)[k], u)
    ensures KernelUpTo(data, k, u) == 0 && UPAGES <= u < NPAGES
  {
    if k > 0 { var a := KernelUpTo(data, k - 1, u); }
    if k > 1 { var b := KernelUpTo(data, k - 2, u); }
    if k > 2 { var c := KernelUpTo(data, k - 3, u); }
  }

  ghost predicate KernelMapped(st: Vm, d: nat, data: nat, k: nat)
    requires 0x8_0100 < data < 0x8_E000 && k <= 4
  {
    forall u: nat | u < NPAGES :: Pte(st, d, u) == KernelUpTo(data, k, u)
  }

  lemma KernelVacant(st: Vm, d: nat, data: nat, k: nat)
    requires 0x8_0100 < data < 0x8_E000 && k < 4 && KernelMapped(st, d, data, k)
    ensures var g := KMap(data)[k];
      Vacant(st, d, g.virt, g.virt + g.n) && UPAGES <= g.virt && g.virt + g.n <= NPAGES && 0 < g.n
  {
    hide Pte, Tab;
    var g := KMap(data)[k];
    forall u: nat | g.virt <= u < g.virt + g.n && u < NPAGES
      ensures !Present(Pte(st, d, u))
    {
      SegmentVacant(data, k, u);
    }
  }

  lemma KernelNext(st: Vm, st': Vm, d: nat, data: nat, k: nat)
    requires 0x8_0100 < data < 0x8_E000 && k < 4 && KernelMapped(st, d, data, k)
    requires var g := KMap(data)[k]; Mapped(st, st', d, g.virt, g.n, g.phys, g.perm)
    ensures KernelMapped(st', d, data, k + 1) && st'.outside == st.outside && st'.free <= st.free
    ensures UntouchedBut(st, st', d)
  {
    hide Pte, Tab;
    var g := KMap(data)[k];
    forall u: nat | u < NPAGES
      ensures Pte(st', d, u) == KernelUpTo(data, k + 1, u)
    {
      assert Pte(st, d, u) == KernelUpTo(data, k, u);
    }
    assert Handed(g.virt, g.n, g.phys) == {};
  }

  /** No segment reaches below the kernel's half. */
  lemma KernelOnly(data: nat, k: nat, u: nat)
    requires 0x8_0100 < data < 0x8_E000 && k <= 4 && u < UPAGES
    ensures KernelUpTo(data, k, u) == 0
  {
    if k > 0 { KernelOnly(data, k - 1, u); }
  }

  // ------------------------------------------------------- taken apart

  /** The tables for the first i entries of directory d. */
  ghost function TablesBefore(st: Vm, d: nat, i: nat): set<nat> {
    set x: nat | x < NENT && x < i && Tab(st, d, x) != 0 :: Tab(st, d, x)
  }

  lemma TablesNext(ph: Phys, st: Vm, d: nat, i: nat)
    requires Inv(ph, st) && i < NENT
    ensures Tab(st, d, i) == 0 ==> TablesBefore(st, d, i + 1) == TablesBefore(st, d, i)
    ensures Tab(st, d, i) != 0 ==> TablesBefore(st, d, i + 1) == TablesBefore(st, d, i) + {Tab(st, d, i)}
    ensures Tab(st, d, i) != 0 ==> Tab(st, d, i) !in TablesBefore(st, d, i)
    ensures Tab(st, d, i) != 0 ==> Tab(st, d, i) in TableFrames(st, d) && Tab(st, d, i) !in st.outside
  {
    if Tab(st, d, i) != 0 { TableUse(ph, st, d, i); }
    hide Tab;
  }

  lemma TablesAll(st: Vm, d: nat)
    ensures TablesBefore(st, d, NENT) == TableFrames(st, d) && TablesBefore(st, d, 0) == {}
  {
    hide Tab;
  }

  /** The directory is none of its tables or pages, and tables are no user pages. */
  lemma SpaceParts(ph: Phys, st: Vm, d: nat)
    requires Inv(ph, st) && d in st.spaces && d != 0
    ensures d !in TableFrames(st, d) && d !in UserFrames(st, d, 0) && TableFrames(st, d) !! UserFrames(st, d, 0)
    ensures ({d} + TableFrames(st, d) + UserFrames(st, d, 0)) !! st.outside
  {
    FramesInRange(ph, st, d);
    hide Tab, Pte;
    forall f | f in TableFrames(st, d)
      ensures f != d && f !in UserFrames(st, d, 0)
    {
      var x: nat :| x < NENT && Tab(st, d, x) == f != 0;
      TableUse(ph, st, d, x);
    }
    forall f | f in UserFrames(st, d, 0)
      ensures f != d
    {
      var v: nat :| v < UPAGES && PageFrame(st, d, v) == f != 0;
      UserApart(ph, st, d, v, Dir(d));
    }
  }

  lemma ClosedUntouched(ph: Phys, st: Vm, d: nat, frames: set<nat>)
    ensures UntouchedBut(st, Closed(st, d, frames), d)
  {
    var st' := Closed(st, d, frames);
    assert forall e, x: nat | x < NENT && e != d :: Tab(st', e, x) == Tab(st, e, x);
    hide Tab;
    assert forall e, v: nat | v < NPAGES && e != d :: Pte(st', e, v) == Pte(st, e, v);
    hide Pte;
  }

  /** After deallocuvm only the pages from MIN_ADDR on are left. */
  lemma PagesLeft(st: Vm, st': Vm, d: nat)
    requires Cleared(st, st', d, 0, MINPAGE)
    ensures UserFrames(st', d, 0) == UserFrames(st, d, MINPAGE) && TableFrames(st', d) == TableFrames(st, d)
    ensures st'.free == st.free + FramesBetween(st, d, 0, MINPAGE) && st'.outside == st.outside
    ensures st'.spaces == st.spaces
    ensures UntouchedBut(st, st', d) && |st'.mem| == |st.mem|
  {
    hide Tab, Pte;
    forall v: nat | v < UPAGES
      ensures PageFrame(st', d, v) == if v < MINPAGE then 0 else PageFrame(st, d, v)
    {
    }
  }

  /** No frame is left behind exactly if nothing was mapped from MIN_ADDR on. */
  lemma LeftBehindIff(ph: Phys, st: Vm, d: nat)
    requires Inv(ph, st)
    ensures st.outside + UserFrames(st, d, MINPAGE) == st.outside <==> Vacant(st, d, MINPAGE, UPAGES)
    ensures Vacant(st, d, MINPAGE, UPAGES) ==> UserFrames(st, d, MINPAGE) == {}
  {
    hide Tab, Pte;
    if !Vacant(st, d, MINPAGE, UPAGES) {
      var u: nat :| MINPAGE <= u < UPAGES && Present(Pte(st, d, u));
      assert PageFrame(st, d, u) in UserFrames(st, d, MINPAGE);
      UserApart(ph, st, d, u, Free(0));
    }
  }

  /** A space with its one user page at MIN_ADDR: freevm leaves that page behind. */
  lemma OnePageLeftBehind() returns (ph: Phys, st: Vm, d: nat)
    ensures Inv(ph, st) && d in st.spaces && Present(Pte(st, d, MINPAGE))
    ensures st.outside + UserFrames(st, d, MINPAGE) != st.outside
  {
    hide Inv, Pte, Tab;
    ph, d := Phys(1, 4), 1;
    var mem: seq<Page> := seq(4, _ => ZeroPage());
    var st0 := Vm(mem, {}, {}, {1, 2, 3});
    assert Inv(ph, st0) by { AllOutside(ph, st0); }
    NewSpace(ph, st0, 1);
    var st1 := Opened(st0, 1);
    LinkTable(ph, st1, 1, MINPAGE / NENT, 2);
    var st2 := Linked(st1, 1, MINPAGE / NENT, 2);
    assert SameSpace(st1, st2, 1);
    MapUser(ph, st2, 1, MINPAGE, 3, PTE_W + PTE_U);
    WithPteFlat(ph, st2, 1, MINPAGE, Entry(3, PTE_W + PTE_U));
    st := WithPte(st2, 1, MINPAGE, Entry(3, PTE_W + PTE_U)).(outside := st2.outside - {3});
    SameFlat(WithPte(st2, 1, MINPAGE, Entry(3, PTE_W + PTE_U)), st);
    LeftBehindIff(ph, st, d);
  }

  lemma AllOutside(ph: Phys, st: Vm)
    requires Sized(ph, st) && st.free == {} && st.spaces == {}
    requires forall f: nat :: f in st.outside <==> ph.lo <= f < ph.hi
    ensures Inv(ph, st)
  {
    forall u | IsUse(u)
      ensures Holds(st, u) == 0
    {
    }
  }

  /** A directory that is no longer, or not yet, in use maps nothing. */
  lemma NotASpace(st: Vm, st': Vm, d: nat)
    requires UntouchedBut(st, st', d) && d !in st.spaces && d !in st'.spaces && |st'.mem| == |st.mem|
    ensures AllUntouched(st, st')
  {
    assert forall x: nat | x < NENT :: Tab(st, d, x) == 0 && Tab(st', d, x) == 0;
    hide Tab;
    assert forall v: nat | v < NPAGES :: Pte(st, d, v) == 0 && Pte(st', d, v) == 0;
    hide Pte;
    assert Untouched(st, st', d);
  }

  lemma AllBut(st: Vm, st': Vm, d: nat)
    requires AllUntouched(st, st')
    ensures UntouchedBut(st, st', d)
  {
    hide Untouched;
  }

  lemma NoMove(st: Vm)
    ensures AllUntouched(st, st)
  {
    hide Pte, Tab;
  }

  /** A zeroed page is a directory with nothing in it. */
  lemma OpenedSpace(ph: Phys, st: Vm, st1: Vm, d: nat, data: nat)
    requires Inv(ph, st1) && d in st1.outside && d < |st1.mem| && st1.mem[d] == ZeroPage() && AllUntouched(st, st1)
    requires 0x8_0100 < data < 0x8_E000
    ensures Inv(ph, Opened(st1, d)) && d !in st1.spaces
    ensures KernelMapped(Opened(st1, d), d, data, 0) && UntouchedBut(st, Opened(st1, d), d)
  {
    hide Inv, Pte, Tab;
    NewSpace(ph, st1, d);
    AllBut(st, st1, d);
    UntouchedTrans(st, st1, Opened(st1, d), d);
  }

  lemma SegmentPages(g: Segment)
    requires g.n > 0
    ensures g.virt * PGSIZE / PGSIZE == g.virt && Pages(g.virt * PGSIZE, g.n * PGSIZE) == g.n
  {
  }

  /** A segment that could not be mapped to the end leaves the user half empty. */
  lemma KernelFailed(st: Vm, st2: Vm, st3: Vm, d: nat, data: nat, k: nat, done: nat)
    requires 0x8_0100 < data < 0x8_E000 && k < 4 && KernelMapped(st2, d, data, k) && UntouchedBut(st, st2, d)
    requires var g := KMap(data)[k]; done <= g.n && Mapped(st2, st3, d, g.virt, done, g.phys, g.perm)
    ensures UntouchedBut(st, st3, d) && Vacant(st3, d, MINPAGE, UPAGES) && st3.outside == st2.outside
    ensures st3.spaces == st2.spaces
  {
    hide Pte, Tab;
    UntouchedTrans(st, st2, st3, d);
    var g := KMap(data)[k];
    forall u: nat | MINPAGE <= u < UPAGES
      ensures !Present(Pte(st3, d, u))
    {
      assert Pte(st2, d, u) == KernelUpTo(data, k, u);
      KernelOnly(data, k, u);
    }
    assert Handed(g.virt, done, g.phys) == {};
  }

  // ------------------------------------------------------------- copies

  ghost predicate AllPresent(st: Vm, d: nat, n: nat) {
    n <= UPAGES && forall u: nat | u < n :: Present(Pte(st, d, u)) && PageFrame(st, d, u) < |st.mem|
  }

  /** What the first n pages of a copy of space d hold. */
  ghost function Copies(st: Vm, d: nat, n: nat): (want: seq<Want>)
    requires AllPresent(st, d, n)
    ensures |want| == n
  {
    seq(n, i requires 0 <= i < n => Want(st.mem[PageFrame(st, d, i)], Pte(st, d, i) % PGSIZE))
  }

  lemma CopiesNext(st: Vm, d: nat, n: nat)
    requires AllPresent(st, d, n + 1)
    ensures AllPresent(st, d, n)
    ensures Copies(st, d, n + 1) == Copies(st, d, n) + [Want(st.mem[PageFrame(st, d, n)], Pte(st, d, n) % PGSIZE)]
  {
    hide Pte;
  }

  /** While space nd grows, the pages of d are where they were. */
  lemma SourcePage(ph: Phys, st: Vm, st2: Vm, d: nat, nd: nat, n: nat, p: nat)
    requires Inv(ph, st) && AllPresent(st, d, n) && UntouchedBut(st, st2, nd) && d != nd && p < n
    ensures Pte(st2, d, p) == Pte(st, d, p) && Present(Pte(st, d, p)) && Tab(st2, d, p / NENT) != 0
    ensures FrameOf(Pte(st, d, p)) == PageFrame(st, d, p) < |st2.mem|
    ensures st2.mem[PageFrame(st, d, p)] == st.mem[PageFrame(st, d, p)]
    ensures AllPresent(st, d, p) && AllPresent(st, d, p + 1)
    ensures Copies(st, d, p + 1) == Copies(st, d, p) + [Want(st.mem[PageFrame(st, d, p)], Pte(st, d, p) % PGSIZE)]
  {
    assert Pte(st2, d, p) != 0 ==> Tab(st2, d, p / NENT) != 0;
    hide Pte, Tab;
    assert Untouched(st, st2, d);
    InvSized(ph, st);
    CopiesNext(st, d, p);
    hide Copies, Inv;
    assert 0 < PageFrame(st, d, p) < |st.mem|;
  }

  lemma RestVacant(st1: Vm, st2: Vm, nd: nat, want: seq<Want>)
    requires Grown(st1, st2, nd, 0, want) && Vacant(st1, nd, 0, UPAGES)
    ensures Vacant(st2, nd, |want|, UPAGES)
  {
    hide Pte, Tab;
  }

  lemma UntouchedVacant(st2: Vm, st3: Vm, st4: Vm, nd: nat, p: nat)
    requires AllUntouched(st2, st3) && AllUntouched(st3, st4) && Vacant(st2, nd, p, UPAGES)
    ensures Vacant(st4, nd, p, UPAGES)
  {
    hide Pte, Tab;
    assert Untouched(st2, st3, nd) && Untouched(st3, st4, nd);
  }

  lemma MappedBut(st: Vm, st': Vm, d: nat, v: nat, f: nat, perm: nat)
    requires f < NPAGES && perm < PGSIZE && Mapped(st, st', d, v, 1, f, perm)
    ensures UntouchedBut(st, st', d)
  {
  }

  lemma UserHalfVacant(st: Vm, d: nat, data: nat)
    requires 0x8_0100 < data < 0x8_E000 && KernelMapped(st, d, data, 4)
    ensures Vacant(st, d, 0, UPAGES)
  {
    hide Pte, Tab;
    forall u: nat | u < UPAGES
      ensures !Present(Pte(st, d, u))
    {
      assert Pte(st, d, u) == KernelUpTo(data, 4, u);
      KernelOnly(data, 4, u);
    }
  }

  /** Space nd holds, in frames that were free, copies of the first n pages of d, and the kernel half. */
  ghost predicate Copied(st: Vm, st': Vm, d: nat, nd: nat, n: nat, data: nat)
    requires AllPresent(st, d, n) && 0x8_0100 < data < 0x8_E000
  {
    && (forall u: nat | u < n :: NewPage(st, st', nd, u, Want(st.mem[PageFrame(st, d, u)], Pte(st, d, u) % PGSIZE)))
    && (forall u: nat | n <= u < NPAGES :: Pte(st', nd, u) == KernelEntry(data, u))
    && UntouchedBut(st, st', nd)
  }

  lemma CopiedNow(st: Vm, st1: Vm, st': Vm, d: nat, nd: nat, n: nat, data: nat)
    requires AllPresent(st, d, n) && 0x8_0100 < data < 0x8_E000 && KernelMapped(st1, nd, data, 4)
    requires Grown(st1, st', nd, 0, Copies(st, d, n)) && st1.free <= st.free && UntouchedBut(st, st', nd)
    ensures Copied(st, st', d, nd, n, data)
  {
    hide Pte, Tab;
    var want := Copies(st, d, n);
    forall u: nat | u < n
      ensures NewPage(st, st', nd, u, Want(st.mem[PageFrame(st, d, u)], Pte(st, d, u) % PGSIZE))
    {
      assert NewAt(st1, st', nd, 0, want, u);
      assert want[u] == Want(st.mem[PageFrame(st, d, u)], Pte(st, d, u) % PGSIZE);
    }
    forall u: nat | n <= u < NPAGES
      ensures Pte(st', nd, u) == KernelEntry(data, u)
    {
      assert Pte(st', nd, u) == Pte(st1, nd, u) == KernelUpTo(data, 4, u);
      KernelWhole(data, u);
    }
  }

  /** As many frames as pages: no frame is mapped twice. */
  lemma {:induction false} FramesCount(ph: Phys, st: Vm, d: nat, lo: nat, hi: nat)
    requires Inv(ph, st) && lo <= hi <= UPAGES && forall v: nat | lo <= v < hi :: PageFrame(st, d, v) != 0
    ensures |FramesBetween(st, d, lo, hi)| == hi - lo
  {
    hide Inv, PageFrame;
    if lo == hi {
      assert FramesBetween(st, d, lo, hi) == {};
    } else {
      var n := hi - 1;
      FramesCount(ph, st, d, lo, n);
      var f := PageFrame(st, d, n);
      assert FramesBetween(st, d, lo, hi) == FramesBetween(st, d, lo, n) + {f};
      assert f !in FramesBetween(st, d, lo, n) by {
        forall v: nat | lo <= v < n
          ensures PageFrame(st, d, v) != f
        {
          TwoPages(ph, st, d, v, n);
        }
      }
    }
  }

  lemma TwoPages(ph: Phys, st: Vm, d: nat, v: nat, w: nat)
    requires Inv(ph, st) && v < w < UPAGES && PageFrame(st, d, v) != 0
    ensures PageFrame(st, d, v) != PageFrame(st, d, w)
  {
    hide Inv;
    UserApart(ph, st, d, v, User(d, w));
  }

  /** What freevm leaves of a copy that did not get further than page p: one frame for each page from MIN_ADDR on. */
  lemma CopyLeft(ph: Phys, st1: Vm, st2: Vm, nd: nat, want: seq<Want>)
    requires Inv(ph, st2) && Grown(st1, st2, nd, 0, want) && Vacant(st2, nd, |want|, UPAGES)
    ensures UserFrames(st2, nd, MINPAGE) <= st1.free
    ensures |UserFrames(st2, nd, MINPAGE)| == if |want| <= MINPAGE then 0 else |want| - MINPAGE
  {
    hide Pte, Tab, Inv;
    var n := |want|;
    assert n <= UPAGES && forall v: nat | n <= v < UPAGES :: PageFrame(st2, nd, v) == 0;
    forall v: nat | v < n
      ensures PageFrame(st2, nd, v) != 0 && PageFrame(st2, nd, v) in st1.free
    {
      assert NewAt(st1, st2, nd, 0, want, v);
    }
    hide PageFrame, Grown, Vacant;
    if n <= MINPAGE {
      assert UserFrames(st2, nd, MINPAGE) == {};
    } else {
      assert UserFrames(st2, nd, MINPAGE) == FramesBetween(st2, nd, MINPAGE, n);
      FramesCount(ph, st2, nd, MINPAGE, n);
    }
  }
}
