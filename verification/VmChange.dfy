/**
  What a call changes in an address space: which pages become mapped or
  unmapped, what keeps its contents, and that no other space is touched.
 */
module VmChange {
  import opened Common
  import opened VmSpec

  /** Other spaces keep entries, contents and tables. */
  ghost predicate Untouched(st: Vm, st': Vm, e: nat) {
    SameSpace(st, st', e) && forall x: nat | x < NENT :: Tab(st', e, x) == Tab(st, e, x)
  }

  ghost predicate SameAll(st: Vm, st': Vm) {
    forall e: nat :: SameSpace(st, st', e)
  }

  ghost predicate AllUntouched(st: Vm, st': Vm) {
    forall e: nat :: Untouched(st, st', e)
  }

  ghost predicate UntouchedBut(st: Vm, st': Vm, d: nat) {
    forall e: nat | e != d :: Untouched(st, st', e)
  }

  lemma SameTrans(st: Vm, st1: Vm, st2: Vm, e: nat)
    requires SameSpace(st, st1, e) && SameSpace(st1, st2, e)
    ensures SameSpace(st, st2, e)
  {
    hide Pte;
    forall v: nat | v < UPAGES && 0 < PageFrame(st, e, v) < |st.mem|
      ensures st2.mem[PageFrame(st, e, v)] == st.mem[PageFrame(st, e, v)]
    {
      assert PageFrame(st1, e, v) == PageFrame(st, e, v);
    }
  }

  lemma SameAllTrans(st: Vm, st1: Vm, st2: Vm)
    requires SameAll(st, st1) && SameAll(st1, st2)
    ensures SameAll(st, st2)
  {
    hide SameSpace;
    forall e: nat
      ensures SameSpace(st, st2, e)
    {
      SameTrans(st, st1, st2, e);
    }
  }

  lemma UntouchedTrans(st: Vm, st1: Vm, st2: Vm, d: nat)
    requires UntouchedBut(st, st1, d) && UntouchedBut(st1, st2, d)
    ensures UntouchedBut(st, st2, d)
  {
    hide SameSpace, Tab;
    forall e: nat | e != d
      ensures Untouched(st, st2, e)
    {
      assert Untouched(st, st1, e) && Untouched(st1, st2, e);
      SameTrans(st, st1, st2, e);
    }
  }

  /** Tables are added, never taken away or exchanged. */
  ghost predicate TabsKept(st: Vm, st': Vm, d: nat) {
    && (forall x: nat | x < NENT && Tab(st, d, x) != 0 :: Tab(st', d, x) == Tab(st, d, x))
    && st'.spaces == st.spaces
  }

  /** The frames in the caller's hands are not written. */
  ghost predicate OutsideKept(st: Vm, st': Vm) {
    forall f | f in st.outside && f < |st.mem| :: f < |st'.mem| && st'.mem[f] == st.mem[f]
  }

  /** No page from lo to hi-1 is mapped. */
  ghost predicate Vacant(st: Vm, d: nat, lo: nat, hi: nat) {
    forall u: nat | lo <= u < hi && u < NPAGES :: !Present(Pte(st, d, u))
  }

  /** Pages first .. first+n-1 of space d now map frames pf, pf+1, ..; nothing else changed. */
  ghost predicate Mapped(st: Vm, st': Vm, d: nat, first: nat, n: nat, pf: nat, perm: nat)
    requires pf + n <= NPAGES && perm < PGSIZE
  {
    && (forall u: nat | u < NPAGES ::
        Pte(st', d, u) == if first <= u < first + n then Entry(pf + (u - first), perm) else Pte(st, d, u))
    && SameMemory(st, st', d)
    && UntouchedBut(st, st', d) && TabsKept(st, st', d) && OutsideKept(st, st')
    && st'.outside == st.outside - Handed(first, n, pf) && st'.free <= st.free
  }

  predicate BelowKernel(first: nat, pf: nat, f: nat) {
    first + (f - pf) < UPAGES
  }

  /** The frames that go to user pages when pages first .. first+n-1 map pf, pf+1, .. */
  ghost function Handed(first: nat, n: nat, pf: nat): set<nat> {
    set f: nat | pf <= f < pf + n && BelowKernel(first, pf, f)
  }

  lemma MappedNone(st: Vm, d: nat, first: nat, pf: nat, perm: nat)
    requires pf <= NPAGES && perm < PGSIZE
    ensures Mapped(st, st, d, first, 0, pf, perm)
  {
    hide Pte, Tab;
    NothingMoved(st, d);
  }

  lemma MappedMore(st: Vm, st1: Vm, st2: Vm, d: nat, first: nat, n: nat, pf: nat, perm: nat)
    requires pf + n < NPAGES && perm < PGSIZE && first + n < NPAGES && 0 !in st.outside
    requires Mapped(st, st1, d, first, n, pf, perm) && Mapped(st1, st2, d, first + n, 1, pf + n, perm)
    requires Vacant(st, d, first, first + n + 1)
    ensures Mapped(st, st2, d, first, n + 1, pf, perm)
  {
    hide Pte, Tab;
    UntouchedTrans(st, st1, st2, d);
    forall u: nat | u < UPAGES && 0 < PageFrame(st, d, u) < |st.mem|
      ensures st2.mem[PageFrame(st, d, u)] == st.mem[PageFrame(st, d, u)]
    {
      assert PageFrame(st1, d, u) == PageFrame(st, d, u);
    }
    HandedMore(first, n, pf);
    forall f | f in st.outside && f < |st.mem|
      ensures f < |st2.mem| && st2.mem[f] == st.mem[f]
    {
      assert st1.mem[f] == st.mem[f];
      if f in Handed(first, n, pf) {
        assert PageFrame(st1, d, first + (f - pf)) == f;
      }
    }
  }

  function Pages(va: nat, size: nat): nat
    requires 0 < size
  {
    (va + size - 1) / PGSIZE - va / PGSIZE + 1
  }

  lemma HandedOne(v: nat, f: nat)
    ensures Handed(v, 1, f) == if v < UPAGES then {f} else {}
  {
  }

  lemma HandedMore(first: nat, n: nat, pf: nat)
    ensures Handed(first, n + 1, pf) == Handed(first, n, pf) + Handed(first + n, 1, pf + n)
    ensures first + n < UPAGES ==> pf + n in Handed(first, n + 1, pf) && pf + n !in Handed(first, n, pf)
  {
  }

  lemma MappedAt(st: Vm, st': Vm, d: nat, first: nat, n: nat, pf: nat, perm: nat, u: nat)
    requires pf + n <= NPAGES && perm < PGSIZE && Mapped(st, st', d, first, n, pf, perm) && u < NPAGES
    ensures first <= u < first + n ==> Pte(st', d, u) == Entry(pf + (u - first), perm)
    ensures !(first <= u < first + n) ==> Pte(st', d, u) == Pte(st, d, u)
    ensures st'.outside == st.outside - Handed(first, n, pf) && st'.spaces == st.spaces
  {
  }

  lemma WalkedMapped(st: Vm, st1: Vm, d: nat, v: nat, f: nat, perm: nat)
    requires SameAll(st, st1) && UntouchedBut(st, st1, d) && f < NPAGES && perm < PGSIZE && v < NPAGES
    requires TabsKept(st, st1, d) && OutsideKept(st, st1) && st1.outside == st.outside && st1.free <= st.free
    ensures Mapped(st, st1, d, v, 0, f, perm) && Pte(st1, d, v) == Pte(st, d, v)
  {
    hide Pte, Tab;
    assert SameSpace(st, st1, d);
  }

  /** The state after the entry for page v is stored. */
  ghost function StoredIn(st: Vm, d: nat, v: nat, f: nat, perm: nat): Vm
    requires v < NPAGES && 0 < Tab(st, d, v / NENT) < |st.mem| && f < NPAGES && perm < PGSIZE
  {
    WithPte(st, d, v, Entry(f, perm)).(outside := if v < UPAGES then st.outside - {f} else st.outside)
  }

  lemma Stored(ph: Phys, st: Vm, d: nat, v: nat, f: nat, perm: nat)
    requires Inv(ph, st) && v < NPAGES && 0 < Tab(st, d, v / NENT) < |st.mem| && f < NPAGES && perm < PGSIZE
    requires !Present(Pte(st, d, v)) && (v < UPAGES ==> f in st.outside)
    ensures Inv(ph, StoredIn(st, d, v, f, perm))
    ensures Mapped(st, StoredIn(st, d, v, f, perm), d, v, 1, f, perm)
  {
    hide Inv, Tab, Pte;
    if v < UPAGES {
      MapUser(ph, st, d, v, f, perm);
    } else {
      MapKernel(ph, st, d, v, Entry(f, perm));
      assert WithPte(st, d, v, Entry(f, perm)).outside == st.outside;
    }
    StoredFlat(ph, st, d, v, f, perm);
    StoredOutside(ph, st, d, v, f, perm);
    HandedOne(v, f);
    hide StoredIn, SameMemory, Handed, OutsideKept;
  }

  lemma StoredFlat(ph: Phys, st: Vm, d: nat, v: nat, f: nat, perm: nat)
    requires Inv(ph, st) && v < NPAGES && 0 < Tab(st, d, v / NENT) < |st.mem| && f < NPAGES && perm < PGSIZE
    ensures var st' := StoredIn(st, d, v, f, perm);
      && (forall e, y: nat | y < NENT :: Tab(st', e, y) == Tab(st, e, y))
      && (forall e, u: nat | u < NPAGES :: Pte(st', e, u) == if e == d && u == v then Entry(f, perm) else Pte(st, e, u))
      && (forall e: nat :: SameMemory(st, st', e))
  {
    hide Inv, Tab, Pte;
    WithPteFlat(ph, st, d, v, Entry(f, perm));
    var st' := StoredIn(st, d, v, f, perm);
    SameFlat(WithPte(st, d, v, Entry(f, perm)), st');
    forall e: nat
      ensures SameMemory(st, st', e)
    {
      assert SameMemory(st, WithPte(st, d, v, Entry(f, perm)), e);
    }
  }

  lemma StoredOutside(ph: Phys, st: Vm, d: nat, v: nat, f: nat, perm: nat)
    requires Inv(ph, st) && v < NPAGES && 0 < Tab(st, d, v / NENT) < |st.mem| && f < NPAGES && perm < PGSIZE
    ensures var st' := StoredIn(st, d, v, f, perm);
      OutsideKept(st, st') && st'.free == st.free && st'.spaces == st.spaces &&
        st'.outside == if v < UPAGES then st.outside - {f} else st.outside
  {
    TableUse(ph, st, d, v / NENT);
  }

  lemma StoredState(st: Vm, st': Vm, d: nat, v: nat, f: nat, perm: nat)
    requires v < NPAGES && 0 < Tab(st, d, v / NENT) < |st.mem| && f < NPAGES && perm < PGSIZE
    requires var t := Tab(st, d, v / NENT); st'.mem == st.mem[t := st.mem[t][v % NENT := Entry(f, perm)]]
    requires st'.free == st.free && st'.spaces == st.spaces
    requires st'.outside == if v < UPAGES then st.outside - {f} else st.outside
    ensures st' == StoredIn(st, d, v, f, perm)
  {
  }

  lemma WalkedStored(st: Vm, st1: Vm, st2: Vm, d: nat, v: nat, f: nat, perm: nat)
    requires v < NPAGES && f < NPAGES && perm < PGSIZE && !Present(Pte(st, d, v)) && 0 !in st.outside
    requires Mapped(st, st1, d, v, 0, f, perm) && Mapped(st1, st2, d, v, 1, f, perm)
    ensures Mapped(st, st2, d, v, 1, f, perm)
  {
    MappedMore(st, st1, st2, d, v, 0, f, perm);
  }

  lemma NothingMoved(st: Vm, d: nat)
    ensures SameAll(st, st) && UntouchedBut(st, st, d)
  {
    hide Tab, Pte;
  }

  /** kalloc, memset and the store into the directory, together. */
  lemma WalkLinks(ph: Phys, st: Vm, f: nat, d: nat, x: nat)
    requires Inv(ph, st) && f in st.free && f != 0 && d in st.spaces && d != 0 && x < NENT && !Present(st.mem[d][x])
    ensures f < |st.mem| && d < |st.mem| && f < 0x10_0000 && f != d && f !in st.outside
    ensures var st1 := Allocated(st, f); Inv(ph, st1) && f in st1.outside
    ensures var st3 := Linked(Wrote(Allocated(st, f), f, ZeroPage()), d, x, f);
      && Inv(ph, st3) && Tab(st3, d, x) == f && st3.outside == st.outside && st3.free == st.free - {f} &&
          st3.spaces == st.spaces
      && SameAll(st, st3) && UntouchedBut(st, st3, d) && TabsKept(st, st3, d) && OutsideKept(st, st3)
  {
    hide Inv, SameSpace, Tab;
    InvSized(ph, st);
    AllocFrame(ph, st, f);
    var st1 := Allocated(st, f);
    DirUse(ph, st1, d);
    assert f < |st.mem| by { WriteOutside(ph, st1, f, ZeroPage()); }
    WriteOutside(ph, st1, f, ZeroPage());
    var st2 := Wrote(st1, f, ZeroPage());
    LinkTable(ph, st2, d, x, f);
    var st3 := Linked(st2, d, x, f);
    SameAllTrans(st, st1, st2);
    SameAllTrans(st, st2, st3);
    TabsWrote(ph, st, st1, f);
    NoTable(st, d, x);
    assert st3.outside == st.outside;
  }

  lemma TabsWrote(ph: Phys, st: Vm, st1: Vm, f: nat)
    requires Inv(ph, st1) && st1 == Allocated(st, f) && f in st1.outside
    ensures f < |st1.mem|
    ensures forall e, y: nat | y < NENT :: Tab(Wrote(st1, f, ZeroPage()), e, y) == Tab(st, e, y)
  {
    OutsideNotUsed(ph, st1, f, Dir(f));
  }

  lemma InvSized(ph: Phys, st: Vm)
    requires Inv(ph, st)
    ensures Sized(ph, st) && 0 !in st.outside
  {
  }

  // ------------------------------------------------------ pages given up

  /** The frames of the user pages lo .. hi-1 of space d. */
  ghost function FramesBetween(st: Vm, d: nat, lo: nat, hi: nat): set<nat> {
    set v: nat | lo <= v < hi && v < UPAGES && PageFrame(st, d, v) != 0 :: PageFrame(st, d, v)
  }

  /** Contents of the user pages of d, except those from lo to hi-1. */
  ghost predicate KeptMemory(st: Vm, st': Vm, d: nat, lo: nat, hi: nat) {
    |st'.mem| == |st.mem| && forall v: nat | v < UPAGES && !(lo <= v < hi) && 0 < PageFrame(st, d, v) < |st.mem| ::
      st'.mem[PageFrame(st, d, v)] == st.mem[PageFrame(st, d, v)]
  }

  ghost predicate EntriesCleared(st: Vm, st': Vm, d: nat, lo: nat, hi: nat) {
    forall u: nat | u < NPAGES :: Pte(st', d, u) == if lo <= u < hi && Present(Pte(st, d, u)) then 0 else Pte(st, d, u)
  }

  /** Pages lo .. hi-1 of d are unmapped and exactly their frames became free. */
  ghost predicate Cleared(st: Vm, st': Vm, d: nat, lo: nat, hi: nat) {
    && EntriesCleared(st, st', d, lo, hi)
    && KeptMemory(st, st', d, lo, hi)
    && UntouchedBut(st, st', d)
    && (forall x: nat | x < NENT :: Tab(st', d, x) == Tab(st, d, x))
    && st'.free == st.free + FramesBetween(st, d, lo, hi) && st'.outside == st.outside && st'.spaces == st.spaces
  }

  lemma NoFramesBetween(st: Vm, d: nat, lo: nat, hi: nat)
    requires Vacant(st, d, lo, hi)
    ensures FramesBetween(st, d, lo, hi) == {}
  {
    hide Pte;
    forall v: nat | lo <= v < hi && v < UPAGES
      ensures PageFrame(st, d, v) == 0
    {
      assert !Present(Pte(st, d, v));
    }
  }

  lemma ClearedNone(st: Vm, d: nat, lo: nat, hi: nat)
    requires Vacant(st, d, lo, hi)
    ensures Cleared(st, st, d, lo, hi)
  {
    NoFramesBetween(st, d, lo, hi);
    hide Pte, Tab, FramesBetween;
    NothingMoved(st, d);
  }

  lemma ClearedMore(st: Vm, st1: Vm, st2: Vm, d: nat, lo: nat, mid: nat, hi: nat)
    requires lo <= mid <= hi && Cleared(st, st1, d, lo, mid) && Cleared(st1, st2, d, mid, hi)
    ensures Cleared(st, st2, d, lo, hi)
  {
    hide Pte, Tab;
    UntouchedTrans(st, st1, st2, d);
    forall v: nat | v < UPAGES && !(lo <= v < mid)
      ensures PageFrame(st1, d, v) == PageFrame(st, d, v)
    {
    }
    assert FramesBetween(st, d, lo, hi) == FramesBetween(st, d, lo, mid) + FramesBetween(st, d, mid, hi);
    assert FramesBetween(st1, d, mid, hi) == FramesBetween(st, d, mid, hi);
  }

  /** A table that is not there maps none of its pages. */
  lemma NoTableNoPages(st: Vm, d: nat, v: nat)
    requires v < NPAGES && Tab(st, d, v / NENT) == 0
    ensures Vacant(st, d, v, (v / NENT + 1) * NENT)
  {
    hide Tab;
    forall u: nat | v <= u < (v / NENT + 1) * NENT && u < NPAGES
      ensures Pte(st, d, u) == 0
    {
      assert u / NENT == v / NENT;
    }
  }

  /** The entry is cleared and its frame is in the caller's hands. */
  ghost function UnmappedIn(st: Vm, d: nat, v: nat): Vm
    requires v < NPAGES && 0 < Tab(st, d, v / NENT) < |st.mem|
  {
    WithPte(st, d, v, 0).(outside := st.outside + {FrameOf(Pte(st, d, v))})
  }

  lemma UnmapPage(ph: Phys, st: Vm, d: nat, v: nat)
    requires Inv(ph, st) && v < UPAGES && 0 < Tab(st, d, v / NENT) < |st.mem| && Present(Pte(st, d, v))
    ensures Inv(ph, UnmappedIn(st, d, v))
    ensures var st' := UnmappedIn(st, d, v);
      && EntriesCleared(st, st', d, v, v + 1)
      && (forall e: nat :: SameMemory(st, st', e))
      && UntouchedBut(st, st', d) && (forall x: nat | x < NENT :: Tab(st', d, x) == Tab(st, d, x))
      && st'.free == st.free && st'.spaces == st.spaces
    ensures FrameOf(Pte(st, d, v)) == PageFrame(st, d, v) != 0 && PageFrame(st, d, v) !in st.outside
    ensures PageFrame(st, d, v) < |st.mem|
  {
    hide Inv;
    InvSized(ph, st);
    Unmap(ph, st, d, v);
    WithPteFlat(ph, st, d, v, 0);
    var st' := UnmappedIn(st, d, v);
    SameFlat(WithPte(st, d, v, 0), st');
    UserApart(ph, st, d, v, Free(0));
    hide Tab, Pte;
    forall e: nat
      ensures SameMemory(st, st', e)
    {
      assert SameMemory(st, WithPte(st, d, v, 0), e);
    }
  }

  lemma DropPage(ph: Phys, st: Vm, d: nat, v: nat, st2: Vm)
    requires Inv(ph, st) && v < UPAGES && 0 < Tab(st, d, v / NENT) < |st.mem| && Present(Pte(st, d, v))
    requires var f := FrameOf(Pte(st, d, v));
      f < |st.mem| && f < |st2.mem| && st2 == Freed(UnmappedIn(st, d, v), f, st2.mem[f])
    requires AllUntouched(UnmappedIn(st, d, v), st2)
    ensures Cleared(st, st2, d, v, v + 1)
  {
    hide Inv;
    var st1 := UnmappedIn(st, d, v);
    UnmapPage(ph, st, d, v);
    hide Tab, Pte, UnmappedIn;
    assert Untouched(st1, st2, d) && SameMemory(st, st1, d);
    UntouchedTrans(st, st1, st2, d);
    forall u: nat | u < UPAGES && u != v && 0 < PageFrame(st, d, u) < |st.mem|
      ensures st2.mem[PageFrame(st, d, u)] == st.mem[PageFrame(st, d, u)]
    {
      assert PageFrame(st1, d, u) == PageFrame(st, d, u);
    }
    OnlyFrame(st, d, v);
  }

  lemma OnlyFrame(st: Vm, d: nat, v: nat)
    requires v < UPAGES
    ensures FramesBetween(st, d, v, v + 1) == if PageFrame(st, d, v) == 0 then {} else {PageFrame(st, d, v)}
  {
    hide Pte;
  }
}
