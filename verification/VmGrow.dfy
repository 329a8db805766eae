/**
  Growing an address space page by page, as allocuvm and copyuvm do, undoing a
  growth that failed, and where the frames are afterwards.
 */
module VmGrow {
  import opened Common
  import opened VmSpec
  import opened VmChange

  /** What a new page holds, and the flags of its entry. */
  datatype Want = Want(page: Page, flags: nat)

  function Flags(perm: nat): nat {
    if perm % 2 == 1 then perm else perm + 1
  }

  /** Page u of d maps a frame that was free, with the wanted contents and flags. */
  ghost predicate NewPage(st: Vm, st': Vm, d: nat, u: nat, w: Want)
    requires u < NPAGES
  {
    var f := PageFrame(st', d, u);
    Present(Pte(st', d, u)) && Pte(st', d, u) % PGSIZE == w.flags && f in st.free && 0 < f < |st'.mem| &&
      st'.mem[f] == w.page
  }

  ghost predicate NewPages(st: Vm, st': Vm, d: nat, lo: nat, want: seq<Want>) {
    lo + |want| <= UPAGES && forall i: nat | i < |want| :: NewAt(st, st', d, lo, want, i)
  }

  ghost predicate NewAt(st: Vm, st': Vm, d: nat, lo: nat, want: seq<Want>, i: nat)
    requires lo + |want| <= UPAGES && i < |want|
  {
    NewPage(st, st', d, lo + i, want[i])
  }

  /** Pages lo, lo+1, .. are new, as wanted; every other page of every space is as it was. */
  ghost predicate Grown(st: Vm, st': Vm, d: nat, lo: nat, want: seq<Want>) {
    && Vacant(st, d, lo, lo + |want|) && NewPages(st, st', d, lo, want)
    && (forall u: nat | u < NPAGES && !(lo <= u < lo + |want|) :: Pte(st', d, u) == Pte(st, d, u))
    && SameMemory(st, st', d) && UntouchedBut(st, st', d) && TabsKept(st, st', d) && st'.free <= st.free
  }

  /** n zeroed pages, writable by the user. */
  ghost function ZeroPages(n: nat): (want: seq<Want>)
    ensures |want| == n && (n > 0 ==> want == ZeroPages(n - 1) + [Want(ZeroPage(), PTE_P + PTE_W + PTE_U)])
  {
    seq(n, _ => Want(ZeroPage(), PTE_P + PTE_W + PTE_U))
  }

  lemma GrownNone(st: Vm, d: nat, lo: nat)
    requires lo <= UPAGES
    ensures Grown(st, st, d, lo, [])
  {
    hide Pte, Tab;
    NothingMoved(st, d);
  }

  // ------------------------------------------------- frames in one's hands

  lemma AllocatedUntouched(st: Vm, f: nat)
    ensures AllUntouched(st, Allocated(st, f))
  {
    SameFlat(st, Allocated(st, f));
    hide Pte, Tab;
  }

  lemma WroteUntouched(ph: Phys, st: Vm, f: nat, page: Page)
    requires Inv(ph, st) && f in st.outside
    ensures f < |st.mem| && Inv(ph, Wrote(st, f, page)) && AllUntouched(st, Wrote(st, f, page))
  {
    hide Inv, Pte, Tab;
    WriteOutside(ph, st, f, page);
    WriteKeepsFlat(ph, st, f, page, Wrote(st, f, page));
  }

  lemma AllTrans(st: Vm, st1: Vm, st2: Vm)
    requires AllUntouched(st, st1) && AllUntouched(st1, st2)
    ensures AllUntouched(st, st2)
  {
    hide SameSpace, Tab;
    forall e: nat
      ensures Untouched(st, st2, e)
    {
      assert Untouched(st, st1, e) && Untouched(st1, st2, e);
      SameTrans(st, st1, st2, e);
    }
  }

  // --------------------------------------------------------- one page more

  /** What does not concern the frames of d leaves its growth as it is. */
  lemma GrownUntouched(st: Vm, st1: Vm, st2: Vm, d: nat, lo: nat, want: seq<Want>)
    requires Grown(st, st1, d, lo, want) && AllUntouched(st1, st2) && st2.free <= st1.free && st2.spaces == st1.spaces
    ensures Grown(st, st2, d, lo, want)
  {
    hide Pte, Tab;
    assert Untouched(st1, st2, d);
    UntouchedTrans(st, st1, st2, d);
    forall i: nat | i < |want|
      ensures NewAt(st, st2, d, lo, want, i)
    {
      assert NewAt(st, st1, d, lo, want, i);
      var u := lo + i;
      assert Pte(st2, d, u) == Pte(st1, d, u) && PageFrame(st2, d, u) == PageFrame(st1, d, u);
    }
    GrownMemory(st, st1, st2, d, lo, want);
  }

  /** Pages that were mapped before the growth keep their contents. */
  lemma GrownMemory(st: Vm, st1: Vm, st2: Vm, d: nat, lo: nat, want: seq<Want>)
    requires Grown(st, st1, d, lo, want) && SameMemory(st1, st2, d)
    ensures SameMemory(st, st2, d)
  {
    hide Pte, Tab;
    forall u: nat | u < UPAGES && 0 < PageFrame(st, d, u) < |st.mem|
      ensures st2.mem[PageFrame(st, d, u)] == st.mem[PageFrame(st, d, u)]
    {
      assert PageFrame(st1, d, u) == PageFrame(st, d, u);
    }
  }

  /** A free frame f is filled and mapped at the next page. */
  lemma GrowStep(ph: Phys, st: Vm, st2: Vm, st3: Vm, d: nat, lo: nat, want: seq<Want>, f: nat, page: Page, perm: nat)
    requires perm < PGSIZE && 0 < f < NPAGES && f in st.free && lo + |want| < UPAGES
    requires Grown(st, st2, d, lo, want) && !Present(Pte(st, d, lo + |want|))
    requires f in st2.outside && f < |st2.mem| && st2.mem[f] == page
    requires Mapped(st2, st3, d, lo + |want|, 1, f, perm)
    ensures Grown(st, st3, d, lo, want + [Want(page, Flags(perm))])
  {
    hide Pte, Tab;
    var want', p := want + [Want(page, Flags(perm))], lo + |want|;
    UntouchedTrans(st, st2, st3, d);
    GrownMemory(st, st2, st3, d, lo, want);
    forall i: nat | i < |want'|
      ensures NewAt(st, st3, d, lo, want', i)
    {
      var u := lo + i;
      if i < |want| {
        assert NewAt(st, st2, d, lo, want, i);
        assert Pte(st3, d, u) == Pte(st2, d, u) && PageFrame(st3, d, u) == PageFrame(st2, d, u);
      } else {
        assert Pte(st3, d, u) == Entry(f, perm);
      }
    }
  }

  lemma NextVacant(st: Vm, st': Vm, d: nat, lo: nat, want: seq<Want>, hi: nat)
    requires Grown(st, st', d, lo, want) && lo + |want| < hi <= UPAGES && Vacant(st, d, lo, hi)
    ensures !Present(Pte(st, d, lo + |want|)) && !Present(Pte(st', d, lo + |want|))
  {
    hide Pte, Tab;
  }

  /** kalloc, the contents, mappages. */
  lemma GrowNext(ph: Phys, st: Vm, st1: Vm, st2: Vm, st3: Vm, d: nat, lo: nat, want: seq<Want>, f: nat, page: Page,
      perm: nat)
    requires perm < PGSIZE && 0 < f < NPAGES && f in st1.free && f !in st1.outside && lo + |want| < UPAGES
    requires f < |st1.mem|
    requires Grown(st, st1, d, lo, want) && !Present(Pte(st, d, lo + |want|))
    requires st2 == Wrote(Allocated(st1, f), f, page) && AllUntouched(st1, st2)
    requires Mapped(st2, st3, d, lo + |want|, 1, f, perm)
    ensures Grown(st, st3, d, lo, want + [Want(page, Flags(perm))])
    ensures st3.outside == st1.outside && st3.spaces == st1.spaces
  {
    GrowFrom(st, st1, d, lo, want, f);
    GrownUntouched(st, st1, st2, d, lo, want);
    GrowStep(ph, st, st2, st3, d, lo, want, f, page, perm);
    HandedOne(lo + |want|, f);
    hide Grown, Pte, Tab;
    assert st3.outside == st1.outside;
  }

  lemma GrowFrom(st: Vm, st1: Vm, d: nat, lo: nat, want: seq<Want>, f: nat)
    requires Grown(st, st1, d, lo, want) && f in st1.free
    ensures f in st.free
  {
  }

  // ------------------------------------------------------ a growth undone

  /** Space d maps what it did, with the same contents; it may have more (empty) tables. */
  ghost predicate Restored(st: Vm, st': Vm, d: nat) {
    && (forall u: nat | u < NPAGES && Present(Pte(st, d, u)) :: Pte(st', d, u) == Pte(st, d, u))
    && (forall u: nat | u < NPAGES && !Present(Pte(st, d, u)) :: !Present(Pte(st', d, u)))
    && SameMemory(st, st', d) && UntouchedBut(st, st', d) && TabsKept(st, st', d)
  }

  lemma GrownCleared(st: Vm, st1: Vm, st2: Vm, d: nat, lo: nat, want: seq<Want>, hi: nat)
    requires Grown(st, st1, d, lo, want) && lo + |want| <= hi && Vacant(st, d, lo, hi) && Cleared(st1, st2, d, lo, hi)
    ensures Restored(st, st2, d)
  {
    hide Pte, Tab;
    UntouchedTrans(st, st1, st2, d);
    forall u: nat | u < UPAGES && 0 < PageFrame(st, d, u) < |st.mem|
      ensures st2.mem[PageFrame(st, d, u)] == st.mem[PageFrame(st, d, u)]
    {
      assert PageFrame(st1, d, u) == PageFrame(st, d, u);
    }
  }

  lemma RestoredUntouched(st: Vm, st1: Vm, st2: Vm, d: nat)
    requires Restored(st, st1, d) && AllUntouched(st1, st2) && st2.spaces == st1.spaces
    ensures Restored(st, st2, d)
  {
    hide Pte, Tab;
    assert Untouched(st1, st2, d);
    UntouchedTrans(st, st1, st2, d);
    forall u: nat | u < UPAGES && 0 < PageFrame(st, d, u) < |st.mem|
      ensures st2.mem[PageFrame(st, d, u)] == st.mem[PageFrame(st, d, u)]
    {
      assert PageFrame(st1, d, u) == PageFrame(st, d, u);
    }
  }

  // ------------------------------------------------- where the frames went

  /** Every use other than being free is still there. */
  ghost predicate UsesKept(st: Vm, st': Vm) {
    forall u | IsUse(u) && !u.Free? && Holds(st, u) != 0 :: Holds(st', u) == Holds(st, u)
  }

  /** Whatever is newly used was free, and no other frame stopped being free. */
  lemma FreeShrinks(ph: Phys, st: Vm, st': Vm, taken: set<nat>)
    requires Inv(ph, st) && Inv(ph, st') && st.outside <= st'.outside <= st.outside + taken && UsesKept(st, st')
    requires forall u | IsUse(u) && !u.Free? && Holds(st', u) != Holds(st, u) :: Holds(st', u) in taken
    requires taken !! st'.free && 0 !in st.free && 0 !in st'.free
    ensures st'.free == st.free - taken
  {
    forall f | f in st'.free
      ensures f in st.free
    {
      assert f !in st'.outside by { assert Holds(st', Free(f)) == f; }
      StillFree(ph, st', st, f);
    }
    forall f | f in st.free && f !in taken
      ensures f in st'.free
    {
      assert f !in st.outside by { assert Holds(st, Free(f)) == f; }
      BecameUsed(ph, st, st', taken, f);
    }
  }

  lemma StillFree(ph: Phys, st': Vm, st: Vm, f: nat)
    requires Inv(ph, st) && Inv(ph, st') && UsesKept(st, st') && f in st'.free && f !in st.outside && f != 0
    ensures f in st.free
  {
    hide Tab, Pte;
    assert Holds(st', Free(f)) == f;
    assert Used(st, f);
    var u :| IsUse(u) && Holds(st, u) == f;
    if !u.Free? { UsesDiffer(ph, st', Free(f), u); }
  }

  lemma BecameUsed(ph: Phys, st: Vm, st': Vm, taken: set<nat>, f: nat)
    requires Inv(ph, st) && Inv(ph, st') && f in st.free && f !in st'.outside && f !in taken && f != 0
    requires forall u | IsUse(u) && !u.Free? && Holds(st', u) != Holds(st, u) :: Holds(st', u) in taken
    ensures f in st'.free
  {
    hide Tab, Pte;
    assert Holds(st, Free(f)) == f;
    assert Used(st', f);
    var u :| IsUse(u) && Holds(st', u) == f;
    if !u.Free? { UsesDiffer(ph, st, Free(f), u); }
  }

  /** For which uses the two states may differ: those of space d. */
  lemma OtherUses(st: Vm, st': Vm, d: nat, u: Use)
    requires UntouchedBut(st, st', d) && st'.spaces == st.spaces && IsUse(u) && !u.Free? && !(u.Table? && u.d == d)
    requires !(u.User? && u.d == d)
    ensures Holds(st', u) == Holds(st, u)
  {
    hide Tab, Pte;
    match u
    case Dir(e) =>
    case Table(e, x) => assert Untouched(st, st', e);
    case User(e, v) => assert Untouched(st, st', e);
  }

  /** Frames of tables and user pages of a space are not free. */
  lemma SpaceNotFree(ph: Phys, st: Vm, d: nat, lo: nat, hi: nat)
    requires Inv(ph, st)
    ensures TableFrames(st, d) + FramesBetween(st, d, lo, hi) !! st.free
  {
    hide Tab, Pte;
    forall f | f in TableFrames(st, d)
      ensures f !in st.free
    {
      var x: nat :| x < NENT && Tab(st, d, x) == f != 0;
      TableUse(ph, st, d, x);
    }
    forall f | f in FramesBetween(st, d, lo, hi)
      ensures f !in st.free
    {
      var v: nat :| v < UPAGES && PageFrame(st, d, v) == f != 0;
      UserApart(ph, st, d, v, Free(f));
    }
  }

  lemma GrownFree(ph: Phys, st: Vm, st': Vm, d: nat, lo: nat, want: seq<Want>)
    requires Inv(ph, st) && Inv(ph, st') && Grown(st, st', d, lo, want) && st'.outside == st.outside
    requires 0 !in st.free && 0 !in st'.free
    ensures st'.free == st.free - (TableFrames(st', d) + FramesBetween(st', d, lo, lo + |want|))
  {
    hide Inv, Pte, Tab;
    var taken := TableFrames(st', d) + FramesBetween(st', d, lo, lo + |want|);
    forall u | IsUse(u) && !u.Free?
      ensures Holds(st, u) != 0 ==> Holds(st', u) == Holds(st, u)
      ensures Holds(st', u) != Holds(st, u) ==> Holds(st', u) in taken
    {
      match u
      case Table(e, x) => if e != d { OtherUses(st, st', d, u); }
      case User(e, v) =>
        if e != d {
          OtherUses(st, st', d, u);
        } else if lo <= v < lo + |want| {
          assert NewAt(st, st', d, lo, want, v - lo);
        }
      case Dir(e) => OtherUses(st, st', d, u);
    }
    SpaceNotFree(ph, st', d, lo, lo + |want|);
    FreeShrinks(ph, st, st', taken);
  }

  lemma RestoredFree(ph: Phys, st: Vm, st': Vm, d: nat)
    requires Inv(ph, st) && Inv(ph, st') && Restored(st, st', d) && st'.outside == st.outside
    requires 0 !in st.free && 0 !in st'.free
    ensures st'.free == st.free - TableFrames(st', d)
  {
    hide Inv, Pte, Tab;
    forall u | IsUse(u) && !u.Free?
      ensures Holds(st, u) != 0 ==> Holds(st', u) == Holds(st, u)
      ensures Holds(st', u) != Holds(st, u) ==> Holds(st', u) in TableFrames(st', d)
    {
      match u
      case Table(e, x) => if e != d { OtherUses(st, st', d, u); }
      case User(e, v) => if e != d { OtherUses(st, st', d, u); }
      case Dir(e) => OtherUses(st, st', d, u);
    }
    SpaceNotFree(ph, st', d, 0, 0);
    FreeShrinks(ph, st, st', TableFrames(st', d));
  }

  /** With the same spaces, the same frames are free, but for those that somebody holds in addition. */
  lemma SameFree(ph: Phys, st: Vm, st': Vm, left: set<nat>)
    requires Inv(ph, st) && Inv(ph, st') && AllUntouched(st, st') && st'.spaces == st.spaces
    requires st'.outside == st.outside + left && 0 !in st.free && 0 !in st'.free
    ensures st'.free == st.free - left
  {
    forall f | f in st'.free
      ensures f !in left
    {
      assert Holds(st', Free(f)) == f;
    }
    hide Inv, Pte, Tab;
    forall u | IsUse(u) && !u.Free?
      ensures Holds(st', u) == Holds(st, u)
    {
      var d := if u.Dir? then u.d else u.d + 1;
      OtherUses(st, st', d, u);
    }
    FreeShrinks(ph, st, st', left);
  }

  // ------------------------------------------------------- for the processor

  /** Every byte of the new pages is the user's to read and write, and zero, in a frame that was free. */
  lemma GrownIsUsable(ph: Phys, st: Vm, st': Vm, d: nat, lo: nat, n: nat, va: Word)
    requires Inv(ph, st') && d in st'.spaces && Grown(st, st', d, lo, ZeroPages(n)) && lo <= va / PGSIZE < lo + n
    ensures d < |st'.mem| && Translated(st'.mem, d, va).Some?
    ensures var a := Translated(st'.mem, d, va).value;
      && a.writable && a.user && a.addr % PGSIZE == va % PGSIZE
      && a.addr / PGSIZE in st.free && a.addr / PGSIZE < |st'.mem| && st'.mem[a.addr / PGSIZE] == ZeroPage()
  {
    FlatIsTranslated(ph, st', d, va);
    hide Inv, Pte, Tab, Translated, ZeroPage;
    var v := va / PGSIZE;
    assert NewAt(st, st', d, lo, ZeroPages(n), v - lo);
    var w := Pte(st', d, v);
    LowBits(FrameOf(w), w % PGSIZE);
    OpenRights(w);
    Parts(FrameOf(w), va % PGSIZE);
  }
}
