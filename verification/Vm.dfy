/**
  kalloc.c and vm.c as they are written: a free list threaded through the free
  pages themselves, page directories and tables in ordinary frames, and loops
  that step page by page.  Addresses are page numbers where the source only
  uses page-aligned ones.
 */
module Vm {
  import opened Common
  import opened VmSpec
  import opened VmChange
  import opened VmGrow
  import opened VmSpace
  import opened VmBytes

  const KERNBASE := 0x8000_0000

  /** The kernel's pointer to a frame, as stored in a free page. */
  function PtrTo(f: nat): Word
    requires f < 0xE000
  {
    if f == 0 then 0 else f * PGSIZE + KERNBASE
  }

  function NextIn(page: Page): nat {
    if page[0] < KERNBASE then 0 else (page[0] - KERNBASE) / PGSIZE
  }

  /** memset(v, 1, PGSIZE), then r->next. */
  function FreePage(next: nat): Page
    requires next < 0xE000
  {
    seq(NENT, i => if i == 0 then PtrTo(next) else 0x0101_0101)
  }

  ghost function SetOf(list: seq<nat>): set<nat> {
    set f | f in list
  }

  predicate Between(a: nat, f: nat, b: nat) {
    a <= f < b
  }

  ghost function Run(a: nat, b: nat): set<nat> {
    set f: nat | f < b && Between(a, f, b)
  }

  lemma NothingUsed(ph: Phys, mem: seq<Page>)
    requires ph.Valid() && |mem| == ph.hi
    ensures Inv(ph, VmSpec.Vm(mem, {}, {}, Run(ph.lo, ph.hi)))
  {
    var st := VmSpec.Vm(mem, {}, {}, Run(ph.lo, ph.hi));
    forall u | IsUse(u)
      ensures Holds(st, u) == 0
    {
    }
  }

  ghost predicate ListLink(mem: seq<Page>, list: seq<nat>, i: nat)
    requires i < |list|
  {
    0 < list[i] < |mem| && NextIn(mem[list[i]]) == if i + 1 < |list| then list[i + 1] else 0
  }

  /** The free list from `head` runs through exactly `list`. */
  ghost predicate FreeList(mem: seq<Page>, head: nat, list: seq<nat>) {
    && head == (if list == [] then 0 else list[0])
    && (forall i: nat | i < |list| :: ListLink(mem, list, i))
    && (forall i, j | 0 <= i < j < |list| :: list[i] != list[j])
  }

  lemma ListFrame(mem: seq<Page>, head: nat, list: seq<nat>, mem': seq<Page>)
    requires FreeList(mem, head, list) && |mem'| == |mem|
    requires forall f: nat | f in list && f < |mem| :: mem'[f] == mem[f]
    ensures FreeList(mem', head, list)
  {
    forall i: nat | i < |list|
      ensures ListLink(mem', list, i)
    {
      assert ListLink(mem, list, i);
    }
  }

  lemma ListPop(mem: seq<Page>, head: nat, list: seq<nat>)
    requires FreeList(mem, head, list) && list != []
    ensures 0 < head < |mem| && FreeList(mem, NextIn(mem[head]), list[1..])
    ensures SetOf(list[1..]) == SetOf(list) - {head} && head in SetOf(list)
  {
    assert ListLink(mem, list, 0);
    var rest := list[1..];
    forall i: nat | i < |rest|
      ensures ListLink(mem, rest, i)
    {
      assert ListLink(mem, list, i + 1);
    }
  }

  lemma ListPush(mem: seq<Page>, head: nat, list: seq<nat>, f: nat)
    requires FreeList(mem, head, list) && 0 < f < |mem| <= 0xE000 && f !in list
    ensures head < 0xE000 && FreeList(mem[f := FreePage(head)], f, [f] + list)
    ensures SetOf([f] + list) == SetOf(list) + {f}
  {
    if list != [] { assert ListLink(mem, list, 0); }
    var mem', list' := mem[f := FreePage(head)], [f] + list;
    forall i: nat | i < |list'|
      ensures ListLink(mem', list', i)
    {
      if i > 0 { assert ListLink(mem, list, i - 1); }
    }
  }

  class Kernel {
    const ph: Phys
    var mem: seq<Page>
    var freelist: nat
    ghost var list: seq<nat>
    ghost var spaces: set<nat>
    ghost var outside: set<nat>

    ghost function State(): VmSpec.Vm
      reads this
    {
      VmSpec.Vm(mem, SetOf(list), spaces, outside)
    }

    ghost predicate Valid()
      reads this
    {
      Inv(ph, State()) && FreeList(mem, freelist, list) && 0 !in spaces
    }

    /** Before kinit: no page is free, and there is no address space. */
    constructor (ph0: Phys, mem0: seq<Page>)
      requires ph0.Valid() && |mem0| == ph0.hi
      ensures Valid() && ph == ph0 && mem == mem0 && State() == VmSpec.Vm(mem0, {}, {}, Run(ph0.lo, ph0.hi))
    {
      ph, mem, freelist := ph0, mem0, 0;
      list, spaces, outside := [], {}, Run(ph0.lo, ph0.hi);
      new;
      assert State() == VmSpec.Vm(mem0, {}, {}, Run(ph0.lo, ph0.hi));
      NothingUsed(ph, mem);
    }

    /** freerange(): page a up to page b-1 */
    method FreeRange(a: nat, b: nat)
      requires Valid() && a <= b && Run(a, b) <= outside
      modifies this`freelist, this`list, this`outside, this`mem
      ensures Valid() && State().free == old(State()).free + Run(a, b) && outside == old(outside) - Run(a, b)
      ensures AllUntouched(old(State()), State())
    {
      hide Inv, FreeList, Untouched;
      ghost var st := State();
      NoMove(st);
      for p := a to b
        invariant Valid() && State().free == st.free + Run(a, p) && outside == old(outside) - Run(a, p)
        invariant AllUntouched(st, State())
      {
        ghost var st1 := State();
        assert p in Run(a, b) && Run(a, p + 1) == Run(a, p) + {p};
        KFree(p);
        AllTrans(st, st1, State());
      }
    }

    /** kalloc(): 0 when no page is free. */
    method KAlloc() returns (f: nat)
      requires Valid()
      modifies this`freelist, this`list, this`outside
      ensures Valid()
      ensures f == 0 <==> old(State()).free == {}
      ensures f == 0 ==> State() == old(State())
      ensures f != 0 ==> f in old(State()).free && State() == Allocated(old(State()), f)
      ensures f != 0 ==> f in outside && f < |mem| && f !in spaces
    {
      hide Inv, SameSpace;
      f := freelist;
      NullHead(mem, freelist, list);
      if f != 0 {
        ListPop(mem, freelist, list);
        AllocFrame(ph, State(), f);
        freelist := NextIn(mem[f]);
        list := list[1..];
        outside := outside + {f};
      }
    }

    /** kfree() of a page in the caller's hands. */
    method KFree(f: nat)
      requires Valid() && f in outside
      modifies this`freelist, this`list, this`outside, this`mem
      ensures Valid() && f < |mem| && State() == Freed(old(State()), f, mem[f])
      ensures AllUntouched(old(State()), State())
    {
      hide Inv, SameSpace, Tab;
      assert ph.Valid() && |mem| == ph.hi by { InvSized(ph, State()); }
      ListBound(mem, freelist, list);
      FreeFrame(ph, State(), f, FreePage(freelist));
      ListPush(mem, freelist, list, f);
      mem := mem[f := FreePage(freelist)];
      freelist := f;
      list := [f] + list;
      outside := outside - {f};
    }

    /** walkpgdir(): the page table for page v, created if alloc asks for it; 0 if there is none. */
    method Walk(d: nat, v: nat, alloc: bool) returns (t: nat)
      requires Valid() && d in spaces && v < NPAGES
      modifies this`mem, this`freelist, this`list, this`outside
      ensures Valid() && outside == old(outside) && |mem| == |old(mem)|
      ensures SameAll(old(State()), State()) && UntouchedBut(old(State()), State(), d)
      ensures TabsKept(old(State()), State(), d) && OutsideKept(old(State()), State())
      ensures State().free <= old(State()).free
      ensures t == 0 ==> State() == old(State()) && Tab(State(), d, v / NENT) == 0 && (alloc ==> State().free == {})
      ensures t != 0 ==> t == Tab(State(), d, v / NENT) && t < |mem|
      ensures Tab(old(State()), d, v / NENT) != 0 || !alloc ==> State() == old(State())
    {
      hide Inv, SameSpace, FreeList, Tab;
      ghost var st := State();
      InvSized(ph, st);
      NothingMoved(st, d);
      var x := v / NENT;
      PresentTable(ph, st, d, x);
      if Present(mem[d][x]) {
        return FrameOf(mem[d][x]);
      }
      if !alloc {
        return 0;
      }
      t := KAlloc();
      if t == 0 {
        return;
      }
      ghost var st1 := State();
      WalkLinks(ph, st, t, d, x);
      NotListed(ph, st1, list, t, d);
      mem := mem[t := ZeroPage()];
      ListFrame(st1.mem, freelist, list, mem);
      ghost var mem2 := mem;
      mem := mem[d := mem[d][x := Entry(t, 7)]];
      outside := outside - {t};
      ListFrame(mem2, freelist, list, mem);
    }

    /** One round of mappages: walkpgdir, then the entry is stored. */
    method MapOne(d: nat, v: nat, f: nat, perm: nat) returns (ok: bool)
      requires Valid() && d in spaces && v < NPAGES && f < NPAGES && perm < PGSIZE && !Present(Pte(State(), d, v))
      requires v < UPAGES ==> f in outside
      modifies this`mem, this`freelist, this`list, this`outside
      ensures Valid() && |mem| == |old(mem)|
      ensures ok ==> Mapped(old(State()), State(), d, v, 1, f, perm)
      ensures !ok ==> State() == old(State()) && State().free == {}
    {
      hide Inv, SameSpace, FreeList, Tab, Pte, Mapped, SameMemory;
      ghost var st := State();
      InvSized(ph, st);
      var t := Walk(d, v, true);
      if t == 0 {
        return false;
      }
      ghost var st1 := State();
      WalkedMapped(st, st1, d, v, f, perm);
      Stored(ph, st1, d, v, f, perm);
      NotListedTable(ph, st1, list, d, v);
      mem := mem[t := mem[t][v % NENT := Entry(f, perm)]];
      outside := if v < UPAGES then outside - {f} else outside;
      ListFrame(st1.mem, freelist, list, mem);
      StoredState(st1, State(), d, v, f, perm);
      WalkedStored(st, st1, State(), d, v, f, perm);
      return true;
    }

    /** mappages() */
    method MapPages(d: nat, va: nat, size: nat, pf: nat, perm: nat) returns (ok: bool, ghost done: nat)
      requires Valid() && d in spaces && 0 < size && va + size <= NPAGES * PGSIZE && perm < PGSIZE
      requires pf + Pages(va, size) <= NPAGES
      requires Vacant(State(), d, va / PGSIZE, va / PGSIZE + Pages(va, size))
      requires Handed(va / PGSIZE, Pages(va, size), pf) <= outside
      modifies this`mem, this`freelist, this`list, this`outside
      ensures Valid() && |mem| == |old(mem)| && done <= Pages(va, size)
      ensures Mapped(old(State()), State(), d, va / PGSIZE, done, pf, perm)
      ensures ok ==> done == Pages(va, size)
      ensures !ok ==> State().free == {} && done < Pages(va, size)
      ensures !ok && done == 0 ==> State() == old(State())
    {
      hide Inv, SameSpace, FreeList, Tab, Pte, Mapped, SameMemory;
      ghost var st := State();
      InvSized(ph, st);
      var first, last := va / PGSIZE, (va + size - 1) / PGSIZE;
      var a, pa := first, pf;
      done := 0;
      MappedNone(st, d, first, pf, perm);
      while true
        invariant Valid() && |mem| == |old(mem)|
        invariant first <= a <= last && done == a - first && pa == pf + done
        invariant Mapped(st, State(), d, first, done, pf, perm)
        invariant done == 0 ==> State() == st
        decreases last - a
      {
        ghost var st1 := State();
        MappedAt(st, st1, d, first, done, pf, perm, a);
        HandedMore(first, done, pf);
        var one := MapOne(d, a, pa, perm);
        if !one {
          return false, done;
        }
        MappedMore(st, st1, State(), d, first, done, pf, perm);
        done := done + 1;
        if a == last {
          return true, done;
        }
        a := a + 1;
        pa := pa + 1;
      }
    }

    /** The entry for page v in table t is cleared and its page freed, if it has one. */
    method DropOne(d: nat, v: nat, t: nat)
      requires Valid() && v < UPAGES && t == Tab(State(), d, v / NENT) && 0 < t < |mem|
      modifies this`mem, this`freelist, this`list, this`outside
      ensures Valid() && Cleared(old(State()), State(), d, v, v + 1)
    {
      hide Inv, SameSpace, FreeList, Tab, Cleared, EntriesCleared, UntouchedBut;
      ghost var st := State();
      PteIn(st, d, v);
      var pte := mem[t][v % NENT];
      if Present(pte) {
        var f := FrameOf(pte);
        UnmapPage(ph, st, d, v);
        assert f != 0;  // the panic for a present entry of frame 0
        NotListedTable(ph, st, list, d, v);
        mem := mem[t := mem[t][v % NENT := 0]];
        outside := outside + {f};
        ListFrame(st.mem, freelist, list, mem);
        UnmappedState(st, State(), d, v);
        KFree(f);
        DropPage(ph, st, d, v, State());
      } else {
        ClearedNone(st, d, v, v + 1);
      }
    }

    /** deallocuvm() */
    method DeallocUvm(d: nat, oldsz: nat, newsz: nat) returns (sz: nat)
      requires Valid() && d in spaces && oldsz <= KERNBASE
      modifies this`mem, this`freelist, this`list, this`outside
      ensures Valid() && sz == if newsz >= oldsz then oldsz else newsz
      ensures newsz >= oldsz ==> State() == old(State())
      ensures newsz < oldsz ==> Cleared(old(State()), State(), d, RoundUp(newsz), RoundUp(oldsz))
    {
      hide Inv, SameSpace, FreeList, Tab, Cleared, Pte;
      if newsz >= oldsz {
        return oldsz;
      }
      ghost var st := State();
      ghost var lo, hi := RoundUp(newsz), RoundUp(oldsz);
      var p := RoundUp(newsz);
      ClearedNone(st, d, lo, lo);
      while p * PGSIZE < oldsz
        invariant Valid() && lo <= p
        invariant Cleared(st, State(), d, lo, Min(p, hi)) && spaces == old(spaces)
        decreases oldsz - p * PGSIZE
      {
        ghost var st1 := State();
        var t := Walk(d, p, false);
        if t == 0 {
          NoTableNoPages(st1, d, p);
          var q := (p / NENT + 1) * NENT;
          ClearedNone(st1, d, p, Min(q, hi));
          ClearedMore(st, st1, st1, d, lo, p, Min(q, hi));
          p := q;
        } else {
          DropOne(d, p, t);
          ClearedMore(st, st1, State(), d, lo, p, p + 1);
          p := p + 1;
        }
      }
      return newsz;
    }

    /** memset or memmove over a page in the caller's hands. */
    method Fill(f: nat, page: Page)
      requires Valid() && f in outside
      modifies this`mem
      ensures Valid() && f < |mem| == |old(mem)| && State() == Wrote(old(State()), f, page)
      ensures AllUntouched(old(State()), State())
    {
      hide Inv, SameSpace, FreeList, Tab;
      ghost var st := State();
      WroteUntouched(ph, st, f, page);
      NotFreeOutside(ph, st, list, f);
      mem := mem[f := page];
      ListFrame(st.mem, freelist, list, mem);
    }

    /** kalloc() and the contents of the page; 0 if no page is free. */
    method TakePage(page: Page) returns (f: nat)
      requires Valid()
      modifies this`mem, this`freelist, this`list, this`outside
      ensures Valid() && (f == 0 <==> old(State()).free == {})
      ensures f == 0 ==> State() == old(State())
      ensures f != 0 ==>
          f in old(State()).free && f in outside && f !in old(outside) && f < |mem| == |old(mem)| <= 0xE000
      ensures f != 0 ==> State() == Wrote(Allocated(old(State()), f), f, page) && AllUntouched(old(State()), State())
    {
      hide Inv, SameSpace, FreeList, Tab;
      ghost var st := State();
      InvSized(ph, st);
      f := KAlloc();
      if f != 0 {
        ghost var st1 := State();
        AllocatedUntouched(st, f);
        FreeNotOutside(ph, st, f);
        Fill(f, page);
        AllTrans(st, st1, State());
      }
    }

    /** One round of allocuvm: page p is added, or the whole growth since `st` is undone. */
    method AllocRound(d: nat, p: nat, oldsz: nat, newsz: nat, ghost st: VmSpec.Vm) returns (ok: bool)
      requires Valid() && d in spaces && oldsz <= newsz < KERNBASE && RoundUp(oldsz) <= p && p * PGSIZE < newsz
      requires Inv(ph, st) && 0 !in st.free && st.outside == outside && Vacant(st, d, RoundUp(oldsz), RoundUp(newsz))
      requires Grown(st, State(), d, RoundUp(oldsz), ZeroPages(p - RoundUp(oldsz)))
      modifies this`mem, this`freelist, this`list, this`outside
      ensures Valid() && outside == old(outside)
      ensures ok ==> Grown(st, State(), d, RoundUp(oldsz), ZeroPages(p + 1 - RoundUp(oldsz)))
      ensures !ok ==> Undone(st, State(), d)
    {
      hide Inv, SameSpace, FreeList, Tab, Pte, Mapped, Cleared, Grown, Restored, Vacant, TableFrames, Grew, Undone,
          AllUntouched, ZeroPages, SetOf, Handed, ZeroPage, Present;
      ghost var lo, hi := RoundUp(oldsz), RoundUp(newsz);
      ghost var st1 := State();
      NextVacant(st, st1, d, lo, ZeroPages(p - lo), hi);
      var f := TakePage(ZeroPage());
      if f == 0 {
        var _ := DeallocUvm(d, newsz, oldsz);
        GrownCleared(st, st1, State(), d, lo, ZeroPages(p - lo), hi);
        ClearedSets(st1, State(), d, lo, hi);
        ListNoNull(mem, freelist, list);
        UndoneNow(ph, st, State(), d);
        return false;
      }
      ghost var st2 := State();
      UntouchedPte(st1, st2, d, p);
      HandedOne(p, f);
      var mapped, _ := MapPages(d, p * PGSIZE, PGSIZE, f, PTE_W + PTE_U);
      if !mapped {
        var _ := DeallocUvm(d, newsz, oldsz);
        GrownUntouched(st, st1, st2, d, lo, ZeroPages(p - lo));
        GrownCleared(st, st2, State(), d, lo, ZeroPages(p - lo), hi);
        ClearedSets(st2, State(), d, lo, hi);
        ghost var st3 := State();
        KFree(f);
        RestoredUntouched(st, st3, State(), d);
        assert outside == old(outside);
        ListNoNull(mem, freelist, list);
        UndoneNow(ph, st, State(), d);
        return false;
      }
      GrowNext(ph, st, st1, st2, State(), d, lo, ZeroPages(p - lo), f, ZeroPage(), PTE_W + PTE_U);
      assert ZeroPages(p + 1 - lo) == ZeroPages(p - lo) + [Want(ZeroPage(), Flags(PTE_W + PTE_U))];
      return true;
    }

    /** allocuvm() */
    method AllocUvm(d: nat, oldsz: nat, newsz: nat) returns (sz: nat)
      requires Valid() && d in spaces
      requires newsz < KERNBASE ==> Vacant(State(), d, RoundUp(oldsz), RoundUp(newsz))
      modifies this`mem, this`freelist, this`list, this`outside
      ensures Valid() && outside == old(outside)
      ensures newsz >= KERNBASE ==> sz == 0 && State() == old(State())
      ensures newsz < oldsz && newsz < KERNBASE ==> sz == oldsz && State() == old(State())
      ensures oldsz <= newsz < KERNBASE ==> sz == newsz || sz == 0
      ensures oldsz <= newsz < KERNBASE && sz == newsz ==>
          Grew(old(State()), State(), d, RoundUp(oldsz), RoundUp(newsz))
      ensures oldsz <= newsz < KERNBASE && sz != newsz ==> Undone(old(State()), State(), d)
    {
      hide Inv, SameSpace, FreeList, Tab, Pte, Mapped, Cleared, Grown, Restored, Vacant, TableFrames, Grew, Undone,
          AllUntouched, ZeroPages, SetOf, Handed, ZeroPage, Present, RoundUp;
      if newsz >= KERNBASE {
        return 0;
      }
      if newsz < oldsz {
        return oldsz;
      }
      ghost var st := State();
      ghost var lo, hi := RoundUp(oldsz), RoundUp(newsz);
      ListNoNull(mem, freelist, list);
      var p := RoundUp(oldsz);
      Rounded(hi, newsz);
      RoundedUp(oldsz, newsz);
      GrownNone(st, d, lo);
      while p * PGSIZE < newsz
        invariant Valid() && outside == old(outside)
        invariant lo <= p <= hi
        invariant Grown(st, State(), d, lo, ZeroPages(p - lo))
      {
        Rounded(p, newsz);
        var ok := AllocRound(d, p, oldsz, newsz, st);
        if !ok {
          return 0;
        }
        p := p + 1;
      }
      Rounded(p, newsz);
      ListNoNull(mem, freelist, list);
      GrewNow(ph, st, State(), d, lo, hi);
      return newsz;
    }

    /** freevm() */
    method FreeVm(d: nat)
      requires Valid() && d in spaces
      modifies this
      ensures Valid() && spaces == old(spaces) - {d} && |mem| == |old(mem)|
      ensures State().free == old(State()).free + {d} + TableFrames(old(State()), d) +
          FramesBetween(old(State()), d, 0, MINPAGE)
      ensures outside == old(outside) + UserFrames(old(State()), d, MINPAGE)
      ensures UntouchedBut(old(State()), State(), d)
      ensures outside == old(outside) <==> Vacant(old(State()), d, MINPAGE, UPAGES)
    {
      hide Inv, SameSpace, FreeList, Tab, Cleared, Vacant, UserFrames, TableFrames, UntouchedBut, AllUntouched,
          FramesBetween, TablesBefore;
      ghost var st := State();
      LeftBehindIff(ph, st, d);
      var _ := DeallocUvm(d, MINPAGE * PGSIZE, 0);
      ghost var st1 := State();
      PagesLeft(st, st1, d);
      SpaceParts(ph, st1, d);
      InvSized(ph, st1);
      DropSpace(ph, st1, d);
      spaces := spaces - {d};
      outside := outside + ({d} + TableFrames(st1, d) + UserFrames(st1, d, 0));
      ClosedUntouched(ph, st1, d, {d} + TableFrames(st1, d) + UserFrames(st1, d, 0));
      UntouchedTrans(st, st1, State(), d);
      ghost var out2 := outside;
      TablesAll(st1, d);
      for i := 0 to NENT
        invariant Valid() && spaces == old(spaces) - {d} && |mem| == |old(mem)| && d < |mem| && mem[d] == st1.mem[d]
        invariant outside == out2 - TablesBefore(st1, d, i)
        invariant State().free == st1.free + TablesBefore(st1, d, i)
        invariant UntouchedBut(st, State(), d)
      {
        PresentTable(ph, st1, d, i);
        TablesNext(ph, st1, d, i);
        if Present(mem[d][i]) {
          ghost var st2 := State();
          KFree(FrameOf(mem[d][i]));
          AllBut(st2, State(), d);
          UntouchedTrans(st, st2, State(), d);
        }
      }
      ghost var st3 := State();
      KFree(d);
      AllBut(st3, State(), d);
      UntouchedTrans(st, st3, State(), d);
    }

    /** setupkvm() */
    method SetupKvm(data: nat) returns (d: nat)
      requires Valid() && 0x8_0100 < data < 0x8_E000
      modifies this
      ensures Valid() && outside == old(outside) && |mem| == |old(mem)|
      ensures d != 0 ==> d in old(State()).free && d !in old(spaces) && spaces == old(spaces) + {d}
      ensures d != 0 ==> State().free <= old(State()).free
      ensures d != 0 ==> KernelMapped(State(), d, data, 4) && UntouchedBut(old(State()), State(), d)
      ensures d == 0 ==>
          spaces == old(spaces) && AllUntouched(old(State()), State()) && State().free == old(State()).free
    {
      hide Inv, SameSpace, FreeList, Tab, Pte, Cleared, Vacant, UserFrames, TableFrames, UntouchedBut, AllUntouched,
          FramesBetween, KernelMapped, Mapped, KernelUpTo, SetOf;
      ghost var st := State();
      NoMove(st);
      ListNoNull(mem, freelist, list);
      d := TakePage(ZeroPage());
      if d == 0 {
        return;
      }
      ghost var st1 := State();
      OpenedSpace(ph, st, st1, d, data);
      spaces := spaces + {d};
      outside := outside - {d};
      assert outside == old(outside);
      var kmap := KMap(data);
      for k := 0 to |kmap|
        invariant Valid() && spaces == old(spaces) + {d} && outside == old(outside) && |mem| == |old(mem)|
        invariant KernelMapped(State(), d, data, k) && UntouchedBut(st, State(), d) && State().free <= st.free
      {
        ghost var st2 := State();
        KernelVacant(st2, d, data, k);
        SegmentPages(kmap[k]);
        var ok, done := MapPages(d, kmap[k].virt * PGSIZE, kmap[k].n * PGSIZE, kmap[k].phys, kmap[k].perm);
        if !ok {
          ghost var st3 := State();
          KernelFailed(st, st2, st3, d, data, k, done);
          FreeVm(d);
          UntouchedTrans(st, st3, State(), d);
          NotASpace(st, State(), d);
          ListNoNull(mem, freelist, list);
          SameFree(ph, st, State(), {});
          return 0;
        }
        KernelNext(st2, State(), d, data, k);
        UntouchedTrans(st, st2, State(), d);
      }
    }

    /** One round of copyuvm: page p of space d is copied to space nd; ok is false if there is no room. */
    method CopyRound(d: nat, nd: nat, p: nat, ghost st: VmSpec.Vm, ghost st1: VmSpec.Vm,
        ghost n: nat) returns (ok: bool)
      requires Valid() && d in spaces && nd in spaces && nd != d && p < n <= UPAGES
      requires Inv(ph, st) && AllPresent(st, d, n) && UntouchedBut(st, State(), nd)
      requires Grown(st1, State(), nd, 0, Copies(st, d, p)) && Vacant(st1, nd, 0, UPAGES)
      modifies this`mem, this`freelist, this`list, this`outside
      ensures Valid() && outside == old(outside) && |mem| == |old(mem)| && UntouchedBut(st, State(), nd)
      ensures ok ==> Grown(st1, State(), nd, 0, Copies(st, d, p + 1))
      ensures !ok ==> Grown(st1, State(), nd, 0, Copies(st, d, p)) && Vacant(State(), nd, p, UPAGES)
    {
      hide Inv, SameSpace, FreeList, Tab, Pte, Mapped, Grown, Vacant, UntouchedBut, AllUntouched, Copies, SetOf, Handed;
      ghost var st2 := State();
      SourcePage(ph, st, st2, d, nd, n, p);
      NextVacant(st1, st2, nd, 0, Copies(st, d, p), UPAGES);
      var t := Walk(d, p, false);
      assert t != 0;  // the panic for a missing table
      PteIn(st2, d, p);
      var pte := mem[t][p % NENT];
      assert Present(pte);  // the panic for a page that is not there
      var pf, flags := FrameOf(pte), pte % PGSIZE;
      var f := TakePage(mem[pf]);
      RestVacant(st1, st2, nd, Copies(st, d, p));
      if f == 0 {
        return false;
      }
      ghost var st3 := State();
      UntouchedPte(st2, st3, nd, p);
      HandedOne(p, f);
      AllBut(st2, st3, nd);
      UntouchedTrans(st, st2, st3, nd);
      var mapped, _ := MapPages(nd, p * PGSIZE, PGSIZE, f, flags);
      if !mapped {
        KFree(f);
        UntouchedVacant(st2, st3, State(), nd, p);
        AllTrans(st2, st3, State());
        assert State().free == st2.free;
        GrownUntouched(st1, st2, State(), nd, 0, Copies(st, d, p));
        AllBut(st3, State(), nd);
        UntouchedTrans(st, st3, State(), nd);
        assert outside == old(outside);
        return false;
      }
      MappedBut(st3, State(), nd, p, f, flags);
      UntouchedTrans(st, st3, State(), nd);
      GrowNext(ph, st1, st2, st3, State(), nd, 0, Copies(st, d, p), f, st2.mem[pf], flags);
      return true;
    }

    /**
      copyuvm(); the result is 0 if memory ran out, after `copied` pages.  Then
      the frames in `left` are lost: one for each copy from MIN_ADDR on.
     */
    method CopyUvm(d: nat, sz: nat, data: nat) returns (nd: nat, ghost copied: nat, ghost left: set<nat>)
      requires Valid() && d in spaces && sz <= KERNBASE && 0x8_0100 < data < 0x8_E000
      requires AllPresent(State(), d, RoundUp(sz))
      modifies this
      ensures Valid() && copied <= RoundUp(sz)
      ensures nd != 0 ==> nd in old(State()).free && spaces == old(spaces) + {nd} && outside == old(outside)
      ensures nd != 0 ==> Copied(old(State()), State(), d, nd, RoundUp(sz), data)
      ensures nd == 0 ==> spaces == old(spaces) && AllUntouched(old(State()), State())
      ensures nd == 0 ==> outside == old(outside) + left && State().free == old(State()).free - left
      ensures nd == 0 ==> left <= old(State()).free && |left| == if copied <= MINPAGE then 0 else copied - MINPAGE
    {
      hide Inv, SameSpace, FreeList, Tab, Pte, Vacant, Grown, UntouchedBut, AllUntouched, Copies, Copied, SetOf;
      hide UserFrames, TableFrames, FramesBetween, KernelMapped, RoundUp;
      ghost var st := State();
      ghost var n := RoundUp(sz);
      ListNoNull(mem, freelist, list);
      nd := SetupKvm(data);
      copied, left := 0, {};
      if nd == 0 {
        return;
      }
      ghost var st1 := State();
      UserHalfVacant(st1, nd, data);
      GrownNone(st1, nd, 0);
      assert Copies(st, d, 0) == [];
      var p := 0;
      while p * PGSIZE < sz
        invariant Valid() && spaces == old(spaces) + {nd} && outside == old(outside) && |mem| == |old(mem)|
        invariant p <= n && Grown(st1, State(), nd, 0, Copies(st, d, p)) && UntouchedBut(st, State(), nd)
        decreases sz - p * PGSIZE
      {
        Rounded(p, sz);
        var ok := CopyRound(d, nd, p, st, st1, n);
        copied := p;
        if !ok {
          ghost var st2 := State();
          CopyLeft(ph, st1, st2, nd, Copies(st, d, p));
          left := UserFrames(st2, nd, MINPAGE);
          FreeVm(nd);
          UntouchedTrans(st, st2, State(), nd);
          NotASpace(st, State(), nd);
          ListNoNull(mem, freelist, list);
          SameFree(ph, st, State(), left);
          return 0, copied, left;
        }
        p := p + 1;
      }
      Rounded(p, sz);
      copied := p;
      CopiedNow(st, st1, State(), d, nd, n, data);
    }

    /** uva2ka(), where there is a table: the frame of the page, or 0 if users may not go there. */
    method FrameForUser(d: nat, v: nat) returns (f: nat)
      requires Valid() && d in spaces && v < UPAGES && Tab(State(), d, v / NENT) != 0
      modifies this`mem, this`freelist, this`list, this`outside
      ensures Valid() && State() == old(State())
      ensures f != 0 <==> UserPage(Pte(State(), d, v))
      ensures f != 0 ==> f == PageFrame(State(), d, v)
    {
      hide Inv, SameSpace, FreeList, Tab;
      var t := Walk(d, v, false);
      var w := mem[t][v % NENT];
      if !Present(w) || !ForUsers(w) {
        return 0;
      }
      UserFrame(ph, State(), d, v);
      return FrameOf(w);
    }

    /** memmove() into a page of the user. */
    method StoreBytes(ghost d: nat, ghost v: nat, f: nat, at: nat, part: seq<Byte>)
      requires Valid() && v < UPAGES && f == PageFrame(State(), d, v) != 0 && at + |part| <= PGSIZE
      modifies this`mem
      ensures Valid() && f < |old(mem)| && mem == old(mem)[f := Laid(old(mem)[f], at, part)]
      ensures forall e, x: nat | x < NENT :: Tab(State(), e, x) == Tab(old(State()), e, x)
      ensures forall e, u: nat | u < NPAGES :: Pte(State(), e, u) == Pte(old(State()), e, u)
    {
      hide Inv, FreeList, Tab, Pte, Laid;
      ghost var st := State();
      InvSized(ph, st);
      UserApart(ph, st, d, v, Dir(0));
      StoreUser(ph, st, d, v, Laid(mem[f], at, part));
      mem := mem[f := Laid(mem[f], at, part)];
      assert State() == Wrote(st, f, mem[f]);
      ListFrame(st.mem, freelist, list, mem);
    }

    /** copyout(), to user addresses whose page tables exist; n bytes arrive. */
    method CopyOut(d: nat, va: nat, src: seq<Byte>) returns (ok: bool, ghost n: nat)
      requires Valid() && d in spaces && va + |src| <= KERNBASE
      requires forall v: nat | va / PGSIZE <= v && v * PGSIZE < va + |src| :: Tab(State(), d, v / NENT) != 0
      modifies this`mem, this`freelist, this`list, this`outside
      ensures Valid() && State() == old(State()).(mem := mem)
      ensures forall e, u: nat | u < NPAGES :: Pte(State(), e, u) == Pte(old(State()), e, u)
      ensures n <= |src| && Delivered(old(mem), mem, spaces, d, va, src[..n]) && (ok <==> n == |src|)
      ensures forall v: nat | n > 0 && va / PGSIZE <= v && v * PGSIZE < va + n :: UserPage(Pte(old(State()), d, v))
      ensures !ok ==> !UserPage(Pte(old(State()), d, (va + n) / PGSIZE))
    {
      hide Inv, FreeList, Tab, Pte, Laid, UserByte, UserPage;
      var i := 0;
      n := 0;
      while i < |src|
        invariant n == i <= |src| && Valid() && State() == old(State()).(mem := mem)
        invariant i == |src| || i == 0 || (va + i) % PGSIZE == 0
        invariant forall e, x: nat | x < NENT :: Tab(State(), e, x) == Tab(old(State()), e, x)
        invariant forall e, u: nat | u < NPAGES :: Pte(State(), e, u) == Pte(old(State()), e, u)
        invariant Delivered(old(mem), mem, spaces, d, va, src[..i])
        invariant forall v: nat | n > 0 && va / PGSIZE <= v && v * PGSIZE < va + n :: UserPage(Pte(old(State()), d, v))
      {
        var v, at := (va + i) / PGSIZE, (va + i) % PGSIZE;
        var f := FrameForUser(d, v);
        if f == 0 {
          return false, n;
        }
        var k := Min(PGSIZE - at, |src| - i);
        ghost var st := State();
        StoreBytes(d, v, f, at, src[i..i + k]);
        DeliveredMore(ph, old(mem), st, d, va, src[..i], src[i..i + k], v);
        assert src[..i] + src[i..i + k] == src[..i + k];
        i := i + k;
        n := i;
      }
      return true, n;
    }
  }

  /** Zeroed user pages from lo to hi-1; the frames gone are theirs and those of new tables. */
  ghost predicate Grew(st: VmSpec.Vm, st': VmSpec.Vm, d: nat, lo: nat, hi: nat)
    requires lo <= hi
  {
    && Grown(st, st', d, lo, ZeroPages(hi - lo))
    && st'.free == st.free - (TableFrames(st', d) + FramesBetween(st', d, lo, hi))
  }

  /** As before, except that the space may keep tables that were free. */
  ghost predicate Undone(st: VmSpec.Vm, st': VmSpec.Vm, d: nat) {
    Restored(st, st', d) && st'.free == st.free - TableFrames(st', d)
  }

  lemma GrewNow(ph: Phys, st: VmSpec.Vm, st': VmSpec.Vm, d: nat, lo: nat, hi: nat)
    requires lo <= hi && Inv(ph, st) && Inv(ph, st') && Grown(st, st', d, lo, ZeroPages(hi - lo))
    requires st'.outside == st.outside
    requires 0 !in st.free && 0 !in st'.free
    ensures Grew(st, st', d, lo, hi)
  {
    GrownFree(ph, st, st', d, lo, ZeroPages(hi - lo));
  }

  lemma UndoneNow(ph: Phys, st: VmSpec.Vm, st': VmSpec.Vm, d: nat)
    requires Inv(ph, st) && Inv(ph, st') && Restored(st, st', d) && st'.outside == st.outside
    requires 0 !in st.free && 0 !in st'.free
    ensures Undone(st, st', d)
  {
    RestoredFree(ph, st, st', d);
  }

  lemma ClearedSets(st: VmSpec.Vm, st': VmSpec.Vm, d: nat, lo: nat, hi: nat)
    requires Cleared(st, st', d, lo, hi)
    ensures st'.outside == st.outside && st'.spaces == st.spaces
  {
  }

  lemma UntouchedPte(st: VmSpec.Vm, st': VmSpec.Vm, d: nat, v: nat)
    requires AllUntouched(st, st') && v < NPAGES
    ensures Pte(st', d, v) == Pte(st, d, v)
    ensures !Present(Pte(st, d, v)) ==> Vacant(st', d, v, v + 1)
  {
    hide Pte, Tab;
    assert Untouched(st, st', d);
  }

  lemma FreeNotOutside(ph: Phys, st: VmSpec.Vm, f: nat)
    requires Inv(ph, st) && f in st.free && f != 0
    ensures f !in st.outside && f < |st.mem| <= 0xE000
  {
    assert Holds(st, Free(f)) == f;
  }

  lemma NotFreeOutside(ph: Phys, st: VmSpec.Vm, list: seq<nat>, f: nat)
    requires Inv(ph, st) && st.free == SetOf(list) && f in st.outside
    ensures f !in list
  {
    OutsideNotUsed(ph, st, f, Free(f));
  }

  lemma ListNoNull(mem: seq<Page>, head: nat, list: seq<nat>)
    requires FreeList(mem, head, list)
    ensures 0 !in SetOf(list)
  {
    forall i: nat | i < |list|
      ensures list[i] != 0
    {
      assert ListLink(mem, list, i);
    }
  }

  /** PGROUNDUP(sz) / PGSIZE, for sizes that do not wrap. */
  function RoundUp(sz: nat): nat {
    (sz + PGSIZE - 1) / PGSIZE
  }

  lemma Rounded(p: nat, sz: nat)
    ensures p * PGSIZE < sz <==> p < RoundUp(sz)
    ensures sz <= KERNBASE ==> RoundUp(sz) <= UPAGES
  {
  }

  lemma RoundedUp(a: nat, b: nat)
    requires a <= b
    ensures RoundUp(a) <= RoundUp(b)
  {
  }

  lemma PteIn(st: VmSpec.Vm, d: nat, v: nat)
    requires v < NPAGES && 0 < Tab(st, d, v / NENT) < |st.mem|
    ensures Pte(st, d, v) == st.mem[Tab(st, d, v / NENT)][v % NENT]
  {
  }

  lemma UnmappedState(st: VmSpec.Vm, st': VmSpec.Vm, d: nat, v: nat)
    requires v < NPAGES && 0 < Tab(st, d, v / NENT) < |st.mem|
    requires var t := Tab(st, d, v / NENT); st'.mem == st.mem[t := st.mem[t][v % NENT := 0]]
    requires st'.free == st.free && st'.spaces == st.spaces && st'.outside == st.outside + {FrameOf(Pte(st, d, v))}
    ensures st' == UnmappedIn(st, d, v)
  {
  }

  /** Frames in the caller's hands, and directories, are not on the free list. */
  lemma NotListed(ph: Phys, st: VmSpec.Vm, list: seq<nat>, t: nat, d: nat)
    requires Inv(ph, st) && st.free == SetOf(list) && t in st.outside && d in st.spaces && d != 0
    ensures t !in list && d !in list
  {
    OutsideNotUsed(ph, st, t, Free(t));
    DirUse(ph, st, d);
  }

  lemma NotListedTable(ph: Phys, st: VmSpec.Vm, list: seq<nat>, d: nat, v: nat)
    requires Inv(ph, st) && st.free == SetOf(list) && v < NPAGES && Tab(st, d, v / NENT) != 0
    ensures Tab(st, d, v / NENT) !in list
  {
    TableUse(ph, st, d, v / NENT);
  }

  lemma NullHead(mem: seq<Page>, head: nat, list: seq<nat>)
    requires FreeList(mem, head, list)
    ensures head == 0 <==> list == []
    ensures list == [] ==> SetOf(list) == {}
    ensures list != [] ==> list[0] in SetOf(list)
  {
    if list != [] { assert ListLink(mem, list, 0); }
  }

  lemma ListBound(mem: seq<Page>, head: nat, list: seq<nat>)
    requires FreeList(mem, head, list)
    ensures head == 0 || head < |mem|
  {
    if list != [] { assert ListLink(mem, list, 0); }
  }
}
