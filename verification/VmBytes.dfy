/**
  Memory by the byte: what a user program reads at its addresses through the page
  tables, and what storing bytes into one of its pages does to that.
 */
module VmBytes {
  import opened Common
  import opened VmSpec

  // ------------------------------------------------------------ bytes of words

  /** Byte k of a word, from the low end. */
  function ByteIn(w: nat, k: nat): Byte {
    if k == 0 then w % 0x100 else ByteIn(w / 0x100, k - 1)
  }

  function PutByte(w: nat, k: nat, b: Byte): nat {
    if k == 0 then w / 0x100 * 0x100 + b else w % 0x100 + 0x100 * PutByte(w / 0x100, k - 1, b)
  }

  lemma {:induction false} PutByteReads(w: nat, k: nat, b: Byte, j: nat)
    ensures ByteIn(PutByte(w, k, b), j) == if j == k then b else ByteIn(w, j)
  {
    if k > 0 && j > 0 {
      PutByteReads(w / 0x100, k - 1, b, j - 1);
    }
  }

  function Limit(n: nat): nat {
    if n == 0 then 1 else 0x100 * Limit(n - 1)
  }

  lemma {:induction false} PutByteFits(w: nat, k: nat, b: Byte, n: nat)
    requires w < Limit(n) && k < n
    ensures PutByte(w, k, b) < Limit(n)
  {
    HeadFits(w, Limit(n - 1));
    if k == 0 {
      TailFits(w / 0x100, b, Limit(n - 1));
    } else {
      PutByteFits(w / 0x100, k - 1, b, n - 1);
      TailFits(PutByte(w / 0x100, k - 1, b), w % 0x100, Limit(n - 1));
    }
  }

  lemma HeadFits(w: nat, m: nat)
    requires w < 0x100 * m
    ensures w / 0x100 < m
  {
  }

  lemma TailFits(q: nat, r: nat, m: nat)
    requires q < m && r < 0x100
    ensures q * 0x100 + r < 0x100 * m
  {
  }

  // ------------------------------------------------------------ bytes of pages

  function ByteAt(page: Page, i: nat): Byte
    requires i < PGSIZE
  {
    ByteIn(page[i / 4], i % 4)
  }

  function WithByte(page: Page, i: nat, b: Byte): (r: Page)
    requires i < PGSIZE
    ensures forall j: nat | j < PGSIZE :: ByteAt(r, j) == if j == i then b else ByteAt(page, j)
  {
    PutByteFits(page[i / 4], i % 4, b, 4);
    assert Limit(4) == UINT_LIMIT;
    assert forall k: nat :: ByteIn(PutByte(page[i / 4], i % 4, b), k) == if k == i % 4 then b
                            else ByteIn(page[i / 4], k) by {
      forall k: nat { PutByteReads(page[i / 4], i % 4, b, k); }
    }
    page[i / 4 := PutByte(page[i / 4], i % 4, b)]
  }

  /** memmove to offset `at` of a page. */
  function Laid(page: Page, at: nat, src: seq<Byte>): Page
    requires at + |src| <= PGSIZE
    decreases |src|
  {
    if src == [] then page
    else WithByte(Laid(page, at, src[..|src| - 1]), at + |src| - 1, src[|src| - 1])
  }

  lemma {:induction false} LaidBytes(page: Page, at: nat, src: seq<Byte>, j: nat)
    requires at + |src| <= PGSIZE && j < PGSIZE
    ensures ByteAt(Laid(page, at, src), j) == if at <= j < at + |src| then src[j - at] else ByteAt(page, j)
    decreases |src|
  {
    hide ByteAt, WithByte;
    if src != [] { LaidBytes(page, at, src[..|src| - 1], j); }
  }

  // ------------------------------------------------------------- user memory

  /** The entry lets users at the page. */
  predicate UserPage(w: Word) {
    Present(w) && ForUsers(w)
  }

  /** What a user program of space d reads at va. */
  function UserByte(mem: seq<Page>, d: nat, va: Word): Option<Byte>
    requires d < |mem|
  {
    match Translated(mem, d, va)
    case None => None
    case Some(a) =>
      if a.user && a.addr / PGSIZE < |mem| then Some(ByteAt(mem[a.addr / PGSIZE], a.addr % PGSIZE)) else None
  }

  lemma UserByteIs(ph: Phys, st: Vm, d: nat, va: Word)
    requires Inv(ph, st) && d in st.spaces && va / PGSIZE < UPAGES
    ensures d < |st.mem|
    ensures var w, f := Pte(st, d, va / PGSIZE), PageFrame(st, d, va / PGSIZE);
      && (UserPage(w) ==> 0 < f < |st.mem| && UserByte(st.mem, d, va) == Some(ByteAt(st.mem[f], va % PGSIZE)))
      && (!UserPage(w) ==> UserByte(st.mem, d, va) == None)
  {
    FlatIsTranslated(ph, st, d, va);
    var v := va / PGSIZE;
    var w := Pte(st, d, v);
    Parts(FrameOf(w), va % PGSIZE);
    if PageFrame(st, d, v) != 0 { UserApart(ph, st, d, v, Dir(0)); }
  }

  /** Storing into a user page changes no page table, and leaves all frames in their uses. */
  lemma StoreUser(ph: Phys, st: Vm, d: nat, v: nat, page: Page)
    requires Inv(ph, st) && v < UPAGES && PageFrame(st, d, v) != 0
    ensures 0 < PageFrame(st, d, v) < |st.mem| && PageFrame(st, d, v) !in st.free
    ensures var st' := Wrote(st, PageFrame(st, d, v), page);
      && Inv(ph, st')
      && (forall e, x: nat | x < NENT :: Tab(st', e, x) == Tab(st, e, x))
      && (forall e, u: nat | u < NPAGES :: Pte(st', e, u) == Pte(st, e, u))
  {
    var f := PageFrame(st, d, v);
    UserApart(ph, st, d, v, Free(f));
    UserApart(ph, st, d, v, Dir(f));
    var st' := Wrote(st, f, page);
    forall e, x: nat | x < NENT && Tab(st, e, x) != 0
      ensures Tab(st, e, x) != f
    {
      UserApart(ph, st, d, v, Table(e, x));
    }
    FlatFrame(st, st');
    assert TablesOpen(st');
    hide Tab, Pte, TablesOpen;
    SameUses(ph, st, st');
  }

  /** Exactly the bytes of that page of that space change, to those laid over it. */
  lemma StoredBytes(ph: Phys, st: Vm, d: nat, v: nat, at: nat, src: seq<Byte>, e: nat, va: Word)
    requires Inv(ph, st) && d in st.spaces && v < UPAGES && UserPage(Pte(st, d, v)) && at + |src| <= PGSIZE
    requires e in st.spaces && va / PGSIZE < UPAGES && PageFrame(st, d, v) < |st.mem|
    ensures e < |st.mem|
    ensures var f := PageFrame(st, d, v);
      UserByte(st.mem[f := Laid(st.mem[f], at, src)], e, va) ==
      if e == d && va / PGSIZE == v && at <= va % PGSIZE < at + |src| then Some(src[va % PGSIZE - at])
      else UserByte(st.mem, e, va)
  {
    hide Inv, Pte, Laid, ByteAt, UserByte, Translated;
    var f, u := PageFrame(st, d, v), va / PGSIZE;
    UserFrame(ph, st, d, v);
    StoreUser(ph, st, d, v, Laid(st.mem[f], at, src));
    UserByteIs(ph, st, e, va);
    UserByteIs(ph, Wrote(st, f, Laid(st.mem[f], at, src)), e, va);
    LaidBytes(st.mem[f], at, src, va % PGSIZE);
    if UserPage(Pte(st, e, u)) && !(e == d && u == v) { FramesDiffer(ph, st, d, v, e, u); }
  }

  lemma FramesDiffer(ph: Phys, st: Vm, d: nat, v: nat, e: nat, u: nat)
    requires Inv(ph, st) && v < UPAGES && u < UPAGES && PageFrame(st, d, v) != 0 && !(e == d && u == v)
    ensures PageFrame(st, e, u) != PageFrame(st, d, v)
  {
    UserApart(ph, st, d, v, User(e, u));
  }

  lemma UserFrame(ph: Phys, st: Vm, d: nat, v: nat)
    requires Inv(ph, st) && v < UPAGES && UserPage(Pte(st, d, v))
    ensures 0 < PageFrame(st, d, v) < |st.mem| && FrameOf(Pte(st, d, v)) == PageFrame(st, d, v)
  {
    UserApart(ph, st, d, v, Dir(0));
  }

  /** From va on, users of space d find src; at every other user address everybody finds what was there. */
  ghost predicate Delivered(mem: seq<Page>, mem': seq<Page>, spaces: set<nat>, d: nat, va: nat, src: seq<Byte>) {
    |mem'| == |mem| && forall e: nat, a: Word | e in spaces && e < |mem| && a / PGSIZE < UPAGES ::
      UserByte(mem', e, a) == if e == d && va <= a < va + |src| then Some(src[a - va]) else UserByte(mem, e, a)
  }

  /** The next part of src, up to the end of its page. */
  lemma DeliveredMore(ph: Phys, mem: seq<Page>, st: Vm, d: nat, va: nat, src: seq<Byte>, part: seq<Byte>, v: nat)
    requires Inv(ph, st) && d in st.spaces && Delivered(mem, st.mem, st.spaces, d, va, src)
    requires v == (va + |src|) / PGSIZE < UPAGES && UserPage(Pte(st, d, v)) && (va + |src|) % PGSIZE + |part| <= PGSIZE
    requires 0 < PageFrame(st, d, v) < |st.mem|
    ensures var f := PageFrame(st, d, v);
      Delivered(mem, st.mem[f := Laid(st.mem[f], (va + |src|) % PGSIZE, part)], st.spaces, d, va, src + part)
  {
    hide UserByte, Laid, Pte, Inv, UserPage;
    var f, at := PageFrame(st, d, v), (va + |src|) % PGSIZE;
    var mem' := st.mem[f := Laid(st.mem[f], at, part)];
    forall e: nat, a: Word | e in st.spaces && e < |mem| && a / PGSIZE < UPAGES
      ensures UserByte(mem', e, a) ==
              if e == d && va <= a < va + |src + part| then Some((src + part)[a - va]) else UserByte(mem, e, a)
    {
      StoredBytes(ph, st, d, v, at, part, e, a);
      InPage(a, v, at, |part|, va + |src|);
    }
  }

  lemma InPage(a: nat, v: nat, at: nat, n: nat, start: nat)
    requires v == start / PGSIZE && at == start % PGSIZE && at + n <= PGSIZE
    ensures a / PGSIZE == v && at <= a % PGSIZE < at + n <==> start <= a < start + n
    ensures start <= a < start + n ==> a % PGSIZE - at == a - start
  {
  }
}
