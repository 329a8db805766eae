/**
  malloc, free and morecore of umalloc.c (section 8.7 of "The C Programming
  Language", 2nd edition), as they rewrite headers in place.
 */
module Umalloc {
  import opened Common
  import opened HeapList

  const INT_LIMIT := 0x8000_0000
  const UNIT := 8  // sizeof(Header)

  /** The request in units, header included, in 32-bit arithmetic. */
  function Units(nbytes: nat): nat {
    (nbytes + UNIT - 1) % UINT_LIMIT / UNIT + 1
  }

  predicate Within(a: nat, n: nat, u: nat) {
    a <= u < a + n
  }

  ghost function Range(a: nat, n: nat): set<nat> {
    set u: nat | u < a + n && Within(a, n, u)
  }

  /** free's scan settles on the node behind which bp belongs. */
  ghost predicate Place(nodes: seq<nat>, k: nat, bp: nat) {
    k < |nodes| && nodes[k] < bp && (k + 1 < |nodes| ==> bp < nodes[k + 1])
  }

  lemma {:induction false} PlaceExists(base: nat, nodes: seq<nat>, ptr: map<nat, nat>, size: map<nat, nat>, bp: nat,
      n: nat)
    returns (k: nat)
    requires Circle(base, nodes, ptr, size) && bp > base && bp !in nodes && 1 <= n <= |nodes|
    requires n < |nodes| ==> bp < nodes[n]
    ensures Place(nodes, k, bp)
    decreases n
  {
    if nodes[n - 1] < bp {
      k := n - 1;
    } else {
      k := PlaceExists(base, nodes, ptr, size, bp, n - 1);
    }
  }

  lemma Ascending(base: nat, nodes: seq<nat>, ptr: map<nat, nat>, size: map<nat, nat>, i: nat, j: nat)
    requires Circle(base, nodes, ptr, size) && i <= j < |nodes|
    ensures nodes[i] <= nodes[j]
  {
    assert i < j ==> Before(nodes, size, i, j);
  }

  lemma PlaceUnique(base: nat, nodes: seq<nat>, ptr: map<nat, nat>, size: map<nat, nat>, bp: nat, k: nat, i: nat)
    requires Circle(base, nodes, ptr, size) && Place(nodes, k, bp) && Place(nodes, i, bp)
    ensures i == k
  {
    if i < k { Ascending(base, nodes, ptr, size, i + 1, k); }
    if k < i { Ascending(base, nodes, ptr, size, k + 1, i); }
  }

  class Heap {
    const base: nat
    var ptr: map<nat, nat>
    var size: map<nat, nat>
    var freep: nat
    ghost var nodes: seq<nat>
    ghost var live: map<nat, nat>
    ghost var claimed: set<nat>   // units that morecore took for granted
    ghost var obtained: set<nat>  // units that the process has from sbrk

    /** The list has been set up; nothing is said about who owns what. */
    ghost predicate Listed()
      reads this
    {
      Circle(base, nodes, ptr, size) && freep in nodes
    }

    /** Live and free blocks partition what the allocator believes to have. */
    ghost predicate Claims()
      reads this
    {
      && base > 0
      && if freep == 0 then nodes == [] && live == map[] && claimed == {}
         else Listed() && Partition(base, nodes, size, live, claimed)
    }

    /** And that is exactly what it has. */
    ghost predicate Valid()
      reads this
    {
      Claims() && claimed == obtained
    }

    constructor (base: nat)
      requires base > 0
      ensures Valid() && live == map[] && obtained == {} && this.base == base
    {
      this.base := base;
      ptr, size, freep := map[], map[], 0;
      nodes, live, claimed, obtained := [], map[], {}, {};
    }

    /** The for loop of free. */
    method FindPlace(bp: nat) returns (p: nat, ghost k: nat)
      requires Listed() && bp > base && bp !in nodes
      ensures Place(nodes, k, bp) && p == nodes[k]
    {
      ghost var n := |nodes|;
      k := PlaceExists(base, nodes, ptr, size, bp, n);
      ghost var i :| 0 <= i < n && nodes[i] == freep;
      p := freep;
      assert NodeOk(nodes, ptr, size, i);
      while !(bp > p && bp < ptr[p])
        invariant 0 <= i < n && p == nodes[i] && p in ptr && ptr[p] == Succ(nodes, i)
        decreases if i <= k then k - i else k + n - i
      {
        if i + 1 < n { assert Before(nodes, size, i, i + 1); }
        if i > 0 { assert Before(nodes, size, 0, i); }
        if p >= ptr[p] && (bp > p || bp < ptr[p]) {
          break;
        }
        p := ptr[p];
        i := if i + 1 < n then i + 1 else 0;
        assert NodeOk(nodes, ptr, size, i);
      }
      if i + 1 < n { assert Before(nodes, size, i, i + 1); }
      if i > 0 { assert Before(nodes, size, 0, i); }
      assert Place(nodes, i, bp);
      PlaceUnique(base, nodes, ptr, size, bp, k, i);
    }

    /**
      The body of free: the block goes back on the list, merged with the free
      blocks it touches.
     */
    method PutBack(bp: nat)
      requires Listed() && bp in size && bp > base && Outside(nodes, size, bp, size[bp])
      modifies this`ptr, this`size, this`freep, this`nodes
      ensures Listed()
      ensures forall u: nat ::
          InFree(nodes, size, u) <==> InFree(old(nodes), old(size), u) || Within(bp, old(size)[bp], u)
      ensures forall a | a in old(size) && a !in old(nodes) && a != bp :: a in size && size[a] == old(size)[a]
      ensures AnyFits(nodes, size, old(size)[bp])
    {
      hide Circle, InFree;
      var n := size[bp];
      ghost var nodes0, ptr0, size0 := nodes, ptr, size;
      assert bp !in nodes by { NotANode(base, nodes, ptr, size, bp, n); }
      var p: nat;
      ghost var k: nat;
      p, k := FindPlace(bp);
      Neighbours(base, nodes, ptr, size, bp, n, k);
      if bp + size[bp] == ptr[p] {
        size := size[bp := size[bp] + size[ptr[p]]];
        ptr := ptr[bp := ptr[ptr[p]]];
      } else {
        ptr := ptr[bp := ptr[p]];
      }
      if p + size[p] == bp {
        size := size[p := size[p] + size[bp]];
        ptr := ptr[p := ptr[bp]];
      } else {
        ptr := ptr[p := bp];
      }
      freep := p;
      nodes := AfterPut(nodes0, size0, bp, n, k);
      MergedCircle(base, nodes0, ptr0, size0, bp, n, k, ptr, size);
      MergedCovers(base, nodes0, ptr0, size0, bp, n, k, ptr, size);
    }

    /** free() of a live block: its units become free, nothing else moves. */
    method Free(bp: nat)
      requires Valid() && bp in live
      modifies this`ptr, this`size, this`freep, this`nodes, this`live
      ensures Valid() && freep != 0 && live == old(live) - {bp}
      ensures forall u: nat ::
          InFree(nodes, size, u) <==> InFree(old(nodes), old(size), u) || Within(bp, old(live)[bp], u)
    {
      hide Circle, InFree;
      LiveIsOutside(base, nodes, size, live, claimed, bp);
      LiveNotNodes(base, nodes, ptr, size, live, claimed);
      PutBack(bp);
      live := live - {bp};
      FreedPartition(base, old(nodes), old(size), old(live), nodes, size, claimed, bp);
      NodesPositive(base, nodes, ptr, size);
    }

    /**
      morecore(): `grant` is the break that sbrk finds, unless it is out of memory.
      Whether there is memory behind it depends on the sign of the argument.
     */
    method MoreCore(nu: nat, grant: Option<nat>) returns (ok: bool)
      requires Valid() && freep != 0 && nu >= 1
      requires grant.Some? ==> grant.value > base && forall u | u in obtained :: u < grant.value
      modifies this`ptr, this`size, this`freep, this`nodes, this`claimed, this`obtained
      ensures Claims() && freep != 0
      ensures ok <==> grant.Some? && !Vanishes(grant.value, nu)
      ensures !ok ==> nodes == old(nodes) && size == old(size) && freep == old(freep) && claimed == old(claimed)
      ensures ok ==> claimed == old(claimed) + Range(grant.value, CoreSize(nu))
      ensures obtained == if grant.Some? then Supplied(old(obtained), grant.value, nu) else old(obtained)
      ensures ok ==> (Valid() <==> CoreSize(nu) * UNIT < INT_LIMIT)
      ensures ok ==> AnyFits(nodes, size, nu)
    {
      hide Circle, InFree;
      var nu' := if nu < 4096 then 4096 else nu;
      if grant.None? {
        return false;
      }
      var hp := grant.value;
      if Vanishes(hp, nu) {
        obtained := Supplied(obtained, hp, nu);
        return false;
      }
      LiveNotNodes(base, nodes, ptr, size, live, claimed);
      FreshIsOutside(base, nodes, ptr, size, live, claimed, hp, nu');
      size := size[hp := nu'];
      PutBack(hp);
      ghost var g :| Fits(nodes, size, g, nu');
      assert Fits(nodes, size, g, nu);
      claimed := claimed + Range(hp, nu');
      obtained := Supplied(obtained, hp, nu);
      SuppliedIff(old(obtained), hp, nu);
      GrownPartition(base, old(nodes), old(size), live, nodes, size, old(claimed), hp, nu');
      NodesPositive(base, nodes, ptr, size);
      return true;
    }

    /** The end of malloc's search: unlink the block, or cut its tail off. */
    method Take(prevp: nat, p: nat, nunits: nat, ghost j: nat) returns (a: nat)
      requires Claims() && freep != 0 && 1 <= j < |nodes| && nodes[j] == p && nodes[j - 1] == prevp
      requires p in size && size[p] >= nunits >= 1
      modifies this`ptr, this`size, this`freep, this`nodes, this`live
      ensures Claims() && freep == prevp && freep != 0 && a !in old(live) && live == old(live)[a := nunits]
    {
      hide Circle, InFree, Partition;
      a := p;
      TakeFacts(base, nodes, ptr, size, live, claimed, j, nunits);
      if size[p] == nunits {
        ptr := ptr[prevp := ptr[p]];
        nodes := Without(nodes, j);
      } else {
        size := size[p := size[p] - nunits];
        a := p + size[p];
        size := size[a := nunits];
        assert size == Cut(nodes, old(size), j, nunits);
      }
      freep := prevp;
      assert freep in nodes && Circle(base, nodes, ptr, size);

      live := live[a := nunits];
      NodesPositive(base, nodes, ptr, size);
    }

    /**
      malloc(): succeeds without sbrk when some free block is large enough;
      otherwise it asks sbrk once, and fails only if sbrk does: for want of memory, or
      because the argument takes away all that the process has.  The block holds
      the bytes asked for exactly if neither the rounding nor the argument of
      sbrk goes out of range.
     */
    method Malloc(nbytes: nat, grant: Option<nat>) returns (r: Option<nat>)
      requires Valid() && nbytes < UINT_LIMIT
      requires grant.Some? ==> grant.value > base && forall u | u in obtained :: u < grant.value
      modifies this
      ensures Claims()
      ensures r.None? <==>
                !AnyFits(old(nodes), old(size), Units(nbytes)) && (grant.None? || Vanishes(grant.value, Units(nbytes)))
      ensures r.None? ==> live == old(live) && (grant.None? ==> Valid()) && (grant.Some? ==> obtained == {})
      ensures r.Some? ==> r.value !in old(live) && live == old(live)[r.value := Units(nbytes)]
      ensures obtained ==
                if grant.None? || AnyFits(old(nodes), old(size), Units(nbytes)) then old(obtained)
                else Supplied(old(obtained), grant.value, Units(nbytes))
      ensures r.Some? ==> (Valid() <==> AnyFits(old(nodes), old(size), Units(nbytes)) || InRange(nbytes))
      ensures r.Some? ==> (Served(obtained, r.value, nbytes) <==> Servable(old(nodes), old(size), nbytes))
    {
      hide Circle, InFree, Partition, AnyFits, Range, CoreSize, Units, Walking, Supplied, Served, Vanishes;
      var nunits := Units(nbytes);
      assert nunits >= 1 by { UnitsPositive(nbytes); }
      var prevp := freep;
      if prevp == 0 {
        ptr, size := ptr[base := base], size[base := 0];
        freep, prevp := base, base;
        nodes := [base];
        JustBase(base, ptr, size, nunits);
        NothingFits(old(size), nunits);
      }
      ghost var nodes0, ptr0, size0 := nodes, ptr, size;
      ghost var f, c := WalkStart(base, nodes, ptr, size, freep, nunits);
      ghost var refilled := false;
      var p := ptr[prevp];
      while true
        invariant Claims() && freep != 0 && Walking(nodes, size, freep, f, c, prevp, p, nunits)
        invariant live == old(live) && c <= |nodes|
        invariant !refilled ==> nodes == nodes0 && size == size0 && claimed == obtained == old(obtained)
        invariant refilled ==> grant.Some? && !Vanishes(grant.value, nunits)
        invariant refilled ==> obtained == Supplied(old(obtained), grant.value, nunits)
        invariant refilled ==> (claimed == obtained <==> InRange(nbytes))
        invariant refilled ==> AnyFits(nodes, size, nunits) && !AnyFits(nodes0, size0, nunits)
        decreases !refilled, |nodes| - c
      {
        ghost var j := WalkAt(base, nodes, ptr, size, freep, f, c, prevp, p, nunits);
        if size[p] >= nunits {
          var a := Take(prevp, p, nunits, j);
          if !refilled || InRange(nbytes) {
            ServedWhenBacked(base, nodes, size, live, obtained, a, nbytes);
          } else {
            PhantomNotServed(base, nodes0, ptr0, size0, old(live), old(obtained), grant.value, nodes, size, live,
              claimed, a, nbytes);
          }
          return Some(a);
        }
        if p == freep {
          assert !refilled;
          var ok := MoreCore(nunits, grant);
          if !ok {
            if grant.Some? { VanishTakesAll(old(obtained), grant.value, nunits); }
            return None;
          }
          p := freep;
          refilled := true;
          f, c := WalkStart(base, nodes, ptr, size, freep, nunits);
        } else {
          c := c + 1;
        }
        prevp, p := p, ptr[p];
      }
    }
  }

  /** Some block on the list holds n units. */
  ghost predicate AnyFits(nodes: seq<nat>, size: map<nat, nat>, n: nat) {
    exists g :: Fits(nodes, size, g, n)
  }

  /** Malloc's walk: c nodes after freep have been looked at, none of them fits. */
  ghost predicate Walking(nodes: seq<nat>, size: map<nat, nat>, freep: nat, f: nat, c: nat, prevp: nat, p: nat,
      n: nat) {
    && f < |nodes| && nodes[f] == freep && c < |nodes|
    && prevp == nodes[Cyc(|nodes|, f, c - 1)] && p == nodes[Cyc(|nodes|, f, c)]
    && forall d | 0 <= d < c :: !Fits(nodes, size, Cyc(|nodes|, f, d), n)
  }

  lemma WalkStart(base: nat, nodes: seq<nat>, ptr: map<nat, nat>, size: map<nat, nat>, freep: nat,
      n: nat) returns (f: nat, c: nat)
    requires Circle(base, nodes, ptr, size) && freep in nodes
    ensures freep in ptr && c == 0 && Walking(nodes, size, freep, f, c, freep, ptr[freep], n)
  {
    f :| f < |nodes| && nodes[f] == freep;
    c := 0;
    OnCircle(base, nodes, ptr, size, f, -1);
  }

  /** Either p fits, or the walk goes on, or it has come full circle in vain. */
  lemma WalkAt(base: nat, nodes: seq<nat>, ptr: map<nat, nat>, size: map<nat, nat>, freep: nat, f: nat, c: nat,
               prevp: nat, p: nat, n: nat) returns (j: nat)
    requires Circle(base, nodes, ptr, size) && Walking(nodes, size, freep, f, c, prevp, p, n) && n >= 1
    ensures p in size && p in ptr && j < |nodes| && nodes[j] == p
    ensures size[p] >= n ==> j >= 1 && prevp == nodes[j - 1] && AnyFits(nodes, size, n)
    ensures size[p] < n && p == freep ==> !AnyFits(nodes, size, n)
    ensures size[p] < n && p != freep ==> Walking(nodes, size, freep, f, c + 1, p, ptr[p], n) && c + 1 < |nodes|
  {
    j := Cyc(|nodes|, f, c);
    OnCircle(base, nodes, ptr, size, f, c);
    if size[p] >= n {
      assert Fits(nodes, size, j, n);
    } else if p == freep {
      NoneFits(nodes, size, f, n);
    }
  }

  /** The index of the node visited c steps after the one behind f. */
  function Cyc(n: int, f: int, c: int): int {
    if f + 1 + c < n then f + 1 + c else f + 1 + c - n
  }

  /** What malloc knows at any point of its walk. */
  lemma OnCircle(base: nat, nodes: seq<nat>, ptr: map<nat, nat>, size: map<nat, nat>, f: nat, c: int)
    requires Circle(base, nodes, ptr, size) && f < |nodes| && -1 <= c < |nodes|
    ensures var j := Cyc(|nodes|, f, c);
      && 0 <= j < |nodes| && nodes[j] in size && nodes[j] in ptr
      && ptr[nodes[j]] == nodes[Cyc(|nodes|, f, if c + 1 < |nodes| then c + 1 else 0)]
      && (size[nodes[j]] > 0 ==> j >= 1 && (c >= 0 ==> Cyc(|nodes|, f, c - 1) == j - 1))
      && (nodes[j] == nodes[f] <==> c == -1 || c == |nodes| - 1) && Cyc(|nodes|, f, -1) == f
  {
    var j := Cyc(|nodes|, f, c);
    assert NodeOk(nodes, ptr, size, j);
    NodesDistinct(base, nodes, ptr, size, f);
  }

  /** A full turn without a fit: nothing on the list fits. */
  lemma NoneFits(nodes: seq<nat>, size: map<nat, nat>, f: nat, n: nat)
    requires f < |nodes| && forall d | 0 <= d < |nodes| :: !Fits(nodes, size, Cyc(|nodes|, f, d), n)
    ensures forall i :: !Fits(nodes, size, i, n)
  {
    forall i
      ensures !Fits(nodes, size, i, n)
    {
      if 0 <= i < |nodes| {
        var d := if i > f then i - f - 1 else i - f - 1 + |nodes|;
        assert Cyc(|nodes|, f, d) == i;
      }
    }
  }

  /** What morecore passes to sbrk: a 32-bit product, as a signed number. */
  function SbrkArg(nu: nat): int {
    var m := CoreSize(nu) * UNIT % UINT_LIMIT;
    if m < INT_LIMIT then m else m - UINT_LIMIT
  }

  /** The product for this request is a positive int. */
  predicate InRange(nbytes: nat) {
    CoreSize(Units(nbytes)) * UNIT < INT_LIMIT
  }

  /**
    The units that the process has after sbrk(SbrkArg(nu)) at break `brk`.
    growproc adds memory for a positive argument.  For a negative one it takes
    memory away, unless the new size wraps, in which case nothing changes.
   */
  ghost function Supplied(obtained: set<nat>, brk: nat, nu: nat): set<nat> {
    var n := SbrkArg(nu);
    if n > 0 then obtained + Range(brk, n / UNIT)
    else if brk * UNIT + n < 0 then obtained
    else set u | u in obtained && (u + 1) * UNIT <= brk * UNIT + n
  }

  /**
    The argument is minus the size of the process: growproc frees everything, and
    takes the new size, zero, for a failure.
   */
  predicate Vanishes(brk: nat, nu: nat) {
    SbrkArg(nu) < 0 && brk * UNIT + SbrkArg(nu) == 0
  }

  lemma VanishTakesAll(obtained: set<nat>, brk: nat, nu: nat)
    requires Vanishes(brk, nu)
    ensures Supplied(obtained, brk, nu) == {}
  {
  }

  /** What sbrk is asked for: 32 KB for all small requests, else the request and a header, in whole units. */
  lemma SbrkAskedFor(nbytes: nat)
    requires nbytes <= 0x7FFF_FFF0
    ensures SbrkArg(Units(nbytes)) == if nbytes <= 0x7FF8 then 0x8000 else (nbytes + 7) / 8 * 8 + 8
  {
  }

  /** A request of just under 4 GB by a process of 64 KB. */
  lemma RequestThatVanishes()
    ensures Units(0xFFFE_FFF8) == 0x1FFF_E000 && SbrkArg(Units(0xFFFE_FFF8)) == -0x1_0000
    ensures Vanishes(0x2000, Units(0xFFFE_FFF8))
  {
  }

  lemma SuppliedIff(obtained: set<nat>, brk: nat, nu: nat)
    requires forall u | u in obtained :: u < brk
    ensures Supplied(obtained, brk, nu) == obtained + Range(brk, CoreSize(nu)) <==> CoreSize(nu) * UNIT < INT_LIMIT
    ensures SbrkArg(nu) <= 0 ==> Supplied(obtained, brk, nu) <= obtained
  {
    var m := CoreSize(nu) * UNIT;
    if m < INT_LIMIT {
      assert m % UINT_LIMIT == m;
    } else {
      var top := brk + CoreSize(nu) - 1;
      assert top in Range(brk, CoreSize(nu));
      assert SbrkArg(nu) < m;
      assert top !in Supplied(obtained, brk, nu);
    }
  }

  /** The block at a is memory of the process, and holds the bytes asked for behind its header. */
  ghost predicate Served(obtained: set<nat>, a: nat, nbytes: nat) {
    Range(a, Units(nbytes)) <= obtained && (Units(nbytes) - 1) * UNIT >= nbytes
  }

  /** Rounding up does not wrap, and a free block fits or the argument of sbrk is positive. */
  ghost predicate Servable(nodes: seq<nat>, size: map<nat, nat>, nbytes: nat) {
    nbytes + UNIT - 1 < UINT_LIMIT && (AnyFits(nodes, size, Units(nbytes)) || InRange(nbytes))
  }

  /**
    Rounding up does not wrap: otherwise, for the requests 2^32 - 7 .. 2^32 - 1,
    the block has one unit, the header.
   */
  lemma CapacityIff(nbytes: nat)
    requires nbytes < UINT_LIMIT
    ensures (Units(nbytes) - 1) * UNIT >= nbytes <==> nbytes + UNIT - 1 < UINT_LIMIT
    ensures nbytes + UNIT - 1 >= UINT_LIMIT ==> Units(nbytes) == 1
    ensures Units(nbytes) * UNIT <= UINT_LIMIT
  {
    var m := nbytes + UNIT - 1;
    if m < UINT_LIMIT {
      assert m % UINT_LIMIT == m;
      assert m / UNIT * UNIT >= m - (UNIT - 1);
    } else {
      assert m % UINT_LIMIT == m - UINT_LIMIT < UNIT;
    }
  }

  /** Half of the address space: the product is negative as an int, and sbrk adds nothing. */
  lemma TwoGigabytes()
    ensures Units(0x8000_0000) == 0x1000_0001 && SbrkArg(Units(0x8000_0000)) == -0x7FFF_FFF8
    ensures !InRange(0x8000_0000) && 0x8000_0000 + UNIT - 1 < UINT_LIMIT
  {
  }

  lemma ServedWhenBacked(base: nat, nodes: seq<nat>, size: map<nat, nat>, live: map<nat, nat>, obtained: set<nat>,
      a: nat, nbytes: nat)
    requires Partition(base, nodes, size, live, obtained) && a in live && live[a] == Units(nbytes)
    requires nbytes < UINT_LIMIT
    ensures Served(obtained, a, nbytes) <==> nbytes + UNIT - 1 < UINT_LIMIT
  {
    hide InFree;
    CapacityIff(nbytes);
    forall u | u in Range(a, Units(nbytes))
      ensures u in obtained
    {
      assert InBlock(live, a, u);
    }
  }

  /** A run of free units lies in one free block. */
  lemma RunFits(base: nat, nodes: seq<nat>, ptr: map<nat, nat>, size: map<nat, nat>, a: nat, n: nat)
    requires Circle(base, nodes, ptr, size) && n >= 1 && forall u: nat | Within(a, n, u) :: InFree(nodes, size, u)
    ensures AnyFits(nodes, size, n)
  {
    assert Within(a, n, a);
    var g :| InNode(nodes, size, g, a);
    var e := nodes[g] + size[nodes[g]];
    EndNotFree(base, nodes, ptr, size, g);
    assert Within(a, n, e) <==> e < a + n;
    assert Fits(nodes, size, g, n);
  }

  /** The unit behind a free block is not free. */
  lemma EndNotFree(base: nat, nodes: seq<nat>, ptr: map<nat, nat>, size: map<nat, nat>, g: nat)
    requires Circle(base, nodes, ptr, size) && 1 <= g < |nodes| && nodes[g] in size
    ensures !InFree(nodes, size, nodes[g] + size[nodes[g]])
  {
    var e := nodes[g] + size[nodes[g]];
    forall h
      ensures !InNode(nodes, size, h, e)
    {
      assert 1 <= h < g ==> Before(nodes, size, h, g);
      assert g < h < |nodes| ==> Before(nodes, size, g, h);
    }
  }

  /** A block from a call of sbrk with no positive argument is not all memory of the process. */
  lemma PhantomNotServed(base: nat, nodes: seq<nat>, ptr: map<nat, nat>, size: map<nat, nat>, live: map<nat, nat>,
                         obtained: set<nat>, brk: nat, nodes': seq<nat>, size': map<nat, nat>, live': map<nat, nat>,
                         claimed': set<nat>, a: nat, nbytes: nat)
    requires Circle(base, nodes, ptr, size) && Partition(base, nodes, size, live, obtained)
    requires !AnyFits(nodes, size, Units(nbytes)) && !InRange(nbytes) && nbytes < UINT_LIMIT
    requires forall u | u in obtained :: u < brk
    requires a !in live && live' == live[a := Units(nbytes)] && Partition(base, nodes', size', live', claimed')
    ensures !Served(Supplied(obtained, brk, Units(nbytes)), a, nbytes)
  {
    hide InFree, Circle;
    var n := Units(nbytes);
    UnitsPositive(nbytes);
    NoUnits(nbytes);
    SuppliedIff(obtained, brk, n);
    if Range(a, n) <= Supplied(obtained, brk, n) {
      assert forall b, u | InBlock(live, b, u) :: InBlock(live', b, u);
      forall u: nat | Within(a, n, u)
        ensures InFree(nodes, size, u)
      {
        assert u in Range(a, n);
        assert InBlock(live', a, u);
      }
      RunFits(base, nodes, ptr, size, a, n);
    }
  }

  lemma NoUnits(nbytes: nat)
    requires !InRange(nbytes) && nbytes < UINT_LIMIT
    ensures SbrkArg(Units(nbytes)) <= 0
  {
    CapacityIff(nbytes);
    var m := CoreSize(Units(nbytes)) * UNIT;
    assert INT_LIMIT <= m <= UINT_LIMIT;
    assert m < UINT_LIMIT ==> m % UINT_LIMIT == m;
  }

  lemma UnitsPositive(nbytes: nat)
    ensures Units(nbytes) >= 1
  {
  }

  lemma NothingFits(size: map<nat, nat>, n: nat)
    ensures !AnyFits([], size, n)
  {
  }

  lemma JustBase(base: nat, ptr: map<nat, nat>, size: map<nat, nat>, n: nat)
    requires base in ptr && base in size && ptr[base] == base && size[base] == 0 && n >= 1
    ensures !AnyFits([base], size, n)
    ensures Circle(base, [base], ptr, size) && Partition(base, [base], size, map[], {})
  {
  }

  // ------------------------------------------------ taking a block off

  lemma RemovedCircle(base: nat, nodes: seq<nat>, ptr: map<nat, nat>, size: map<nat, nat>, j: nat)
    requires Circle(base, nodes, ptr, size) && 1 <= j < |nodes| && nodes[j] in ptr
    ensures Circle(base, Without(nodes, j), ptr[nodes[j - 1] := ptr[nodes[j]]], size)
  {
    var nodes' := Without(nodes, j);
    var ptr' := ptr[nodes[j - 1] := ptr[nodes[j]]];
    assert NodeOk(nodes, ptr, size, j);
    NodesDistinct(base, nodes, ptr, size, j - 1);
    forall h: nat | h < |nodes'|
      ensures NodeOk(nodes', ptr', size, h)
    {
      assert NodeOk(nodes, ptr, size, if h < j then h else h + 1);
    }
    forall h: nat, g: nat | h < g < |nodes'|
      ensures Before(nodes', size, h, g)
    {
      assert Before(nodes, size, if h < j then h else h + 1, if g < j then g else g + 1);
    }
  }

  /** The free blocks are pairwise disjoint. */
  lemma OneNode(base: nat, nodes: seq<nat>, ptr: map<nat, nat>, size: map<nat, nat>, i: int, j: int, u: nat)
    requires Circle(base, nodes, ptr, size) && InNode(nodes, size, i, u) && InNode(nodes, size, j, u)
    ensures i == j
  {
    assert i < j ==> Before(nodes, size, i, j);
    assert j < i ==> Before(nodes, size, j, i);
  }

  lemma RemovedCovers(base: nat, nodes: seq<nat>, ptr: map<nat, nat>, size: map<nat, nat>, j: nat, u: nat)
    requires Circle(base, nodes, ptr, size) && 1 <= j < |nodes| && nodes[j] in size
    ensures InFree(Without(nodes, j), size, u) <==> InFree(nodes, size, u) && !Within(nodes[j], size[nodes[j]], u)
  {
    var nodes' := Without(nodes, j);
    if h :| InNode(nodes', size, h, u) {
      var g := if h < j then h else h + 1;
      assert InNode(nodes, size, g, u);
      if Within(nodes[j], size[nodes[j]], u) {
        assert InNode(nodes, size, j, u);
        OneNode(base, nodes, ptr, size, g, j, u);
      }
    }
    if h :| InNode(nodes, size, h, u) {
      assert h != j ==> InNode(nodes', size, if h < j then h else h - 1, u);
    }
  }

  function Cut(nodes: seq<nat>, size: map<nat, nat>, j: nat, n: nat): map<nat, nat>
    requires j < |nodes| && nodes[j] in size && size[nodes[j]] > n
  {
    size[nodes[j] := size[nodes[j]] - n][nodes[j] + size[nodes[j]] - n := n]
  }

  lemma TailNotANode(base: nat, nodes: seq<nat>, ptr: map<nat, nat>, size: map<nat, nat>, j: nat, n: nat)
    requires Circle(base, nodes, ptr, size) && 1 <= j < |nodes| && nodes[j] in size && size[nodes[j]] > n >= 1
    ensures nodes[j] + size[nodes[j]] - n !in nodes
  {
    var q := nodes[j] + size[nodes[j]] - n;
    forall i: nat | i < |nodes|
      ensures nodes[i] != q
    {
      assert if i < j then Before(nodes, size, i, j) else i == j || Before(nodes, size, j, i);
    }
  }

  lemma CutCircle(base: nat, nodes: seq<nat>, ptr: map<nat, nat>, size: map<nat, nat>, j: nat, n: nat)
    requires Circle(base, nodes, ptr, size) && 1 <= j < |nodes| && nodes[j] in size && size[nodes[j]] > n >= 1
    ensures Circle(base, nodes, ptr, Cut(nodes, size, j, n))
  {
    var size' := Cut(nodes, size, j, n);
    TailNotANode(base, nodes, ptr, size, j, n);
    NodesDistinct(base, nodes, ptr, size, j);
    forall i: nat | i < |nodes|
      ensures NodeOk(nodes, ptr, size', i)
    {
      assert NodeOk(nodes, ptr, size, i);
    }
    forall h: nat, g: nat | h < g < |nodes|
      ensures Before(nodes, size', h, g)
    {
      assert Before(nodes, size, h, g);
    }
  }

  lemma CutCovers(base: nat, nodes: seq<nat>, ptr: map<nat, nat>, size: map<nat, nat>, j: nat, n: nat, u: nat)
    requires Circle(base, nodes, ptr, size) && 1 <= j < |nodes| && nodes[j] in size && size[nodes[j]] > n >= 1
    ensures InFree(nodes, Cut(nodes, size, j, n), u)
       <==> InFree(nodes, size, u) && !Within(nodes[j] + size[nodes[j]] - n, n, u)
  {
    var size' := Cut(nodes, size, j, n);
    var q := nodes[j] + size[nodes[j]] - n;
    TailNotANode(base, nodes, ptr, size, j, n);
    NodesDistinct(base, nodes, ptr, size, j);
    if h :| InNode(nodes, size', h, u) {
      assert InNode(nodes, size, h, u);
      if Within(q, n, u) {
        assert InNode(nodes, size, j, u);
        OneNode(base, nodes, ptr, size, h, j, u);
      }
    }
    if h :| InNode(nodes, size, h, u) && !Within(q, n, u) {
      assert InNode(nodes, size', h, u);
    }
  }

  lemma TakenPartition(base: nat, nodes: seq<nat>, size: map<nat, nat>, live: map<nat, nat>, obtained: set<nat>,
                       nodes': seq<nat>, size': map<nat, nat>, a: nat, n: nat)
    requires Partition(base, nodes, size, live, obtained) && n >= 1 && a in size' && size'[a] == n
    requires forall u: nat :: InFree(nodes', size', u) <==> InFree(nodes, size, u) && !Within(a, n, u)
    requires forall u: nat | Within(a, n, u) :: InFree(nodes, size, u)
    requires forall b | b in live && b != a :: b in size' && size'[b] == size[b]
    ensures a !in live && Partition(base, nodes', size', live[a := n], obtained)
  {
    hide InFree;
    assert Within(a, n, a);
    assert a in live ==> InBlock(live, a, a);
    var live' := live[a := n];
    forall u: nat
      ensures InLive(live', u) <==> InLive(live, u) || Within(a, n, u)
    {
      if b :| InBlock(live, b, u) { assert InBlock(live', b, u); }
      if b :| InBlock(live', b, u) { assert b == a || InBlock(live, b, u); }
      if Within(a, n, u) { assert InBlock(live', a, u); }
    }
    forall b, c, u | b in live' && c in live' && b != c
      ensures !(InBlock(live', b, u) && InBlock(live', c, u))
    {
      assert b != a ==> InBlock(live', b, u) == InBlock(live, b, u);
      assert c != a ==> InBlock(live', c, u) == InBlock(live, c, u);
      assert InBlock(live', a, u) ==> Within(a, n, u);
    }
  }

  /** Both ways of taking n units from node j keep the heap in order. */
  lemma TakeFacts(base: nat, nodes: seq<nat>, ptr: map<nat, nat>, size: map<nat, nat>, live: map<nat, nat>,
                  obtained: set<nat>, j: nat, n: nat)
    requires Circle(base, nodes, ptr, size) && Partition(base, nodes, size, live, obtained)
    requires 1 <= j < |nodes| && nodes[j] in size && size[nodes[j]] >= n >= 1
    ensures nodes[j] in ptr
    ensures size[nodes[j]] == n ==>
              && Circle(base, Without(nodes, j), ptr[nodes[j - 1] := ptr[nodes[j]]], size)
              && nodes[j] !in live && Partition(base, Without(nodes, j), size, live[nodes[j] := n], obtained)
              && nodes[j - 1] in Without(nodes, j)
    ensures size[nodes[j]] > n ==>
              && Circle(base, nodes, ptr, Cut(nodes, size, j, n))
              && var q := nodes[j] + size[nodes[j]] - n;
                 q !in live && Partition(base, nodes, Cut(nodes, size, j, n), live[q := n], obtained)
  {
    assert NodeOk(nodes, ptr, size, j);
    hide Circle, Partition;
    if size[nodes[j]] == n {
      RemovedCircle(base, nodes, ptr, size, j);
      assert Without(nodes, j)[j - 1] == nodes[j - 1];
      RemoveTaken(base, nodes, ptr, size, live, obtained, j, n);
    } else {
      CutCircle(base, nodes, ptr, size, j, n);
      CutTaken(base, nodes, ptr, size, live, obtained, j, n);
    }
  }

  lemma RemoveTaken(base: nat, nodes: seq<nat>, ptr: map<nat, nat>, size: map<nat, nat>, live: map<nat, nat>,
                    obtained: set<nat>, j: nat, n: nat)
    requires Circle(base, nodes, ptr, size) && Partition(base, nodes, size, live, obtained)
    requires 1 <= j < |nodes| && nodes[j] in size && size[nodes[j]] == n >= 1
    ensures nodes[j] !in live && Partition(base, Without(nodes, j), size, live[nodes[j] := n], obtained)
  {
    hide Circle, Without;
    forall u: nat { RemovedCovers(base, nodes, ptr, size, j, u); }
    assert forall u: nat | Within(nodes[j], n, u) :: InNode(nodes, size, j, u);
    TakenPartition(base, nodes, size, live, obtained, Without(nodes, j), size, nodes[j], n);
  }

  lemma CutTaken(base: nat, nodes: seq<nat>, ptr: map<nat, nat>, size: map<nat, nat>, live: map<nat, nat>,
                 obtained: set<nat>, j: nat, n: nat)
    requires Circle(base, nodes, ptr, size) && Partition(base, nodes, size, live, obtained)
    requires 1 <= j < |nodes| && nodes[j] in size && size[nodes[j]] > n >= 1
    ensures var q := nodes[j] + size[nodes[j]] - n;
      q !in live && Partition(base, nodes, Cut(nodes, size, j, n), live[q := n], obtained)
  {
    hide Circle;
    LiveNotNodes(base, nodes, ptr, size, live, obtained);
    forall u: nat { CutCovers(base, nodes, ptr, size, j, n, u); }
    var q := nodes[j] + size[nodes[j]] - n;
    assert forall u: nat | Within(q, n, u) :: InNode(nodes, size, j, u);
    TakenPartition(base, nodes, size, live, obtained, nodes, Cut(nodes, size, j, n), q, n);
  }

  function CoreSize(nu: nat): nat {
    if nu < 4096 then 4096 else nu
  }

  lemma NodesPositive(base: nat, nodes: seq<nat>, ptr: map<nat, nat>, size: map<nat, nat>)
    requires Circle(base, nodes, ptr, size)
    ensures forall a | a in nodes :: a >= base
  {
    forall i: nat | i < |nodes|
      ensures nodes[i] >= base
    {
      Ascending(base, nodes, ptr, size, 0, i);
    }
  }

  lemma LiveIsOutside(base: nat, nodes: seq<nat>, size: map<nat, nat>, live: map<nat, nat>, obtained: set<nat>, bp: nat)
    requires Partition(base, nodes, size, live, obtained) && bp in live
    ensures bp in size && size[bp] == live[bp] && bp > base && Outside(nodes, size, bp, live[bp])
  {
    hide InFree;
    assert InBlock(live, bp, bp);
    assert bp in obtained;
    forall u: nat | Within(bp, live[bp], u)
      ensures !InFree(nodes, size, u)
    {
      assert InBlock(live, bp, u);
    }
  }

  lemma LiveNotNodes(base: nat, nodes: seq<nat>, ptr: map<nat, nat>, size: map<nat, nat>, live: map<nat, nat>,
      obtained: set<nat>)
    requires Circle(base, nodes, ptr, size) && Partition(base, nodes, size, live, obtained)
    ensures forall a | a in live :: a !in nodes && a > base && a in obtained
  {
    forall a | a in live
      ensures a !in nodes && a > base && a in obtained
    {
      LiveIsOutside(base, nodes, size, live, obtained, a);
      assert InBlock(live, a, a);
      NotANode(base, nodes, ptr, size, a, live[a]);
    }
  }

  lemma FreshIsOutside(base: nat, nodes: seq<nat>, ptr: map<nat, nat>, size: map<nat, nat>, live: map<nat, nat>,
                       obtained: set<nat>, hp: nat, nu: nat)
    requires Circle(base, nodes, ptr, size) && Partition(base, nodes, size, live, obtained)
    requires hp > base && nu >= 1 && forall u | u in obtained :: u < hp
    ensures Outside(nodes, size, hp, nu) && hp !in nodes && hp !in live
    ensures Circle(base, nodes, ptr, size[hp := nu]) && Outside(nodes, size[hp := nu], hp, nu)
    ensures forall u: nat :: InFree(nodes, size[hp := nu], u) <==> InFree(nodes, size, u)
  {
    assert Outside(nodes, size, hp, nu) by { hide InFree; }
    NotANode(base, nodes, ptr, size, hp, nu);
    assert hp in live ==> hp in obtained by { assert hp in live ==> InBlock(live, hp, hp); }
    var size' := size[hp := nu];
    forall i: nat | i < |nodes|
      ensures NodeOk(nodes, ptr, size', i)
    {
      assert NodeOk(nodes, ptr, size, i);
    }
    forall i: nat, j: nat | i < j < |nodes|
      ensures Before(nodes, size', i, j)
    {
      assert Before(nodes, size, i, j);
    }
    forall u: nat
      ensures InFree(nodes, size', u) <==> InFree(nodes, size, u)
    {
      if i :| InNode(nodes, size', i, u) { assert InNode(nodes, size, i, u); }
      if i :| InNode(nodes, size, i, u) { assert InNode(nodes, size', i, u); }
    }
  }

  lemma GrownPartition(base: nat, nodes: seq<nat>, size: map<nat, nat>, live: map<nat, nat>,
                       nodes': seq<nat>, size': map<nat, nat>, obtained: set<nat>, hp: nat, nu: nat)
    requires Partition(base, nodes, size, live, obtained) && hp > base && hp !in live
    requires forall u | u in obtained :: u < hp
    requires forall u: nat :: InFree(nodes', size', u) <==> InFree(nodes, size, u) || Within(hp, nu, u)
    requires forall a | a in live :: a !in nodes && a in size' && size'[a] == size[a]
    ensures Partition(base, nodes', size', live, obtained + Range(hp, nu))
  {
    hide InFree;
    forall u: nat
      ensures !(InLive(live, u) && Within(hp, nu, u))
    {
    }
  }

  lemma FreedPartition(base: nat, nodes: seq<nat>, size: map<nat, nat>, live: map<nat, nat>,
                       nodes': seq<nat>, size': map<nat, nat>, obtained: set<nat>, bp: nat)
    requires Partition(base, nodes, size, live, obtained) && bp in live
    requires forall u: nat :: InFree(nodes', size', u) <==> InFree(nodes, size, u) || Within(bp, live[bp], u)
    requires forall a | a in size && a !in nodes && a != bp :: a in size' && size'[a] == size[a]
    requires forall a | a in live :: a !in nodes
    ensures Partition(base, nodes', size', live - {bp}, obtained)
  {
    hide InFree;
    var live' := live - {bp};
    forall u: nat
      ensures InLive(live, u) <==> InLive(live', u) || Within(bp, live[bp], u)
      ensures !(InLive(live', u) && Within(bp, live[bp], u))
    {
      if a :| InBlock(live, a, u) { assert a == bp || InBlock(live', a, u); }
      if a :| InBlock(live', a, u) { assert InBlock(live, a, u); }
      if Within(bp, live[bp], u) { assert InBlock(live, bp, u); }
    }
    forall a, b, u | a in live' && b in live' && a != b
      ensures !(InBlock(live', a, u) && InBlock(live', b, u))
    {
      assert !(InBlock(live, a, u) && InBlock(live, b, u));
    }
  }

  /** The block merges with the free block above it; with the one below it. */
  predicate Up(nodes: seq<nat>, bp: nat, n: nat, k: nat) {
    k + 1 < |nodes| && bp + n == nodes[k + 1]
  }

  predicate Down(nodes: seq<nat>, size: map<nat, nat>, bp: nat, k: nat)
    requires k < |nodes| && nodes[k] in size
  {
    nodes[k] + size[nodes[k]] == bp
  }

  function AfterPut(nodes: seq<nat>, size: map<nat, nat>, bp: nat, n: nat, k: nat): seq<nat>
    requires k < |nodes| && nodes[k] in size
  {
    var down := Down(nodes, size, bp, k);
    Replaced(nodes, if down then k else k + 1, if Up(nodes, bp, n, k) then k + 2 else k + 1, if down then nodes[k]
      else bp)
  }

  /** The header fields after free's stores. */
  ghost predicate Merged(nodes: seq<nat>, ptr: map<nat, nat>, size: map<nat, nat>, bp: nat, n: nat, k: nat,
                         ptr': map<nat, nat>, size': map<nat, nat>)
    requires k < |nodes| && nodes[k] in size && nodes[k] in ptr && Succ(nodes, k) in size && Succ(nodes, k) in ptr
  {
    var p := nodes[k];
    var up := Up(nodes, bp, n, k);
    var size1 := if up then size[bp := n + size[Succ(nodes, k)]] else size[bp := n];
    var ptr1 := ptr[bp := if up then ptr[Succ(nodes, k)] else ptr[p]];
    && size' == (if Down(nodes, size, bp, k) then size1[p := size[p] + size1[bp]] else size1)
    && ptr' == ptr1[p := if Down(nodes, size, bp, k) then ptr1[bp] else bp]
  }

  /** What a free block gains: the block itself, and its neighbours' sizes. */
  function MergedSize(nodes: seq<nat>, size: map<nat, nat>, bp: nat, n: nat, k: nat): nat
    requires k < |nodes| && nodes[k] in size && Succ(nodes, k) in size
  {
    n + (if Up(nodes, bp, n, k) then size[Succ(nodes, k)] else 0) +
      (if Down(nodes, size, bp, k) then size[nodes[k]] else 0)
  }

  lemma MergedRewired(base: nat, nodes: seq<nat>, ptr: map<nat, nat>, size: map<nat, nat>, bp: nat, n: nat, k: nat,
                      ptr': map<nat, nat>, size': map<nat, nat>)
    returns (i: nat, j: nat, b: nat, m: nat)
    requires Circle(base, nodes, ptr, size) && bp > base && Outside(nodes, size, bp, n) && Place(nodes, k, bp)
    requires nodes[k] in size && nodes[k] in ptr && Succ(nodes, k) in size && Succ(nodes, k) in ptr && bp !in nodes
    requires Merged(nodes, ptr, size, bp, n, k, ptr', size')
    ensures i == (if Down(nodes, size, bp, k) then k else k + 1) && j == (if Up(nodes, bp, n, k) then k + 2 else k + 1)
    ensures b == (if Down(nodes, size, bp, k) then nodes[k] else bp) && m == MergedSize(nodes, size, bp, n, k)
    ensures AfterPut(nodes, size, bp, n, k) == Replaced(nodes, i, j, b)
    ensures 1 <= i <= j <= |nodes| && m >= 1 && Rewired(nodes, ptr, size, i, j, b, m, ptr', size')
    ensures nodes[i - 1] in size && nodes[i - 1] + size[nodes[i - 1]] < b && (j < |nodes| ==> b + m < nodes[j])
  {
    Neighbours(base, nodes, ptr, size, bp, n, k);
    i := if Down(nodes, size, bp, k) then k else k + 1;
    j := if Up(nodes, bp, n, k) then k + 2 else k + 1;
    b := if Down(nodes, size, bp, k) then nodes[k] else bp;
    m := MergedSize(nodes, size, bp, n, k);
    if k > 0 { assert Before(nodes, size, k - 1, k) && NodeOk(nodes, ptr, size, k - 1); }
    if k + 2 < |nodes| { assert Before(nodes, size, k + 1, k + 2); }
    NodesDistinct(base, nodes, ptr, size, k);
    forall h: nat | h < |nodes|
      ensures nodes[h] in size && nodes[h] in ptr
    {
      assert NodeOk(nodes, ptr, size, h);
    }
  }

  lemma NodesDistinct(base: nat, nodes: seq<nat>, ptr: map<nat, nat>, size: map<nat, nat>, k: nat)
    requires Circle(base, nodes, ptr, size) && k < |nodes|
    ensures forall h: nat | h < |nodes| && h != k :: nodes[h] != nodes[k]
  {
    forall h: nat | h < |nodes| && h != k
      ensures nodes[h] != nodes[k]
    {
      assert if h < k then Before(nodes, size, h, k) else Before(nodes, size, k, h);
    }
  }

  lemma MergedCircle(base: nat, nodes: seq<nat>, ptr: map<nat, nat>, size: map<nat, nat>, bp: nat, n: nat, k: nat,
                     ptr': map<nat, nat>, size': map<nat, nat>)
    requires Circle(base, nodes, ptr, size) && bp > base && Outside(nodes, size, bp, n) && Place(nodes, k, bp)
    requires nodes[k] in size && nodes[k] in ptr && Succ(nodes, k) in size && Succ(nodes, k) in ptr && bp !in nodes
    requires Merged(nodes, ptr, size, bp, n, k, ptr', size')
    ensures Circle(base, AfterPut(nodes, size, bp, n, k), ptr', size')
    ensures nodes[k] in AfterPut(nodes, size, bp, n, k)
    ensures AnyFits(AfterPut(nodes, size, bp, n, k), size', n)
  {
    hide Circle, Merged, Outside, Rewired;
    var i, j, b, m := MergedRewired(base, nodes, ptr, size, bp, n, k, ptr', size');
    ReplacedCircle(base, nodes, ptr, size, i, j, b, m, ptr', size');
    var nodes' := Replaced(nodes, i, j, b);
    ReplacedAt(nodes, i, j, b, i);
    ReplacedAt(nodes, i, j, b, k);
    assert nodes'[k] == nodes[k];
    assert Fits(nodes', size', i, n) by { RewiredSize(nodes, ptr, size, i, j, b, m, ptr', size'); }
  }

  lemma RewiredSize(nodes: seq<nat>, ptr: map<nat, nat>, size: map<nat, nat>, i: nat, j: nat, b: nat, m: nat,
                    ptr': map<nat, nat>, size': map<nat, nat>)
    requires 1 <= i <= j <= |nodes| && Rewired(nodes, ptr, size, i, j, b, m, ptr', size')
    ensures b in size' && size'[b] == m
  {
  }

  /** The list gains exactly the units of the block. */
  lemma MergedCovers(base: nat, nodes: seq<nat>, ptr: map<nat, nat>, size: map<nat, nat>, bp: nat, n: nat, k: nat,
                     ptr': map<nat, nat>, size': map<nat, nat>)
    requires Circle(base, nodes, ptr, size) && bp > base && Outside(nodes, size, bp, n) && Place(nodes, k, bp)
    requires nodes[k] in size && nodes[k] in ptr && Succ(nodes, k) in size && Succ(nodes, k) in ptr && bp !in nodes
    requires Merged(nodes, ptr, size, bp, n, k, ptr', size')
    ensures forall u: nat ::
        InFree(AfterPut(nodes, size, bp, n, k), size', u) <==> InFree(nodes, size, u) || Within(bp, n, u)
  {
    hide Merged, Rewired;
    Neighbours(base, nodes, ptr, size, bp, n, k);
    hide Circle, Outside, AfterPut;
    var i, j, b, m := MergedRewired(base, nodes, ptr, size, bp, n, k, ptr', size');
    forall u: nat
      ensures InFree(AfterPut(nodes, size, bp, n, k), size', u) <==> InFree(nodes, size, u) || Within(bp, n, u)
    {
      ReplacedCovers(nodes, ptr, size, i, j, b, m, ptr', size', u);
      MergedUnits(nodes, size, bp, n, k, i, j, b, m, u);
    }
  }

  lemma MergedUnits(nodes: seq<nat>, size: map<nat, nat>, bp: nat, n: nat, k: nat, i: nat, j: nat, b: nat, m: nat,
      u: nat)
    requires k < |nodes| && nodes[k] in size && Succ(nodes, k) in size && n >= 1
    requires Down(nodes, size, bp, k) ==> k >= 1
    requires i == (if Down(nodes, size, bp, k) then k else k + 1) && j == (if Up(nodes, bp, n, k) then k + 2 else k + 1)
    requires b == (if Down(nodes, size, bp, k) then nodes[k] else bp) && m == MergedSize(nodes, size, bp, n, k)
    ensures (Within(b, m, u) || exists h :: !(i <= h < j) && InNode(nodes, size, h, u)) <==>
        InFree(nodes, size, u) || Within(bp, n, u)
  {
    if h :| InNode(nodes, size, h, u) {
      assert h == k || h == k + 1 || !(i <= h < j);
    }
    if Within(b, m, u) && !Within(bp, n, u) {
      assert InNode(nodes, size, if u < bp then k else k + 1, u);
    }
  }

  /** No unit of the block at bp is free. */
  ghost predicate Outside(nodes: seq<nat>, size: map<nat, nat>, bp: nat, n: nat) {
    n >= 1 && forall u: nat | Within(bp, n, u) :: !InFree(nodes, size, u)
  }

  ghost predicate Fits(nodes: seq<nat>, size: map<nat, nat>, g: int, n: nat) {
    0 <= g < |nodes| && nodes[g] in size && size[nodes[g]] >= n
  }

  lemma NotANode(base: nat, nodes: seq<nat>, ptr: map<nat, nat>, size: map<nat, nat>, bp: nat, n: nat)
    requires Circle(base, nodes, ptr, size) && bp > base && Outside(nodes, size, bp, n)
    ensures bp !in nodes
  {
    forall i | 0 <= i < |nodes|
      ensures nodes[i] != bp
    {
      assert NodeOk(nodes, ptr, size, i);
      assert Within(bp, n, bp);
      if nodes[i] == bp { assert InNode(nodes, size, i, bp); }
    }
  }

  /** Around its place the block overlaps neither neighbour. */
  lemma Neighbours(base: nat, nodes: seq<nat>, ptr: map<nat, nat>, size: map<nat, nat>, bp: nat, n: nat, k: nat)
    requires Circle(base, nodes, ptr, size) && bp > base && Outside(nodes, size, bp, n) && Place(nodes, k, bp)
    ensures nodes[k] in size && nodes[k] in ptr && ptr[nodes[k]] == Succ(nodes, k) && nodes[0] == base
    ensures nodes[k] + size[nodes[k]] <= bp && (k == 0 ==> nodes[k] + size[nodes[k]] < bp)
    ensures Succ(nodes, k) in size && Succ(nodes, k) in ptr
    ensures k + 1 < |nodes| ==> bp + n <= nodes[k + 1] && ptr[nodes[k + 1]] == Succ(nodes, k + 1)
  {
    assert NodeOk(nodes, ptr, size, k);
    assert Within(bp, n, bp);
    assert !InNode(nodes, size, k, bp);
    if k + 1 < |nodes| {
      assert NodeOk(nodes, ptr, size, k + 1);
      assert InNode(nodes, size, k + 1, nodes[k + 1]);
      assert Within(bp, n, nodes[k + 1]) ==> InFree(nodes, size, nodes[k + 1]);
    } else {
      assert NodeOk(nodes, ptr, size, 0);
    }
  }
}
