/**
  The log on top of the buffer cache: the blocks of a transaction stay pinned in
  their buffers until they are installed, and commit needs one more buffer for
  the log block it writes.
 */
module CommitBuffers {
  import opened Blocks
  import opened BufferList
  import opened BufferCache
  import LogCore

  /** Some buffer is assigned to block b. */
  ghost predicate Named(bs: seq<Buf>, b: nat)
    requires |bs| == NBUF + 1
  {
    exists i :: 0 <= i < NBUF && Names(bs[i], 1, b)
  }

  /** The dirty buffers are exactly those of the logged blocks, and each of these has one. */
  ghost predicate Pins(bs: seq<Buf>, lh: seq<nat>) {
    && |bs| == NBUF + 1
    && (forall i | 0 <= i < NBUF :: bs[i].dirty <==> bs[i].dev == 1 && bs[i].blockno in lh)
    && (forall b | b in lh :: Named(bs, b))
  }

  /** Clean buffers in somebody's hands. */
  ghost function Held(bs: seq<Buf>): set<nat>
    requires |bs| == NBUF + 1
  {
    set i: nat | i < NBUF && bs[i].refcnt > 0 && !bs[i].dirty
  }

  /** bget for block b panics; compare BCache.BGet. */
  ghost predicate Panics(bs: seq<Buf>, b: nat)
    requires |bs| == NBUF + 1
  {
    forall i | 0 <= i < NBUF :: !Names(bs[i], 1, b) && !Reusable(bs[i])
  }

  ghost function PinnedBy(bs: seq<Buf>, lh: seq<nat>): set<nat>
    requires |bs| == NBUF + 1
  {
    set i: nat | i < NBUF && bs[i].dev == 1 && bs[i].blockno in lh
  }

  lemma OnlyOne(bs: seq<Buf>, b: nat, k: nat, i: nat)
    requires Unique(bs) && k < NBUF && i < NBUF && Names(bs[k], 1, b)
    ensures Names(bs[i], 1, b) <==> i == k
  {
    assert i < k ==> bs[i].dev != 0 ==> !Names(bs[i], bs[k].dev, bs[k].blockno);
    assert k < i ==> !Names(bs[k], bs[i].dev, bs[i].blockno);
  }

  lemma PinnedMore(bs: seq<Buf>, rest: seq<nat>, b: nat, k: nat)
    requires Unique(bs) && k < NBUF && Names(bs[k], 1, b) && b !in rest
    ensures k !in PinnedBy(bs, rest) && PinnedBy(bs, rest + [b]) == PinnedBy(bs, rest) + {k}
  {
    forall i: nat | i < NBUF
      ensures Names(bs[i], 1, b) <==> i == k
    {
      OnlyOne(bs, b, k, i);
    }
    hide Unique;
  }

  /** As many buffers as blocks. */
  lemma {:induction false} PinnedCount(bs: seq<Buf>, lh: seq<nat>)
    requires Unique(bs) && (forall b | b in lh :: Named(bs, b)) && forall i, j | 0 <= i < j < |lh| :: lh[i] != lh[j]
    ensures |PinnedBy(bs, lh)| == |lh|
  {
    if lh == [] {
      assert PinnedBy(bs, lh) == {};
    } else {
      var n := |lh| - 1;
      var rest, b := lh[..n], lh[n];
      assert Named(bs, b);
      var k: nat :| k < NBUF && Names(bs[k], 1, b);
      hide Unique, Named, PinnedBy;
      PinnedCount(bs, rest);
      assert lh == rest + [b];
      PinnedMore(bs, rest, b, k);
    }
  }

  predicate IsBelow(i: nat, n: nat) {
    i < n
  }

  ghost function Below(n: nat): set<nat> {
    set i: nat | i < n && IsBelow(i, n)
  }

  lemma {:induction false} BelowCount(n: nat)
    ensures |Below(n)| == n
  {
    if n == 0 {
      assert Below(0) == {};
    } else {
      BelowCount(n - 1);
      assert Below(n) == Below(n - 1) + {n - 1};
    }
  }

  ghost function Spare(bs: seq<Buf>): set<nat>
    requires |bs| == NBUF + 1
  {
    set i: nat | i < NBUF && Reusable(bs[i])
  }

  lemma Cover(bs: seq<Buf>, lh: seq<nat>)
    requires |bs| == NBUF + 1 && forall i | 0 <= i < NBUF :: bs[i].dirty <==> bs[i].dev == 1 && bs[i].blockno in lh
    ensures Below(NBUF) == PinnedBy(bs, lh) + Held(bs) + Spare(bs)
    ensures PinnedBy(bs, lh) !! Held(bs) && PinnedBy(bs, lh) + Held(bs) !! Spare(bs)
  {
  }

  lemma SpareCount(bs: seq<Buf>, lh: seq<nat>)
    requires Unique(bs) && Pins(bs, lh) && forall i, j | 0 <= i < j < |lh| :: lh[i] != lh[j]
    ensures |lh| + |Held(bs)| + |Spare(bs)| == NBUF
  {
    PinnedCount(bs, lh);
    BelowCount(NBUF);
    Cover(bs, lh);
    hide Unique, Pins, Held, Spare, PinnedBy;
    assert |PinnedBy(bs, lh) + Held(bs)| == |lh| + |Held(bs)|;
  }

  /**
    With the logged blocks pinned, bread of another block panics if and only if
    that block has no buffer and pinned and held buffers use up the cache.
   */
  lemma BreadPanicsIff(bs: seq<Buf>, lh: seq<nat>, b: nat)
    requires Unique(bs) && Pins(bs, lh) && forall i, j | 0 <= i < j < |lh| :: lh[i] != lh[j]
    ensures Panics(bs, b) <==> !Named(bs, b) && |lh| + |Held(bs)| == NBUF
    ensures |lh| + |Held(bs)| <= NBUF
  {
    SpareCount(bs, lh);
    hide Unique, Pins, Held;
    assert |Spare(bs)| == 0 <==> Spare(bs) == {};
    if Spare(bs) == {} {
      assert forall i: nat | i < NBUF :: Reusable(bs[i]) <==> i in Spare(bs);
    } else {
      var i: nat :| i in Spare(bs);
      assert Reusable(bs[i]);
    }
  }

  /**
    write_log: reading a log block panics if and only if it has no buffer and the
    logged blocks and the buffers that others hold use up the cache.  With no other
    holder that is a transaction of as many blocks as the cache has buffers.  A log of
    at most NBUF blocks then never gets there; a larger one, which the reservations of
    begin_op need, does with a full transaction.
   */
  lemma CommitReadPanicsIff(L: LogCore.Layout, c: LogCore.Core, bs: seq<Buf>)
    requires LogCore.Inv(L, c) && c.pc.WriteLog? && c.pc.tail < |c.lh| && Unique(bs) && Pins(bs, c.lh)
    ensures Panics(bs, L.Slot(c.pc.tail)) <==> !Named(bs, L.Slot(c.pc.tail)) && |c.lh| + |Held(bs)| == NBUF
    ensures Held(bs) == {} ==> (Panics(bs, L.Slot(c.pc.tail)) <==> |c.lh| == NBUF)
    ensures Held(bs) == {} && L.size <= NBUF ==> !Panics(bs, L.Slot(c.pc.tail))
    ensures !Panics(bs, c.lh[c.pc.tail])
  {
    hide LogCore.HeaderOf, LogCore.HeaderFits;
    var b := L.Slot(c.pc.tail);
    BreadPanicsIff(bs, c.lh, b);
    BreadPanicsIff(bs, c.lh, c.lh[c.pc.tail]);
    if |c.lh| == NBUF { NoneLeft(bs, c.lh, b); }
  }

  /** When every buffer is pinned, no other block has one. */
  lemma NoneLeft(bs: seq<Buf>, lh: seq<nat>, b: nat)
    requires Unique(bs) && Pins(bs, lh) && |lh| == NBUF && b !in lh && forall i, j | 0 <= i < j < |lh| :: lh[i] != lh[j]
    ensures !Named(bs, b)
  {
    PinnedCount(bs, lh);
    BelowCount(NBUF);
    var all, pinned := Below(NBUF), PinnedBy(bs, lh);
    assert all == pinned + (all - pinned);
    assert |all - pinned| == 0;
    forall i: nat | i < NBUF
      ensures !Names(bs[i], 1, b)
    {
      assert i in all;
    }
  }

  // --------------------------------------------------------- dirty buffers

  /** The dirty buffers are those of the blocks in d, and each of these has one. */
  ghost predicate Tracks(bs: seq<Buf>, d: set<nat>) {
    && |bs| == NBUF + 1
    && (forall i | 0 <= i < NBUF && bs[i].dirty :: bs[i].dev == 1 && bs[i].blockno in d)
    && (forall b | b in d :: DirtyNamed(bs, b))
  }

  ghost predicate DirtyNamed(bs: seq<Buf>, b: nat)
    requires |bs| == NBUF + 1
  {
    exists i :: 0 <= i < NBUF && bs[i].dirty && Names(bs[i], 1, b)
  }

  /** Dirty buffers of exactly the blocks of a list pin that list. */
  lemma TracksPins(bs: seq<Buf>, lh: seq<nat>)
    requires Unique(bs) && Tracks(bs, LogCore.Elems(lh))
    ensures Pins(bs, lh)
  {
    var d := LogCore.Elems(lh);
    forall b | b in lh
      ensures DirtyNamed(bs, b) && Named(bs, b)
    {
      assert b in d && DirtyNamed(bs, b);
      var k: nat :| k < NBUF && bs[k].dirty && Names(bs[k], 1, b);
    }
    forall i: nat | i < NBUF && bs[i].dev == 1 && bs[i].blockno in lh
      ensures bs[i].dirty
    {
      assert DirtyNamed(bs, bs[i].blockno);
      var k: nat :| k < NBUF && bs[k].dirty && Names(bs[k], 1, bs[i].blockno);
      OnlyOne(bs, bs[i].blockno, k, i);
    }
  }

  lemma TracksSame(bs: seq<Buf>, bs': seq<Buf>, d: set<nat>)
    requires Tracks(bs, d) && |bs'| == NBUF + 1
    requires forall i | 0 <= i < NBUF ::
        (bs'[i].dirty <==> bs[i].dirty) && (bs[i].dirty ==> Names(bs'[i], bs[i].dev, bs[i].blockno))
    ensures Tracks(bs', d)
  {
    forall b | b in d
      ensures DirtyNamed(bs', b)
    {
      assert DirtyNamed(bs, b);
      var i :| 0 <= i < NBUF && bs[i].dirty && Names(bs[i], 1, b);
      assert bs'[i].dirty && Names(bs'[i], 1, b);
    }
  }

  lemma TracksPin(bs: seq<Buf>, k: nat, b: nat, data: Block, d: set<nat>)
    requires Tracks(bs, d) && k < NBUF && Names(bs[k], 1, b)
    ensures Tracks(bs[k := bs[k].(data := data, dirty := true)], d + {b})
  {
    var bs' := bs[k := bs[k].(data := data, dirty := true)];
    assert bs'[k].dirty && Names(bs'[k], 1, b);
    forall x | x in d
      ensures DirtyNamed(bs', x)
    {
      assert DirtyNamed(bs, x);
      var i :| 0 <= i < NBUF && bs[i].dirty && Names(bs[i], 1, x);
      assert bs'[i].dirty && Names(bs'[i], 1, x);
    }
  }

  lemma TracksFlush(bs: seq<Buf>, k: nat, b: nat, data: Block, d: set<nat>)
    requires Unique(bs) && Tracks(bs, d) && k < NBUF && Names(bs[k], 1, b)
    ensures Tracks(bs[k := bs[k].(data := data, dirty := false)], d - {b})
  {
    var bs' := bs[k := bs[k].(data := data, dirty := false)];
    forall i: nat | i < NBUF && bs'[i].dirty
      ensures bs'[i].dev == 1 && bs'[i].blockno in d - {b}
    {
      OnlyOne(bs, b, k, i);
    }
    forall x | x in d - {b}
      ensures DirtyNamed(bs', x)
    {
      assert DirtyNamed(bs, x);
      var i :| 0 <= i < NBUF && bs[i].dirty && Names(bs[i], 1, x);
      assert bs'[i].dirty && Names(bs'[i], 1, x);
    }
  }
}
