/**
  bio.c over memide.c: a cache that answers like a plain map from block
  numbers to contents.  Every method below is one critical section (under
  bcache.lock, or under the buffer's sleep-lock), so a sequence of calls is an
  interleaving of processes.
 */
module BufferCache {
  import opened Common
  import opened Blocks
  import opened BufferList

  predicate Names(b: Buf, dev: nat, blockno: nat) {
    b.dev == dev && b.blockno == blockno
  }

  /** No two buffers share an identity other than (0,0), which fresh ones carry. */
  ghost predicate Unique(bs: seq<Buf>) {
    && |bs| == NBUF + 1
    && forall i, j | 0 <= i < j < NBUF && bs[i].dev != 0 :: !Names(bs[i], bs[j].dev, bs[j].blockno)
  }

  /**
    What is known of a buffer.  `touched`: its holder has changed the data and
    has not yet called log_write or bwrite.
   */
  ghost predicate BufOk(b: Buf, disk: seq<Block>, touched: bool) {
    && (b.dirty ==> b.valid)
    && (b.valid || b.refcnt > 0 ==> b.dev == 1 && b.blockno < |disk|)
    && (b.valid && !b.dirty && !touched ==> b.data == disk[b.blockno])
    && (b.locked ==> b.refcnt > 0)
    && (touched ==> b.locked && b.valid)
  }

  ghost predicate Coherent(bs: seq<Buf>, disk: seq<Block>, touched: set<nat>)
    requires |bs| == NBUF + 1
  {
    forall i | 0 <= i < NBUF :: BufOk(bs[i], disk, i in touched)
  }

  // ------------------------------------------------------- the plain map

  ghost predicate Holds(bs: seq<Buf>, i: int, b: nat)
    requires |bs| == NBUF + 1
  {
    0 <= i < NBUF && bs[i].valid && Names(bs[i], 1, b)
  }

  /** The latest contents of block b: the valid cached copy, else the disk. */
  ghost function Content(bs: seq<Buf>, disk: seq<Block>, b: nat): Block
    requires |bs| == NBUF + 1 && b < |disk|
  {
    if exists i :: Holds(bs, i, b) then var i :| Holds(bs, i, b); bs[i].data else disk[b]
  }

  ghost function Contents(bs: seq<Buf>, disk: seq<Block>): seq<Block>
    requires |bs| == NBUF + 1
  {
    seq(|disk|, b requires 0 <= b < |disk| => Content(bs, disk, b))
  }

  lemma ContentHeld(bs: seq<Buf>, disk: seq<Block>, i: nat, b: nat)
    requires Unique(bs) && Holds(bs, i, b) && b < |disk|
    ensures Content(bs, disk, b) == bs[i].data
  {
    assert forall k | Holds(bs, k, b) :: k == i;
  }

  /** A block that no dirty and no freshly touched buffer holds is up to date on disk. */
  lemma CleanIsOnDisk(bs: seq<Buf>, disk: seq<Block>, touched: set<nat>, b: nat)
    requires Unique(bs) && Coherent(bs, disk, touched) && b < |disk|
    requires forall i | Holds(bs, i, b) :: !bs[i].dirty && i !in touched
    ensures Content(bs, disk, b) == disk[b]
  {
    if i :| Holds(bs, i, b) {
      ContentHeld(bs, disk, i, b);
      assert BufOk(bs[i], disk, i in touched);
    }
  }

  /** Refcounts, locks, flags and links do not show in the map. */
  lemma SamePayload(bs: seq<Buf>, bs': seq<Buf>, disk: seq<Block>)
    requires Unique(bs) && |bs'| == |bs|
    requires forall i | 0 <= i < NBUF :: Names(bs'[i], bs[i].dev, bs[i].blockno) && bs'[i].valid == bs[i].valid
                                         && bs'[i].data == bs[i].data
    ensures Unique(bs') && Contents(bs', disk) == Contents(bs, disk)
  {
    forall b | 0 <= b < |disk|
      ensures Content(bs', disk, b) == Content(bs, disk, b)
    {
      if i :| Holds(bs, i, b) {
        assert Holds(bs', i, b);
        ContentHeld(bs, disk, i, b);
        ContentHeld(bs', disk, i, b);
      } else {
        assert forall i :: Holds(bs', i, b) ==> Holds(bs, i, b);
      }
    }
  }

  /** Recycling a clean buffer for another block loses nothing. */
  lemma RecycleShowsNothing(bs: seq<Buf>, disk: seq<Block>, touched: set<nat>, i: nat, v: Buf)
    requires Unique(bs) && Coherent(bs, disk, touched) && i < NBUF
    requires !bs[i].dirty && i !in touched && !v.valid
    requires v.dev != 0 && forall k | 0 <= k < NBUF :: !Names(bs[k], v.dev, v.blockno)
    ensures Unique(bs[i := v]) && Contents(bs[i := v], disk) == Contents(bs, disk)
  {
    var bs' := bs[i := v];
    assert Unique(bs') by { UniqueReplace(bs, i, v); }
    forall b | 0 <= b < |disk|
      ensures Content(bs', disk, b) == Content(bs, disk, b)
    {
      RecycleAt(bs, disk, touched, i, v, b);
    }
  }

  lemma UniqueReplace(bs: seq<Buf>, i: nat, v: Buf)
    requires Unique(bs) && i < NBUF && v.dev != 0
    requires forall k | 0 <= k < NBUF && k != i :: !Names(bs[k], v.dev, v.blockno)
    ensures Unique(bs[i := v])
  {
  }

  lemma RecycleAt(bs: seq<Buf>, disk: seq<Block>, touched: set<nat>, i: nat, v: Buf, b: nat)
    requires Unique(bs) && Coherent(bs, disk, touched) && i < NBUF && b < |disk|
    requires !bs[i].dirty && i !in touched && !v.valid && Unique(bs[i := v])
    ensures Content(bs[i := v], disk, b) == Content(bs, disk, b)
  {
    var bs' := bs[i := v];
    assert forall k :: Holds(bs', k, b) <==> Holds(bs, k, b) && k != i;
    if k :| Holds(bs', k, b) {
      ContentHeld(bs, disk, k, b);
      ContentHeld(bs', disk, k, b);
    } else if Holds(bs, i, b) {
      ContentHeld(bs, disk, i, b);
      assert BufOk(bs[i], disk, i in touched);
    }
  }

  /** Changing the data of a valid buffer is one update of the map. */
  lemma StoreShows(bs: seq<Buf>, disk: seq<Block>, disk': seq<Block>, i: nat, v: Buf)
    requires Unique(bs) && i < NBUF && v.valid && v.dev == 1 && v.blockno < |disk| == |disk'|
    requires Names(bs[i], v.dev, v.blockno)
    requires forall b | 0 <= b < |disk| && b != v.blockno :: disk'[b] == disk[b]
    ensures Unique(bs[i := v]) && Contents(bs[i := v], disk') == Contents(bs, disk)[v.blockno := v.data]
  {
    var bs' := bs[i := v];
    assert Unique(bs');
    forall b | 0 <= b < |disk|
      ensures Content(bs', disk', b) == if b == v.blockno then v.data else Content(bs, disk, b)
    {
      StoreAt(bs, disk, disk', i, v, b);
    }
  }

  lemma StoreAt(bs: seq<Buf>, disk: seq<Block>, disk': seq<Block>, i: nat, v: Buf, b: nat)
    requires Unique(bs) && i < NBUF && v.valid && v.dev == 1 && v.blockno < |disk| == |disk'| && b < |disk|
    requires Names(bs[i], v.dev, v.blockno) && Unique(bs[i := v])
    requires forall b | 0 <= b < |disk| && b != v.blockno :: disk'[b] == disk[b]
    ensures Content(bs[i := v], disk', b) == if b == v.blockno then v.data else Content(bs, disk, b)
  {
    var bs' := bs[i := v];
    if b == v.blockno {
      assert Holds(bs', i, b);
      ContentHeld(bs', disk', i, b);
    } else {
      assert forall k :: Holds(bs', k, b) <==> Holds(bs, k, b);
      if k :| Holds(bs, k, b) {
        ContentHeld(bs, disk, k, b);
        ContentHeld(bs', disk', k, b);
      }
    }
  }

  // ------------------------------------------------------------- recency

  /** `order` lists all buffers, by most recent drop of the refcount to zero. */
  ghost predicate Recency(order: seq<nat>, stamp: seq<int>, clock: int) {
    && |stamp| == NBUF && |order| == NBUF && Distinct(order)
    && (forall i | 0 <= i < NBUF :: i in order && stamp[i] < clock)
    && (forall i, j | 0 <= i < j < NBUF :: stamp[order[i]] > stamp[order[j]])
  }

  predicate Reusable(b: Buf) {
    b.refcnt == 0 && !b.dirty
  }

  /** Position i of the list after order[k] was moved to its front. */
  lemma MovedAt(order: seq<nat>, k: nat, i: nat)
    requires k < |order| && i < |order|
    ensures ([order[k]] + Without(order, k))[i] == order[if i == 0 then k else if i <= k then i - 1 else i]
  {
  }

  lemma MovedHasAll(order: seq<nat>, k: nat, b: nat)
    requires k < |order| && b in order
    ensures b in [order[k]] + Without(order, k)
  {
    var m :| 0 <= m < |order| && order[m] == b;
    MovedAt(order, k, if m == k then 0 else if m < k then m + 1 else m);
  }

  lemma RecencyMoves(order: seq<nat>, stamp: seq<int>, clock: int, k: nat)
    requires Recency(order, stamp, clock) && k < NBUF
    ensures Recency([order[k]] + Without(order, k), stamp[order[k] := clock], clock + 1)
  {
    WithoutDistinct(order, k);
    WithoutLength(order, k);
    hide Without;
    var order' := [order[k]] + Without(order, k);
    var stamp' := stamp[order[k] := clock];
    forall b | 0 <= b < NBUF
      ensures b in order'
    {
      MovedHasAll(order, k, b);
    }
    forall i, j | 0 <= i < j < NBUF
      ensures stamp'[order'[i]] > stamp'[order'[j]]
    {
      MovedAt(order, k, i);
      MovedAt(order, k, j);
    }
  }

  class BCache {
    const buf: array<Buf>
    var disk: seq<Block>
    ghost var order: seq<nat>
    ghost var stamp: seq<int>
    ghost var clock: int
    ghost var touched: set<nat>

    ghost predicate Valid()
      reads this, buf
    {
      && buf.Length == NBUF + 1
      && Linked(buf[..], order) && Recency(order, stamp, clock)
      && Unique(buf[..]) && Coherent(buf[..], disk, touched)
      && (forall i | i in touched :: i < NBUF)
    }

    /** What bread would answer for every block. */
    ghost function Map(): (m: seq<Block>)
      reads this, buf
      requires buf.Length == NBUF + 1
      ensures |m| == |disk|
    {
      Contents(buf[..], disk)
    }

    /** First scan of bget: most recent first. */
    method FindCached(dev: nat, blockno: nat) returns (b: nat)
      requires Valid()
      ensures b <= NBUF
      ensures b < NBUF ==> Names(buf[b], dev, blockno)
      ensures b == HEAD ==> forall i | 0 <= i < NBUF :: !Names(buf[i], dev, blockno)
    {
      hide Unique, Coherent;
      b := buf[HEAD].next;
      ghost var i := 0;
      assert LinkedAt(buf[..], order, 0);
      while b != HEAD
        invariant 0 <= i <= NBUF && b == At(order, i + 1)
        invariant forall k | 0 <= k < i :: !Names(buf[order[k]], dev, blockno)
        decreases NBUF - i
      {
        if Names(buf[b], dev, blockno) {
          return;
        }
        assert LinkedAt(buf[..], order, i + 1);
        b := buf[b].next;
        i := i + 1;
      }
      forall m | 0 <= m < NBUF
        ensures !Names(buf[m], dev, blockno)
      {
        assert m in order;
        var k :| 0 <= k < NBUF && order[k] == m;
      }
    }

    /** Second scan of bget: least recent first. */
    method FindVictim() returns (b: nat)
      requires Valid()
      ensures b <= NBUF
      ensures b < NBUF ==> Reusable(buf[b])
      ensures b < NBUF ==> forall i | 0 <= i < NBUF && Reusable(buf[i]) :: stamp[b] <= stamp[i]
      ensures b == HEAD ==> forall i | 0 <= i < NBUF :: !Reusable(buf[i])
    {
      hide Unique, Coherent;
      b := buf[HEAD].prev;
      ghost var i := NBUF;
      assert LinkedAt(buf[..], order, NBUF);
      while b != HEAD
        invariant 0 <= i <= NBUF && b == At(order, i)
        invariant forall k | i <= k < NBUF :: !Reusable(buf[order[k]])
        decreases i
      {
        if Reusable(buf[b]) {
          return;
        }
        assert LinkedAt(buf[..], order, i - 1);
        b := buf[b].prev;
        i := i - 1;
      }
      forall m | 0 <= m < NBUF
        ensures !Reusable(buf[m])
      {
        assert m in order;
        var k :| 0 <= k < NBUF && order[k] == m;
      }
    }

    /** A buffer changes, not its links: what is left to check is its own state. */
    lemma Replace(i: nat, v: Buf, disk': seq<Block>, touched': set<nat>)
      requires Valid() && i < NBUF && v.next == buf[i].next && v.prev == buf[i].prev
      requires |disk'| == |disk| && Unique(buf[..][i := v])
      requires BufOk(v, disk', i in touched')
      requires forall k | 0 <= k < NBUF && k != i :: BufOk(buf[k], disk', k in touched')
      ensures Linked(buf[..][i := v], order) && Coherent(buf[..][i := v], disk', touched')
    {
      PayloadKeepsLinks(buf[..], order, i, v);
    }

    /**
      bget() up to the release of bcache.lock.  The block is found, or else the
      reusable buffer that was idle longest takes its identity; no contents are
      lost either way.  `panicked`: nothing is cached and nothing is reusable.
     */
    method BGet(dev: nat, blockno: nat) returns (b: nat, panicked: bool)
      requires Valid() && dev == 1 && blockno < |disk|
      modifies buf
      ensures Valid() && Map() == old(Map())
      ensures panicked <==> forall i | 0 <= i < NBUF :: old(!Names(buf[i], dev, blockno) && !Reusable(buf[i]))
      ensures panicked ==> buf[..] == old(buf[..])
      ensures !panicked ==> b < NBUF && Names(buf[b], dev, blockno) && buf[b].refcnt > 0
      ensures !panicked ==> forall i | 0 <= i < NBUF && i != b :: buf[i] == old(buf[i])
      ensures !panicked && old(Names(buf[b], dev, blockno)) ==> buf[b] == old(buf[b].(refcnt := buf[b].refcnt + 1))
      ensures !panicked && old(!Names(buf[b], dev, blockno)) ==>
                old(Reusable(buf[b]))
                && buf[b] == old(buf[b]).(dev := dev, blockno := blockno, valid := false, dirty := false, refcnt := 1)
      ensures !panicked && old(!Names(buf[b], dev, blockno)) ==>
                forall i | 0 <= i < NBUF && old(Reusable(buf[i])) :: stamp[b] <= stamp[i]
    {
      hide Linked, Recency, Contents;
      panicked := false;
      b := FindCached(dev, blockno);
      if b != HEAD {
        var v := buf[b].(refcnt := buf[b].refcnt + 1);
        SamePayload(buf[..], buf[..][b := v], disk);
        assert BufOk(buf[b], disk, b in touched);
        Replace(b, v, disk, touched);
        buf[b] := v;
        assert buf[..] == old(buf[..])[b := v];
        return;
      }
      b := FindVictim();
      if b != HEAD {
        var v := buf[b].(dev := dev, blockno := blockno, valid := false, dirty := false, refcnt := 1);
        assert BufOk(buf[b], disk, b in touched);
        RecycleShowsNothing(buf[..], disk, touched, b, v);
        Replace(b, v, disk, touched);
        buf[b] := v;
        assert buf[..] == old(buf[..])[b := v];
        return;
      }
      panicked := true;
    }

    /** acquiresleep(&b->lock), once the lock is free. */
    method Lock(b: nat)
      requires Valid() && b < NBUF && buf[b].refcnt > 0 && !buf[b].locked
      modifies buf
      ensures Valid() && Map() == old(Map())
      ensures buf[..] == old(buf[..])[b := old(buf[b]).(locked := true)]
    {
      hide Linked, Recency, Contents;
      var v := buf[b].(locked := true);
      SamePayload(buf[..], buf[..][b := v], disk);
      assert BufOk(buf[b], disk, b in touched);
      Replace(b, v, disk, touched);
      buf[b] := v;
      assert buf[..] == old(buf[..])[b := v];
    }

    /** iderw(): write a dirty buffer, else read an invalid one. */
    method IdeRw(b: nat)
      requires Valid() && b < NBUF && buf[b].locked && (buf[b].dirty || !buf[b].valid)
      modifies buf, this`disk, this`touched
      ensures Valid() && Map() == old(Map()) && touched == old(touched) - {b}
      ensures buf[b].blockno == old(buf[b].blockno) < |disk| == |old(disk)|
      ensures old(buf[b].dirty) ==> buf[b].data == old(buf[b].data)
      ensures disk == if old(buf[b].dirty) then old(disk)[old(buf[b].blockno) := old(buf[b].data)] else old(disk)
      ensures buf[b].data == Map()[buf[b].blockno]
      ensures buf[..] == old(buf[..])[b := old(buf[b]).(valid := true, dirty := false, data := buf[b].data)]
    {
      hide Linked, Recency, Contents;
      assert BufOk(buf[b], disk, b in touched);
      var bno := buf[b].blockno;
      if buf[b].dirty {
        var v := buf[b].(dirty := false, valid := true);
        var disk' := disk[bno := v.data];
        WriteBack(buf[..], disk, touched, b, v);
        Replace(b, v, disk', touched - {b});
        disk := disk';
        buf[b] := v;
        assert buf[..] == old(buf[..])[b := v];
      } else {
        var v := buf[b].(data := disk[bno], valid := true);
        ReadIn(buf[..], disk, touched, b, v);
        Replace(b, v, disk, touched - {b});
        buf[b] := v;
        assert buf[..] == old(buf[..])[b := v];
      }
      touched := touched - {b};
    }

    /** The rest of bread(): the buffer now holds what the map says. */
    method Fill(b: nat)
      requires Valid() && b < NBUF && buf[b].locked && b !in touched
      modifies buf, this`disk, this`touched
      ensures Valid() && Map() == old(Map()) && disk == old(disk) && touched == old(touched)
      ensures buf[b].valid && buf[b].blockno < |disk| && buf[b].data == Map()[buf[b].blockno]
      ensures buf[..] == old(buf[..])[b := old(buf[b]).(valid := true, data := buf[b].data)]
    {
      hide Linked, Recency;
      assert BufOk(buf[b], disk, b in touched);
      if !buf[b].valid {
        IdeRw(b);
      } else {
        ContentHeld(buf[..], disk, b, buf[b].blockno);
      }
    }

    /** bread() when nobody holds the block: a lookup in the plain map. */
    method BRead(dev: nat, blockno: nat) returns (b: nat, panicked: bool)
      requires Valid() && dev == 1 && blockno < |disk|
      requires forall i | 0 <= i < NBUF && Names(buf[i], dev, blockno) :: !buf[i].locked
      modifies buf, this`disk, this`touched
      ensures Valid() && Map() == old(Map()) && disk == old(disk) && touched == old(touched)
      ensures panicked ==> forall i | 0 <= i < NBUF :: !old(Reusable(buf[i]))
      ensures !panicked ==> b < NBUF && buf[b].locked && Names(buf[b], dev, blockno)
      ensures !panicked ==> buf[b].valid && buf[b].data == old(Map())[blockno]
    {
      hide Linked, Recency, Contents, Unique;
      b, panicked := BGet(dev, blockno);
      if !panicked {
        assert BufOk(old(buf[..])[b], disk, b in touched) && BufOk(buf[..][b], disk, b in touched);
        Lock(b);
        Fill(b);
        assert buf[b] == buf[..][b];
      }
    }

    /** The holder stores into b->data. */
    method SetData(b: nat, data: Block)
      requires Valid() && b < NBUF && buf[b].locked && buf[b].valid
      modifies buf, this`touched
      ensures buf[b].blockno == old(buf[b].blockno) < |disk| == |old(disk)|
      ensures Valid() && Map() == old(Map())[buf[b].blockno := data] && touched == old(touched) + {b}
      ensures buf[..] == old(buf[..])[b := old(buf[b]).(data := data)]
    {
      hide Linked, Recency, Contents;
      assert BufOk(buf[b], disk, b in touched);
      var v := buf[b].(data := data);
      StoreShows(buf[..], disk, disk, b, v);
      Replace(b, v, disk, touched + {b});
      buf[b] := v;
      assert buf[..] == old(buf[..])[b := v];
      touched := touched + {b};
    }

    /** b->flags |= B_DIRTY: log_write pins the buffer, bwrite schedules it. */
    method MarkDirty(b: nat)
      requires Valid() && b < NBUF && buf[b].locked && buf[b].valid
      modifies buf, this`touched
      ensures Valid() && Map() == old(Map()) && touched == old(touched) - {b}
      ensures buf[..] == old(buf[..])[b := old(buf[b]).(dirty := true)]
    {
      hide Linked, Recency, Contents;
      assert BufOk(buf[b], disk, b in touched);
      var v := buf[b].(dirty := true);
      SamePayload(buf[..], buf[..][b := v], disk);
      Replace(b, v, disk, touched - {b});
      buf[b] := v;
      assert buf[..] == old(buf[..])[b := v];
      touched := touched - {b};
    }

    method BWrite(b: nat)
      requires Valid() && b < NBUF && buf[b].locked && buf[b].valid
      modifies buf, this`disk, this`touched
      ensures Valid() && Map() == old(Map()) && touched == old(touched) - {b}
      ensures buf[b].blockno == old(buf[b].blockno) < |disk| == |old(disk)|
      ensures disk == old(disk)[buf[b].blockno := buf[b].data] && buf[b].data == Map()[buf[b].blockno]
      ensures buf[..] == old(buf[..])[b := old(buf[b]).(dirty := false)]
    {
      hide Linked, Recency, Contents, Unique, Coherent;
      assert buf[b] == buf[..][b];
      MarkDirty(b);
      IdeRw(b);
      assert buf[b] == buf[..][b];
    }

    /** releasesleep(&b->lock).  A holder that changed the data has logged it. */
    method Unlock(b: nat)
      requires Valid() && b < NBUF && buf[b].locked && b !in touched
      modifies buf
      ensures Valid() && Map() == old(Map())
      ensures buf[..] == old(buf[..])[b := old(buf[b]).(locked := false)]
    {
      hide Linked, Recency, Contents;
      var v := buf[b].(locked := false);
      SamePayload(buf[..], buf[..][b := v], disk);
      assert BufOk(buf[b], disk, b in touched);
      Replace(b, v, disk, touched);
      buf[b] := v;
      assert buf[..] == old(buf[..])[b := v];
    }

    /** The four assignments that put b behind the head. */
    method InsertAtHead(b: nat)
      requires buf.Length == NBUF + 1 && b < NBUF && buf[HEAD].next <= NBUF
      modifies buf
      ensures buf[..] == PushFront(old(buf[..]), b)
    {
      buf[b] := buf[b].(next := buf[HEAD].next);
      buf[b] := buf[b].(prev := HEAD);
      buf[buf[HEAD].next] := buf[buf[HEAD].next].(prev := b);
      buf[HEAD] := buf[HEAD].(next := b);
    }

    method RemoveFromList(b: nat)
      requires buf.Length == NBUF + 1 && b < NBUF && buf[b].next <= NBUF && buf[b].prev <= NBUF && buf[b].prev != b
      modifies buf
      ensures buf[..] == Unlink(old(buf[..]), b)
    {
      buf[buf[b].next] := buf[buf[b].next].(prev := buf[b].prev);
      buf[buf[b].prev] := buf[buf[b].prev].(next := buf[b].next);
    }

    /**
      The rest of brelse(), under bcache.lock: drop the reference, and when it
      was the last one make the buffer the most recently used.
     */
    method DropRef(b: nat, ghost k: nat)
      requires Valid() && b < NBUF && buf[b].refcnt > 0 && (buf[b].locked ==> buf[b].refcnt > 1)
      requires k < NBUF && order[k] == b
      modifies buf, this`order, this`stamp, this`clock
      ensures Valid() && Map() == old(Map())
      ensures SameBut(old(buf[..])[b := old(buf[b]).(refcnt := old(buf[b]).refcnt - 1)], buf[..])
      ensures old(buf[b].refcnt) > 1 ==> order == old(order) && stamp == old(stamp)
      ensures old(buf[b].refcnt) == 1 ==>
                order == [b] + Without(old(order), k) && stamp == old(stamp)[b := old(clock)] && clock > old(clock)
    {
      hide Linked, Recency, Contents, Unlink, PushFront, Without;
      var v := buf[b].(refcnt := buf[b].refcnt - 1);
      assert BufOk(buf[b], disk, b in touched);
      SamePayload(buf[..], buf[..][b := v], disk);
      Replace(b, v, disk, touched);
      buf[b] := v;
      ghost var mid := buf[..];
      assert mid == old(buf[..])[b := v];
      if buf[b].refcnt == 0 {
        ListFacts(mid, order, stamp, clock, k);
        RemoveFromList(b);
        InsertAtHead(b);
        LinksShowNothing(mid, buf[..], disk, touched);
        order, stamp, clock := [b] + Without(order, k), stamp[b := clock], clock + 1;
      }
    }

    /** binit(). */
    constructor (disk: seq<Block>)
      ensures Valid() && fresh(buf) && this.disk == disk && Map() == disk && touched == {}
      ensures forall i | 0 <= i < NBUF :: Reusable(buf[i]) && Names(buf[i], 0, 0) && stamp[i] == i
    {
      var blank := Buf(0, 0, false, false, false, 0, ZeroBlock(), HEAD, HEAD);
      buf := new Buf[NBUF + 1](_ => blank);
      this.disk := disk;
      order, touched := [], {};
      stamp := seq(NBUF, i => i);
      clock := NBUF;
      new;
      hide Unlink, PushFront, Contents;
      FreshLinks(buf[..], blank);
      var b := 0;
      while b < NBUF
        modifies buf, this`order
        invariant b <= NBUF && Linked(buf[..], order) && Descending(order, b)
        invariant forall i | 0 <= i <= NBUF :: buf[i].(next := HEAD, prev := HEAD) == blank
      {
        ghost var bs := buf[..];
        PushFrontLinks(bs, order, b);
        InsertAtHead(b);
        assert forall i | 0 <= i <= NBUF ::
            buf[i] == buf[..][i] && bs[i].(next := 0, prev := 0) == blank.(next := 0, prev := 0);
        order := [b] + order;
        b := b + 1;
      }
      DescendingRecency(order, stamp);
      NothingCached(buf[..], disk);
    }
  }

  ghost predicate Descending(order: seq<nat>, b: nat) {
    |order| == b && forall i | 0 <= i < b :: order[i] == b - 1 - i
  }

  lemma DescendingRecency(order: seq<nat>, stamp: seq<int>)
    requires Descending(order, NBUF) && |stamp| == NBUF && forall i | 0 <= i < NBUF :: stamp[i] == i
    ensures Recency(order, stamp, NBUF)
  {
    forall i | 0 <= i < NBUF
      ensures i in order
    {
      assert order[NBUF - 1 - i] == i;
    }
  }

  lemma FreshLinks(bs: seq<Buf>, blank: Buf)
    requires |bs| == NBUF + 1 && bs[HEAD] == blank && blank.next == blank.prev == HEAD
    ensures Linked(bs, [])
  {
  }

  lemma NothingCached(bs: seq<Buf>, disk: seq<Block>)
    requires |bs| == NBUF + 1
    requires forall i | 0 <= i < NBUF ::
        !bs[i].valid && !bs[i].dirty && !bs[i].locked && bs[i].refcnt == 0 && bs[i].dev == 0
    ensures Unique(bs) && Coherent(bs, disk, {}) && Contents(bs, disk) == disk
  {
    assert forall i, b :: !Holds(bs, i, b);
  }

  lemma ListFacts(bs: seq<Buf>, order: seq<nat>, stamp: seq<int>, clock: int, k: nat)
    requires Linked(bs, order) && Recency(order, stamp, clock) && k < NBUF
    ensures |order| == NBUF && order[k] < NBUF && |stamp| == NBUF
    ensures bs[order[k]].next <= NBUF && bs[order[k]].prev <= NBUF && bs[order[k]].prev != order[k]
    ensures Unlink(bs, order[k])[HEAD].next <= NBUF
    ensures Linked(PushFront(Unlink(bs, order[k]), order[k]), [order[k]] + Without(order, k))
    ensures SameBut(bs, PushFront(Unlink(bs, order[k]), order[k]))
    ensures Recency([order[k]] + Without(order, k), stamp[order[k] := clock], clock + 1)
  {
    hide Unlink, PushFront, Without;
    MoveToFront(bs, order, k);
    RecencyMoves(order, stamp, clock, k);
  }

  lemma LinksShowNothing(bs: seq<Buf>, bs': seq<Buf>, disk: seq<Block>, touched: set<nat>)
    requires Unique(bs) && Coherent(bs, disk, touched) && SameBut(bs, bs')
    ensures Unique(bs') && Coherent(bs', disk, touched) && Contents(bs', disk) == Contents(bs, disk)
  {
    forall i | 0 <= i < NBUF
      ensures BufOk(bs'[i], disk, i in touched)
    {
      assert BufOk(bs[i], disk, i in touched);
      assert bs'[i] == bs[i].(next := bs'[i].next, prev := bs'[i].prev);
    }
    SamePayload(bs, bs', disk);
  }

  lemma WriteBack(bs: seq<Buf>, disk: seq<Block>, touched: set<nat>, b: nat, v: Buf)
    requires Unique(bs) && Coherent(bs, disk, touched) && b < NBUF && bs[b].dirty
    requires v == bs[b].(dirty := false, valid := true)
    ensures v.blockno < |disk| && Unique(bs[b := v])
    ensures var disk' := disk[v.blockno := v.data];
      && Contents(bs[b := v], disk') == Contents(bs, disk) && Contents(bs, disk)[v.blockno] == v.data
      && forall k | 0 <= k < NBUF && k != b :: BufOk(bs[k], disk', k in touched - {b})
  {
    hide Contents;
    assert BufOk(bs[b], disk, b in touched);
    var disk' := disk[v.blockno := v.data];
    StoreShows(bs, disk, disk', b, v);
    ContentHeld(bs, disk, b, v.blockno);
    ContentsAt(bs, disk, v.blockno);
    forall k | 0 <= k < NBUF && k != b
      ensures BufOk(bs[k], disk', k in touched - {b})
    {
      assert BufOk(bs[k], disk, k in touched);
    }
  }

  lemma ReadIn(bs: seq<Buf>, disk: seq<Block>, touched: set<nat>, b: nat, v: Buf)
    requires Unique(bs) && Coherent(bs, disk, touched) && b < NBUF && !bs[b].valid && bs[b].refcnt > 0
    requires bs[b].blockno < |disk| && v == bs[b].(data := disk[bs[b].blockno], valid := true)
    ensures Unique(bs[b := v]) && Contents(bs[b := v], disk) == Contents(bs, disk)
    ensures Contents(bs, disk)[v.blockno] == v.data
  {
    hide Contents;
    assert BufOk(bs[b], disk, b in touched);
    StoreShows(bs, disk, disk, b, v);
    assert forall k :: !Holds(bs, k, v.blockno);
    ContentsAt(bs, disk, v.blockno);
  }

  lemma ContentsAt(bs: seq<Buf>, disk: seq<Block>, b: nat)
    requires |bs| == NBUF + 1 && b < |disk|
    ensures |Contents(bs, disk)| == |disk| && Contents(bs, disk)[b] == Content(bs, disk, b)
  {
  }
}
