/**
  The recency list of bio.c: buffers in an array, threaded through prev/next
  in one circle that also passes through the list head.
 */
module BufferList {
  import opened Common
  import opened Blocks

  const NBUF := 30
  const HEAD := NBUF  // the position of bcache.head behind the NBUF buffers

  datatype Buf = Buf(dev: nat, blockno: nat, valid: bool, dirty: bool, locked: bool, refcnt: nat,
                     data: Block, prev: nat, next: nat)

  /** Position i of the circle: the head, most recent .. least recent, the head. */
  function At(order: seq<nat>, i: nat): nat {
    if 1 <= i <= |order| then order[i - 1] else HEAD
  }

  ghost predicate Distinct(order: seq<nat>) {
    && (forall i | 0 <= i < |order| :: order[i] < NBUF)
    && (forall i, j | 0 <= i < j < |order| :: order[i] != order[j])
  }

  ghost predicate LinkedAt(bs: seq<Buf>, order: seq<nat>, i: nat)
    requires |bs| == NBUF + 1 && Distinct(order)
  {
    bs[At(order, i)].next == At(order, i + 1) && bs[At(order, i + 1)].prev == At(order, i)
  }

  /** The links of the nodes on the circle are exactly those of `order`. */
  ghost predicate Linked(bs: seq<Buf>, order: seq<nat>) {
    && |bs| == NBUF + 1 && Distinct(order)
    && forall i | 0 <= i <= |order| :: LinkedAt(bs, order, i)
  }

  function SetNext(bs: seq<Buf>, i: nat, v: nat): seq<Buf>
    requires i < |bs|
  {
    bs[i := bs[i].(next := v)]
  }

  function SetPrev(bs: seq<Buf>, i: nat, v: nat): seq<Buf>
    requires i < |bs|
  {
    bs[i := bs[i].(prev := v)]
  }

  /** The two neighbours of b are linked to each other. */
  function Unlink(bs: seq<Buf>, b: nat): seq<Buf>
    requires b < |bs| && bs[b].next < |bs| && bs[b].prev < |bs| && bs[b].prev != b
  {
    var bs1 := SetPrev(bs, bs[b].next, bs[b].prev);
    SetNext(bs1, bs1[b].prev, bs1[b].next)
  }

  /** Inserts b behind the head, in the order the four assignments are made. */
  function PushFront(bs: seq<Buf>, b: nat): seq<Buf>
    requires |bs| == NBUF + 1 && b < NBUF && bs[HEAD].next <= NBUF
  {
    var bs1 := SetNext(bs, b, bs[HEAD].next);
    var bs2 := SetPrev(bs1, b, HEAD);
    var bs3 := SetPrev(bs2, bs2[HEAD].next, b);
    SetNext(bs3, HEAD, b)
  }

  /** Two cache states that differ in links only. */
  ghost predicate SameBut(bs: seq<Buf>, bs': seq<Buf>) {
    && |bs| == |bs'|
    && forall i | 0 <= i < |bs| :: bs'[i].(next := 0, prev := 0) == bs[i].(next := 0, prev := 0)
  }

  lemma PushFrontAt(bs: seq<Buf>, order: seq<nat>, b: nat, i: nat)
    requires Linked(bs, order) && b < NBUF && b !in order && i <= |order| + 1
    ensures bs[HEAD].next <= NBUF && Distinct([b] + order)
    ensures LinkedAt(PushFront(bs, b), [b] + order, i)
  {
    assert LinkedAt(bs, order, 0);
    if i > 0 {
      assert LinkedAt(bs, order, i - 1);
      assert At([b] + order, i + 1) == At(order, i);
    }
  }

  lemma PushFrontLinks(bs: seq<Buf>, order: seq<nat>, b: nat)
    requires Linked(bs, order) && b < NBUF && b !in order
    ensures bs[HEAD].next <= NBUF
    ensures Linked(PushFront(bs, b), [b] + order) && SameBut(bs, PushFront(bs, b))
  {
    PushFrontAt(bs, order, b, 0);
    forall i | 0 <= i <= |order| + 1 {
      PushFrontAt(bs, order, b, i);
    }
  }

  lemma AroundNode(bs: seq<Buf>, order: seq<nat>, k: nat)
    requires Linked(bs, order) && k < |order|
    ensures bs[order[k]].prev == At(order, k) != order[k]
    ensures bs[order[k]].next == At(order, k + 2) != order[k]
  {
    assert LinkedAt(bs, order, k);
    assert LinkedAt(bs, order, k + 1);
  }

  lemma WithoutDistinct(order: seq<nat>, k: nat)
    requires Distinct(order) && k < |order|
    ensures Distinct(Without(order, k)) && order[k] !in Without(order, k)
    ensures forall i: nat :: At(Without(order, k), i) == if i <= k then At(order, i) else At(order, i + 1)
  {
  }

  lemma UnlinkLinks(bs: seq<Buf>, order: seq<nat>, k: nat)
    requires Linked(bs, order) && k < |order|
    ensures bs[order[k]].next <= NBUF && bs[order[k]].prev <= NBUF && bs[order[k]].prev != order[k]
    ensures Linked(Unlink(bs, order[k]), Without(order, k)) && SameBut(bs, Unlink(bs, order[k]))
    ensures order[k] !in Without(order, k)
  {
    hide Without;
    AroundNode(bs, order, k);
    WithoutDistinct(order, k);
    var order' := Without(order, k);
    var bs' := Unlink(bs, order[k]);
    assert |order'| == |order| - 1 by { WithoutLength(order, k); }
    forall i | 0 <= i <= |order'|
      ensures LinkedAt(bs', order', i)
    {
      UnlinkAt(bs, order, k, i);
    }
  }

  lemma WithoutLength(order: seq<nat>, k: nat)
    requires k < |order|
    ensures |Without(order, k)| == |order| - 1
  {
  }

  lemma UnlinkAt(bs: seq<Buf>, order: seq<nat>, k: nat, i: nat)
    requires Linked(bs, order) && k < |order| && i <= |order| - 1
    ensures bs[order[k]].next <= NBUF && bs[order[k]].prev <= NBUF && bs[order[k]].prev != order[k]
    ensures Distinct(Without(order, k)) && LinkedAt(Unlink(bs, order[k]), Without(order, k), i)
  {
    hide Without;
    AroundNode(bs, order, k);
    WithoutDistinct(order, k);
    assert LinkedAt(bs, order, i);
    assert LinkedAt(bs, order, i + 1);
  }

  /** brelse's list surgery: b moves to the most recent end, wherever it was. */
  lemma MoveToFront(bs: seq<Buf>, order: seq<nat>, k: nat)
    requires Linked(bs, order) && k < |order|
    ensures bs[order[k]].next <= NBUF && bs[order[k]].prev <= NBUF && bs[order[k]].prev != order[k]
    ensures Unlink(bs, order[k])[HEAD].next <= NBUF
    ensures Linked(PushFront(Unlink(bs, order[k]), order[k]), [order[k]] + Without(order, k))
    ensures SameBut(bs, PushFront(Unlink(bs, order[k]), order[k]))
  {
    UnlinkLinks(bs, order, k);
    PushFrontLinks(Unlink(bs, order[k]), Without(order, k), order[k]);
  }

  /** Changing the payload of a buffer leaves the circle alone. */
  lemma PayloadKeepsLinks(bs: seq<Buf>, order: seq<nat>, i: nat, v: Buf)
    requires Linked(bs, order) && i < |bs| && v.next == bs[i].next && v.prev == bs[i].prev
    ensures Linked(bs[i := v], order)
  {
    var bs' := bs[i := v];
    forall k | 0 <= k <= |order|
      ensures LinkedAt(bs', order, k)
    {
      assert LinkedAt(bs, order, k);
    }
  }
}
