/**
  The free list of umalloc.c as a value: one circle of headers in address
  order through the static `base`, and the units it accounts for.
  Addresses and sizes are in units of sizeof(Header).
 */
module HeapList {
  /** The header that follows node i on the circle. */
  function Succ(nodes: seq<nat>, i: nat): nat
    requires i < |nodes|
  {
    if i + 1 < |nodes| then nodes[i + 1] else nodes[0]
  }

  ghost predicate NodeOk(nodes: seq<nat>, ptr: map<nat, nat>, size: map<nat, nat>, i: nat)
    requires i < |nodes|
  {
    && nodes[i] in ptr && nodes[i] in size && ptr[nodes[i]] == Succ(nodes, i)
    && (i > 0 ==> size[nodes[i]] >= 1)
  }

  /** Node i ends strictly before node j begins: in order, disjoint, not adjacent. */
  ghost predicate Before(nodes: seq<nat>, size: map<nat, nat>, i: nat, j: nat)
    requires i < |nodes| && j < |nodes|
  {
    nodes[i] in size && nodes[i] + size[nodes[i]] < nodes[j]
  }

  /** One circle in address order from base, no two free blocks adjacent. */
  ghost predicate Circle(base: nat, nodes: seq<nat>, ptr: map<nat, nat>, size: map<nat, nat>) {
    && |nodes| >= 1 && nodes[0] == base && base in size && size[base] == 0
    && (forall i: nat | i < |nodes| :: NodeOk(nodes, ptr, size, i))
    && (forall i: nat, j: nat | i < j < |nodes| :: Before(nodes, size, i, j))
  }

  /** u lies in the free block at node i. */
  ghost predicate InNode(nodes: seq<nat>, size: map<nat, nat>, i: int, u: nat) {
    1 <= i < |nodes| && nodes[i] in size && nodes[i] <= u < nodes[i] + size[nodes[i]]
  }

  ghost predicate InFree(nodes: seq<nat>, size: map<nat, nat>, u: nat) {
    exists i :: InNode(nodes, size, i, u)
  }

  ghost predicate InBlock(live: map<nat, nat>, a: nat, u: nat) {
    a in live && a <= u < a + live[a]
  }

  ghost predicate InLive(live: map<nat, nat>, u: nat) {
    exists a :: InBlock(live, a, u)
  }

  /**
    Conservation: a unit obtained from sbrk lies in exactly one place, a free
    block or a live one, and no other unit lies anywhere.
   */
  ghost predicate Partition(base: nat, nodes: seq<nat>, size: map<nat, nat>, live: map<nat, nat>, obtained: set<nat>) {
    && (forall u: nat :: u in obtained <==> InFree(nodes, size, u) || InLive(live, u))
    && (forall u: nat :: !(InFree(nodes, size, u) && InLive(live, u)))
    && (forall a, b, u | a in live && b in live && a != b :: !(InBlock(live, a, u) && InBlock(live, b, u)))
    && (forall a | a in live :: a in size && size[a] == live[a] >= 1)
    && (forall u | u in obtained :: u > base)
  }

  // ----------------------------------------------------- editing the circle

  /** Nodes i .. j-1 replaced by one block at b. */
  function Replaced(nodes: seq<nat>, i: nat, j: nat, b: nat): seq<nat>
    requires i <= j <= |nodes|
  {
    nodes[..i] + [b] + nodes[j..]
  }

  function OldIndex(i: nat, j: nat, h: nat): nat
    requires i <= j && h != i
  {
    if h < i then h else h - 1 + j - i
  }

  lemma ReplacedAt(nodes: seq<nat>, i: nat, j: nat, b: nat, h: nat)
    requires i <= j <= |nodes| && h < |Replaced(nodes, i, j, b)|
    ensures h != i ==> OldIndex(i, j, h) < |nodes|
    ensures Replaced(nodes, i, j, b)[h] == if h == i then b else nodes[if h < i then h else h - 1 + j - i]
  {
  }

  /** The header stores that free makes, whichever neighbours it merges with. */
  ghost predicate Rewired(nodes: seq<nat>, ptr: map<nat, nat>, size: map<nat, nat>, i: nat, j: nat, b: nat, m: nat,
                          ptr': map<nat, nat>, size': map<nat, nat>)
    requires 1 <= i <= j <= |nodes|
  {
    && b in ptr' && b in size' && size'[b] == m && ptr'[b] == (if j < |nodes| then nodes[j] else nodes[0])
    && (nodes[i - 1] != b ==> nodes[i - 1] in ptr' && ptr'[nodes[i - 1]] == b)
    && (forall h: nat | h < |nodes| && !(i <= h < j) ::
        nodes[h] in size' && nodes[h] in size && size'[nodes[h]] == size[nodes[h]])
    && (forall h: nat | h < |nodes| && !(i <= h < j) && h != i - 1 ::
        nodes[h] in ptr' && nodes[h] in ptr && ptr'[nodes[h]] == ptr[nodes[h]])
  }

  lemma ReplacedNode(base: nat, nodes: seq<nat>, ptr: map<nat, nat>, size: map<nat, nat>, i: nat, j: nat, b: nat,
                     m: nat, ptr': map<nat, nat>, size': map<nat, nat>, h: nat)
    requires Circle(base, nodes, ptr, size) && 1 <= i <= j <= |nodes| && m >= 1
    requires Rewired(nodes, ptr, size, i, j, b, m, ptr', size')
    requires nodes[i - 1] + size[nodes[i - 1]] < b && (j < |nodes| ==> b + m < nodes[j])
    requires h < |Replaced(nodes, i, j, b)|
    ensures NodeOk(Replaced(nodes, i, j, b), ptr', size', h)
  {
    var nodes' := Replaced(nodes, i, j, b);
    ReplacedAt(nodes, i, j, b, h);
    if h + 1 < |nodes'| { ReplacedAt(nodes, i, j, b, h + 1); }
    if h != i {
      assert NodeOk(nodes, ptr, size, if h < i then h else h - 1 + j - i);
    }
  }

  lemma ReplacedBefore(base: nat, nodes: seq<nat>, ptr: map<nat, nat>, size: map<nat, nat>, i: nat, j: nat, b: nat,
                       m: nat, ptr': map<nat, nat>, size': map<nat, nat>, h: nat, g: nat)
    requires Circle(base, nodes, ptr, size) && 1 <= i <= j <= |nodes| && m >= 1
    requires Rewired(nodes, ptr, size, i, j, b, m, ptr', size')
    requires nodes[i - 1] + size[nodes[i - 1]] < b && (j < |nodes| ==> b + m < nodes[j])
    requires h < g < |Replaced(nodes, i, j, b)|
    ensures Replaced(nodes, i, j, b)[h] in size' && Before(Replaced(nodes, i, j, b), size', h, g)
  {
    ReplacedAt(nodes, i, j, b, h);
    ReplacedAt(nodes, i, j, b, g);
    if h == i {
      if j < OldIndex(i, j, g) { assert Before(nodes, size, j, OldIndex(i, j, g)); }
    } else if g == i {
      if h < i - 1 { assert Before(nodes, size, h, i - 1); }
    } else {
      assert Before(nodes, size, OldIndex(i, j, h), OldIndex(i, j, g));
    }
  }

  /** The edited list is a circle again. */
  lemma ReplacedCircle(base: nat, nodes: seq<nat>, ptr: map<nat, nat>, size: map<nat, nat>, i: nat, j: nat, b: nat,
                       m: nat, ptr': map<nat, nat>, size': map<nat, nat>)
    requires Circle(base, nodes, ptr, size) && 1 <= i <= j <= |nodes| && m >= 1
    requires Rewired(nodes, ptr, size, i, j, b, m, ptr', size')
    requires nodes[i - 1] + size[nodes[i - 1]] < b && (j < |nodes| ==> b + m < nodes[j])
    ensures Circle(base, Replaced(nodes, i, j, b), ptr', size')
  {
    var nodes' := Replaced(nodes, i, j, b);
    ReplacedAt(nodes, i, j, b, 0);
    forall h: nat | h < |nodes'|
      ensures NodeOk(nodes', ptr', size', h)
    {
      ReplacedNode(base, nodes, ptr, size, i, j, b, m, ptr', size', h);
    }
    forall h: nat, g: nat | h < g < |nodes'|
      ensures nodes'[h] in size' && Before(nodes', size', h, g)
    {
      ReplacedBefore(base, nodes, ptr, size, i, j, b, m, ptr', size', h, g);
    }
  }

  /** What the edited list covers: the new block, and the nodes that stayed. */
  lemma ReplacedCovers(nodes: seq<nat>, ptr: map<nat, nat>, size: map<nat, nat>, i: nat, j: nat, b: nat, m: nat,
                       ptr': map<nat, nat>, size': map<nat, nat>, u: nat)
    requires 1 <= i <= j <= |nodes| && Rewired(nodes, ptr, size, i, j, b, m, ptr', size')
    ensures InFree(Replaced(nodes, i, j, b), size', u)
       <==> b <= u < b + m || exists h :: !(i <= h < j) && InNode(nodes, size, h, u)
  {
    var nodes' := Replaced(nodes, i, j, b);
    if h :| InNode(nodes', size', h, u) {
      ReplacedAt(nodes, i, j, b, h);
      if h != i { assert InNode(nodes, size, OldIndex(i, j, h), u); }
    }
    if b <= u < b + m {
      ReplacedAt(nodes, i, j, b, i);
      assert InNode(nodes', size', i, u);
    }
    if h :| !(i <= h < j) && InNode(nodes, size, h, u) {
      var h' := if h < i then h else h + 1 - (j - i);
      ReplacedAt(nodes, i, j, b, h');
      assert InNode(nodes', size', h', u);
    }
  }
}
