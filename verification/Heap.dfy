/** umalloc.c: the circular, address-ordered free list. Addresses count Header units. */
module Heap {
  import opened Options
  import VmSpec

  const HEADER := 8  // sizeof(Header)

  // ---------- the free list on values ----------

  function Get(m: map<int, int>, a: int): int {
    if a in m then m[a] else 0
  }

  /** nodes are free blocks in address order, the static `base` first, not overlapping. */
  ghost predicate Ordered(base: int, nodes: seq<int>, size: map<int, int>) {
    && |nodes| > 0 && nodes[0] == base && base in size && size[base] == 0
    && (forall i :: 0 < i < |nodes| ==> nodes[i] in size && size[nodes[i]] > 0)
    && (forall i, j :: 0 <= i < j < |nodes| ==> nodes[i] < nodes[j] && nodes[i] + Get(size, nodes[i]) <= nodes[j])
  }

  /** Each points to the next and the last back to base. */
  ghost predicate Linked(base: int, nodes: seq<int>, ptr: map<int, int>) {
    forall i {:trigger nodes[i] in ptr} {:trigger ptr[nodes[i]]} :: 0 <= i < |nodes| ==>
      nodes[i] in ptr && ptr[nodes[i]] == if i + 1 < |nodes| then nodes[i + 1] else base
  }

  predicate Adjacent(nodes: seq<int>, size: map<int, int>, j: int) {
    0 <= j && j + 1 < |nodes| && nodes[j] + Get(size, nodes[j]) == nodes[j + 1]
  }

  ghost predicate NoneTouch(nodes: seq<int>, size: map<int, int>) {
    forall j :: !Adjacent(nodes, size, j)
  }

  /** Blocks handed out overlap neither each other nor a free block, and carry their size. */
  ghost predicate LiveApart(base: int, nodes: seq<int>, size: map<int, int>, live: map<int, int>, brk: int) {
    && (forall i :: 0 <= i < |nodes| ==> nodes[i] + Get(size, nodes[i]) <= brk)
    && (forall a :: a in live ==> base < a && live[a] > 0 && a in size && size[a] == live[a] && a + live[a] <= brk)
    && (forall a, b :: a in live && b in live && a < b ==> a + live[a] <= b)
    && (forall i, a :: 0 <= i < |nodes| && a in live ==>
          if nodes[i] < a then nodes[i] + Get(size, nodes[i]) <= a else a + live[a] <= nodes[i])
  }

  ghost predicate IsFree(nodes: seq<int>, size: map<int, int>, u: int) {
    exists i :: 0 <= i < |nodes| && nodes[i] <= u < nodes[i] + Get(size, nodes[i])
  }

  ghost predicate IsLive(live: map<int, int>, u: int) {
    exists a :: a in live && a <= u < a + live[a]
  }

  /** cores are the (start, length) pieces sbrk has returned so far. */
  ghost predicate IsOwned(cores: seq<(int, int)>, u: int) {
    exists k :: 0 <= k < |cores| && cores[k].0 <= u < cores[k].0 + cores[k].1
  }

  /** Every unit from sbrk is in a free or a live block, and no other unit is. */
  ghost predicate Conserved(nodes: seq<int>, size: map<int, int>, live: map<int, int>, cores: seq<(int, int)>) {
    forall u :: IsFree(nodes, size, u) || IsLive(live, u) <==> IsOwned(cores, u)
  }

  /** The invariant of the allocator, up to neighbouring free blocks that touch. */
  ghost predicate Parts(base: int, nodes: seq<int>, ptr: map<int, int>, size: map<int, int>,
                        live: map<int, int>, brk: int, cores: seq<(int, int)>) {
    && Ordered(base, nodes, size) && Linked(base, nodes, ptr)
    && LiveApart(base, nodes, size, live, brk) && Conserved(nodes, size, live, cores)
  }

  ghost predicate HeapInv(base: int, nodes: seq<int>, ptr: map<int, int>, size: map<int, int>,
                          live: map<int, int>, brk: int, cores: seq<(int, int)>) {
    Parts(base, nodes, ptr, size, live, brk, cores) && NoneTouch(nodes, size)
  }

  // ---------- putting a block back ----------

  /** bp lies between free block i and the next one. */
  ghost predicate Between(nodes: seq<int>, i: int, bp: int) {
    0 <= i < |nodes| && nodes[i] < bp && (i + 1 < |nodes| ==> bp < nodes[i + 1])
  }

  /** Lines 33-37 of free: what they do to the headers. */
  function MergeAbove(ptr: map<int, int>, size: map<int, int>, p: int, bp: int): (r: (map<int, int>, map<int, int>))
    ensures bp in r.0
  {
    var nxt := Get(ptr, p);
    if bp + Get(size, bp) == nxt then (ptr[bp := Get(ptr, nxt)], size[bp := Get(size, bp) + Get(size, nxt)])
    else (ptr[bp := nxt], size)
  }

  /** Lines 33-42 of free. */
  function Merge(ptr: map<int, int>, size: map<int, int>, p: int, bp: int): (map<int, int>, map<int, int>) {
    var (ptr1, size1) := MergeAbove(ptr, size, p, bp);
    if p + Get(size1, p) == bp then (ptr1[p := ptr1[bp]], size1[p := Get(size1, p) + Get(size1, bp)])
    else (ptr1[p := bp], size1)
  }

  /** bp touches the free block above it. */
  predicate Up(nodes: seq<int>, size: map<int, int>, i: int, bp: int) {
    0 <= i && i + 1 < |nodes| && bp + Get(size, bp) == nodes[i + 1]
  }

  /** The free list after joining upwards only. */
  ghost function UpNodes(nodes: seq<int>, size: map<int, int>, i: int, bp: int): seq<int>
    requires 0 <= i < |nodes|
  {
    nodes[..i + 1] + [bp] + nodes[if Up(nodes, size, i, bp) then i + 2 else i + 1..]
  }

  /** The free list afterwards. */
  ghost function MergedNodes(nodes: seq<int>, size: map<int, int>, i: int, bp: int): seq<int>
    requires 0 <= i < |nodes|
  {
    var ns := UpNodes(nodes, size, i, bp);
    if nodes[i] + Get(size, nodes[i]) == bp then ns[..i + 1] + ns[i + 2..] else ns
  }

  lemma Apart(base: int, nodes: seq<int>, size: map<int, int>, k: int, l: int)
    requires Ordered(base, nodes, size) && 0 <= k < l < |nodes|
    ensures nodes[k] < nodes[l] && nodes[k] + Get(size, nodes[k]) <= nodes[l]
  {
  }

  lemma InsertOrdered(base: int, nodes: seq<int>, size: map<int, int>, live: map<int, int>, brk: int, i: int, bp: int)
    requires Ordered(base, nodes, size) && LiveApart(base, nodes, size, live, brk) && bp in live && Between(nodes, i, bp)
    ensures Ordered(base, nodes[..i + 1] + [bp] + nodes[i + 1..], size)
  {
    var ns := nodes[..i + 1] + [bp] + nodes[i + 1..];
    forall k | 0 < k < |ns| ensures ns[k] in size && size[ns[k]] > 0 {
      assert k != i + 1 ==> ns[k] == nodes[if k <= i then k else k - 1];
    }
    forall k, l | 0 <= k < l < |ns| ensures ns[k] < ns[l] && ns[k] + Get(size, ns[k]) <= ns[l] {
      hide Ordered, LiveApart;
      InsertPair(base, nodes, size, live, brk, i, bp, k, l);
    }
  }

  lemma InsertPair(base: int, nodes: seq<int>, size: map<int, int>, live: map<int, int>, brk: int, i: int, bp: int, k: int, l: int)
    requires Ordered(base, nodes, size) && LiveApart(base, nodes, size, live, brk) && bp in live && Between(nodes, i, bp)
    requires 0 <= k < l < |nodes| + 1
    ensures var ns := nodes[..i + 1] + [bp] + nodes[i + 1..];
            ns[k] < ns[l] && ns[k] + Get(size, ns[k]) <= ns[l]
  {
    hide Ordered, LiveApart;
    if k == i + 1 {
      AboveNew(base, nodes, size, live, brk, i, bp, l - 1);
    } else if l == i + 1 {
      BelowNew(base, nodes, size, live, brk, i, bp, k);
    } else {
      Apart(base, nodes, size, if k <= i then k else k - 1, if l <= i then l else l - 1);
    }
  }

  lemma BelowNew(base: int, nodes: seq<int>, size: map<int, int>, live: map<int, int>, brk: int, i: int, bp: int, k: int)
    requires Ordered(base, nodes, size) && LiveApart(base, nodes, size, live, brk) && bp in live && Between(nodes, i, bp) && 0 <= k <= i
    ensures nodes[k] < bp && nodes[k] + Get(size, nodes[k]) <= bp
  {
    assert nodes[k] <= nodes[i];
  }

  lemma AboveNew(base: int, nodes: seq<int>, size: map<int, int>, live: map<int, int>, brk: int, i: int, bp: int, k: int)
    requires Ordered(base, nodes, size) && LiveApart(base, nodes, size, live, brk) && bp in live && Between(nodes, i, bp) && i < k < |nodes|
    ensures bp < nodes[k] && bp + Get(size, bp) <= nodes[k]
  {
    assert nodes[i + 1] <= nodes[k];
  }

  lemma InsertLinked(base: int, nodes: seq<int>, ptr: map<int, int>, i: int, bp: int)
    requires Linked(base, nodes, ptr) && 0 <= i < |nodes| && bp !in nodes
    requires forall k :: 0 <= k < |nodes| && k != i ==> nodes[k] != nodes[i]
    ensures nodes[i] in ptr && Linked(base, nodes[..i + 1] + [bp] + nodes[i + 1..], ptr[bp := ptr[nodes[i]]][nodes[i] := bp])
  {
    var ns := nodes[..i + 1] + [bp] + nodes[i + 1..];
    assert nodes[i] in ptr;
    var ptr' := ptr[bp := ptr[nodes[i]]][nodes[i] := bp];
    forall k | 0 <= k < |ns| ensures ns[k] in ptr' && ptr'[ns[k]] == if k + 1 < |ns| then ns[k + 1] else base {
      if k != i + 1 {
        assert ns[k] == nodes[if k <= i then k else k - 1];
      }
    }
  }

  lemma InsertAdjacent(nodes: seq<int>, size: map<int, int>, i: int, bp: int, j: int)
    requires 0 <= i < |nodes| && j != i && j != i + 1
    ensures Adjacent(nodes[..i + 1] + [bp] + nodes[i + 1..], size, j) ==> Adjacent(nodes, size, if j < i then j else j - 1)
  {
  }

  /** Neighbours k and k+1 touch and become one. */
  lemma JoinOrdered(base: int, nodes: seq<int>, size: map<int, int>, k: int)
    requires Ordered(base, nodes, size) && Adjacent(nodes, size, k)
    ensures var a, b := nodes[k], nodes[k + 1];
            && a in size && b in size
            && Ordered(base, nodes[..k + 1] + nodes[k + 2..], size[a := size[a] + size[b]])
  {
    var a, b := nodes[k], nodes[k + 1];
    var ns, size' := nodes[..k + 1] + nodes[k + 2..], size[a := size[a] + size[b]];
    assert k > 0;
    forall i, j | 0 <= i < j < |ns| ensures ns[i] < ns[j] && ns[i] + Get(size', ns[i]) <= ns[j] {
      hide Ordered;
      NodesDiffer(base, nodes, size, k);
      var i', j' := if i <= k then i else i + 1, if j <= k then j else j + 1;
      Apart(base, nodes, size, i', j');
      if i == k {
        Apart(base, nodes, size, k + 1, j');
      }
    }
    forall i | 0 < i < |ns| ensures ns[i] in size' && size'[ns[i]] > 0 {
      assert ns[i] == nodes[if i <= k then i else i + 1];
    }
  }

  lemma JoinLinked(base: int, nodes: seq<int>, ptr: map<int, int>, k: int)
    requires Linked(base, nodes, ptr) && 0 <= k && k + 1 < |nodes|
    requires forall i :: 0 <= i < |nodes| && i != k ==> nodes[i] != nodes[k]
    ensures nodes[k + 1] in ptr && Linked(base, nodes[..k + 1] + nodes[k + 2..], ptr[nodes[k] := ptr[nodes[k + 1]]])
  {
    assert nodes[k + 1] in ptr;
    var ns, ptr' := nodes[..k + 1] + nodes[k + 2..], ptr[nodes[k] := ptr[nodes[k + 1]]];
    forall i | 0 <= i < |ns| ensures ns[i] in ptr' && ptr'[ns[i]] == if i + 1 < |ns| then ns[i + 1] else base {
      assert ns[i] == nodes[if i <= k then i else i + 1];
      assert nodes[if i <= k then i else i + 1] in ptr;
    }
  }

  lemma JoinAdjacent(base: int, nodes: seq<int>, size: map<int, int>, k: int, j: int)
    requires Ordered(base, nodes, size) && Adjacent(nodes, size, k)
    requires Adjacent(nodes[..k + 1] + nodes[k + 2..], size[nodes[k] := Get(size, nodes[k]) + Get(size, nodes[k + 1])], j)
    ensures Adjacent(nodes, size, if j < k then j else j + 1)
  {
    var j' := if j <= k then j else j + 1;
    assert j' != k ==> nodes[j'] != nodes[k];
  }

  lemma NodesDiffer(base: int, nodes: seq<int>, size: map<int, int>, i: int)
    requires Ordered(base, nodes, size) && 0 <= i < |nodes|
    ensures forall k :: 0 <= k < |nodes| && k != i ==> nodes[k] != nodes[i]
    ensures nodes[i] !in nodes[..i] && nodes[i] !in nodes[i + 1..]
  {
  }

  lemma LiveNotFree(base: int, nodes: seq<int>, size: map<int, int>, live: map<int, int>, brk: int, bp: int)
    requires Ordered(base, nodes, size) && LiveApart(base, nodes, size, live, brk) && bp in live
    ensures bp !in nodes && bp in size
  {
    forall i | 0 <= i < |nodes| ensures nodes[i] != bp {
      assert live[bp] > 0;
    }
  }

  lemma NodeSizes(base: int, nodes: seq<int>, size: map<int, int>, i: int)
    requires Ordered(base, nodes, size) && 0 <= i < |nodes|
    ensures nodes[i] in size && size[nodes[i]] >= 0
  {
  }

  lemma InsertLive(base: int, nodes: seq<int>, size: map<int, int>, live: map<int, int>, brk: int, i: int, bp: int)
    requires LiveApart(base, nodes, size, live, brk) && bp in live && 0 <= i < |nodes|
    ensures LiveApart(base, nodes[..i + 1] + [bp] + nodes[i + 1..], size, live - {bp}, brk)
  {
    var ns := nodes[..i + 1] + [bp] + nodes[i + 1..];
    forall k | 0 <= k < |ns| ensures k == i + 1 || ns[k] == nodes[if k <= i then k else k - 1] {}
  }

  lemma InsertConserved(nodes: seq<int>, size: map<int, int>, live: map<int, int>, cores: seq<(int, int)>, i: int, bp: int)
    requires Conserved(nodes, size, live, cores) && bp in live && Get(size, bp) == live[bp] && 0 <= i < |nodes|
    ensures Conserved(nodes[..i + 1] + [bp] + nodes[i + 1..], size, live - {bp}, cores)
  {
    var ns, rest := nodes[..i + 1] + [bp] + nodes[i + 1..], live - {bp};
    forall u ensures IsFree(ns, size, u) || IsLive(rest, u) <==> IsFree(nodes, size, u) || IsLive(live, u) {
      InsertUnit(nodes, size, live, i, bp, u);
    }
  }

  lemma InsertUnit(nodes: seq<int>, size: map<int, int>, live: map<int, int>, i: int, bp: int, u: int)
    requires bp in live && Get(size, bp) == live[bp] && 0 <= i < |nodes|
    ensures IsFree(nodes[..i + 1] + [bp] + nodes[i + 1..], size, u) <==> IsFree(nodes, size, u) || bp <= u < bp + live[bp]
    ensures IsLive(live, u) <==> IsLive(live - {bp}, u) || bp <= u < bp + live[bp]
  {
    var ns := nodes[..i + 1] + [bp] + nodes[i + 1..];
    if IsFree(nodes, size, u) {
      var k :| 0 <= k < |nodes| && nodes[k] <= u < nodes[k] + Get(size, nodes[k]);
      assert ns[if k <= i then k else k + 1] == nodes[k];
    }
    if IsFree(ns, size, u) {
      var k :| 0 <= k < |ns| && ns[k] <= u < ns[k] + Get(size, ns[k]);
      assert k == i + 1 || ns[k] == nodes[if k <= i then k else k - 1];
    }
    assert ns[i + 1] == bp;
    if IsLive(live, u) {
      var a :| a in live && a <= u < a + live[a];
      assert a != bp ==> a in live - {bp};
    }
  }

  lemma JoinLive(base: int, nodes: seq<int>, size: map<int, int>, live: map<int, int>, brk: int, k: int)
    requires Ordered(base, nodes, size) && LiveApart(base, nodes, size, live, brk) && Adjacent(nodes, size, k)
    ensures LiveApart(base, nodes[..k + 1] + nodes[k + 2..], size[nodes[k] := Get(size, nodes[k]) + Get(size, nodes[k + 1])], live, brk)
  {
    hide Ordered;
    var a, b := nodes[k], nodes[k + 1];
    var ns, size' := nodes[..k + 1] + nodes[k + 2..], size[a := Get(size, a) + Get(size, b)];
    NodesDiffer(base, nodes, size, k);
    NodeSizes(base, nodes, size, k);
    NodeSizes(base, nodes, size, k + 1);
    forall c | c in live ensures c != a {
      LiveNotFree(base, nodes, size, live, brk, c);
    }
    forall i | 0 <= i < |ns|
      ensures ns[i] == nodes[if i <= k then i else i + 1]
      ensures i != k ==> Get(size', ns[i]) == Get(size, ns[i])
    {}
    forall i, c | 0 <= i < |ns| && c in live
      ensures if ns[i] < c then ns[i] + Get(size', ns[i]) <= c else c + live[c] <= ns[i]
    {
      if i == k {
        assert if b < c then b + Get(size, b) <= c else c + live[c] <= b;
        assert if a < c then a + Get(size, a) <= c else c + live[c] <= a;
      }
    }
  }

  lemma JoinConserved(base: int, nodes: seq<int>, size: map<int, int>, live: map<int, int>, cores: seq<(int, int)>, k: int)
    requires Ordered(base, nodes, size) && Conserved(nodes, size, live, cores) && Adjacent(nodes, size, k)
    ensures Conserved(nodes[..k + 1] + nodes[k + 2..], size[nodes[k] := Get(size, nodes[k]) + Get(size, nodes[k + 1])], live, cores)
  {
    hide Ordered;
    forall u {
      JoinUnit(base, nodes, size, k, u);
    }
  }

  lemma JoinUnit(base: int, nodes: seq<int>, size: map<int, int>, k: int, u: int)
    requires Ordered(base, nodes, size) && Adjacent(nodes, size, k)
    ensures IsFree(nodes[..k + 1] + nodes[k + 2..], size[nodes[k] := Get(size, nodes[k]) + Get(size, nodes[k + 1])], u) <==> IsFree(nodes, size, u)
  {
    hide Ordered;
    var a, b := nodes[k], nodes[k + 1];
    var ns, size' := nodes[..k + 1] + nodes[k + 2..], size[a := Get(size, a) + Get(size, b)];
    NodesDiffer(base, nodes, size, k);
    NodeSizes(base, nodes, size, k);
    NodeSizes(base, nodes, size, k + 1);
    assert ns[k] == a;
    if IsFree(nodes, size, u) {
      var i :| 0 <= i < |nodes| && nodes[i] <= u < nodes[i] + Get(size, nodes[i]);
      if i != k && i != k + 1 {
        assert ns[if i < k then i else i - 1] == nodes[i];
      }
    }
    if IsFree(ns, size', u) {
      var i :| 0 <= i < |ns| && ns[i] <= u < ns[i] + Get(size', ns[i]);
      assert ns[i] == nodes[if i <= k then i else i + 1];
    }
  }

  /** A block leaves the live set and enters the list between two others. */
  lemma Insert(base: int, nodes: seq<int>, ptr: map<int, int>, size: map<int, int>,
               live: map<int, int>, brk: int, cores: seq<(int, int)>, i: int, bp: int)
    requires Parts(base, nodes, ptr, size, live, brk, cores) && bp in live && Between(nodes, i, bp)
    ensures nodes[i] in ptr
    ensures Parts(base, nodes[..i + 1] + [bp] + nodes[i + 1..], ptr[bp := ptr[nodes[i]]][nodes[i] := bp], size, live - {bp}, brk, cores)
  {
    assert Get(size, bp) == live[bp];
    hide LiveApart, Ordered, Linked, Conserved;
    LiveNotFree(base, nodes, size, live, brk, bp);
    NodesDiffer(base, nodes, size, i);
    InsertOrdered(base, nodes, size, live, brk, i, bp);
    InsertLinked(base, nodes, ptr, i, bp);
    InsertLive(base, nodes, size, live, brk, i, bp);
    InsertConserved(nodes, size, live, cores, i, bp);
  }

  /** Two touching neighbours become one block. */
  lemma Join(base: int, nodes: seq<int>, ptr: map<int, int>, size: map<int, int>,
             live: map<int, int>, brk: int, cores: seq<(int, int)>, k: int)
    requires Parts(base, nodes, ptr, size, live, brk, cores) && Adjacent(nodes, size, k)
    ensures nodes[k + 1] in ptr
    ensures Parts(base, nodes[..k + 1] + nodes[k + 2..], ptr[nodes[k] := ptr[nodes[k + 1]]],
                  size[nodes[k] := Get(size, nodes[k]) + Get(size, nodes[k + 1])], live, brk, cores)
  {
    hide LiveApart, Ordered, Linked, Conserved;
    NodesDiffer(base, nodes, size, k);
    JoinOrdered(base, nodes, size, k);
    JoinLinked(base, nodes, ptr, k);
    JoinLive(base, nodes, size, live, brk, k);
    JoinConserved(base, nodes, size, live, cores, k);
  }

  lemma NextOf(base: int, nodes: seq<int>, ptr: map<int, int>, i: int)
    requires Linked(base, nodes, ptr) && 0 <= i < |nodes|
    ensures nodes[i] in ptr && ptr[nodes[i]] == if i + 1 < |nodes| then nodes[i + 1] else base
  {
  }

  lemma LiveAbove(base: int, nodes: seq<int>, size: map<int, int>, live: map<int, int>, brk: int, a: int)
    requires LiveApart(base, nodes, size, live, brk) && a in live
    ensures a in size && Get(size, a) == live[a] > 0 && base < a && a + live[a] <= brk
  {
  }

  lemma MergeUp(base: int, nodes: seq<int>, ptr: map<int, int>, size: map<int, int>,
                live: map<int, int>, brk: int, cores: seq<(int, int)>, i: int, bp: int)
    requires HeapInv(base, nodes, ptr, size, live, brk, cores) && bp in live && Between(nodes, i, bp)
    ensures var (ptr1, size1) := MergeAbove(ptr, size, nodes[i], bp);
            var ns := UpNodes(nodes, size, i, bp);
            && Parts(base, ns, ptr1[nodes[i] := bp], size1, live - {bp}, brk, cores)
            && (forall j :: Adjacent(ns, size1, j) ==> j == i)
            && Get(size1, bp) >= live[bp] && Get(size1, nodes[i]) == Get(size, nodes[i])
  {
    hide LiveApart, Ordered, Linked, Conserved;
    var ns := nodes[..i + 1] + [bp] + nodes[i + 1..];
    Insert(base, nodes, ptr, size, live, brk, cores, i, bp);
    NextOf(base, nodes, ptr, i);
    LiveAbove(base, nodes, size, live, brk, bp);
    var p, ptr1 := nodes[i], ptr[bp := ptr[nodes[i]]][nodes[i] := bp];
    forall j | Adjacent(ns, size, j) ensures j == i || j == i + 1 {
      if j != i && j != i + 1 {
        InsertAdjacent(nodes, size, i, bp, j);
      }
    }
    assert Adjacent(ns, size, i + 1) <==> Up(nodes, size, i, bp);
    if Up(nodes, size, i, bp) {
      var nxt := nodes[i + 1];
      Join(base, ns, ptr1, size, live - {bp}, brk, cores, i + 1);
      NextOf(base, nodes, ptr, i + 1);
      NodeSizes(base, nodes, size, i + 1);
      var ns2, size2 := ns[..i + 2] + ns[i + 3..], size[bp := Get(size, bp) + Get(size, nxt)];
      assert ns2 == UpNodes(nodes, size, i, bp);
      assert ptr1[bp := ptr1[nxt]] == ptr[bp := ptr[nxt]][p := bp];
      forall j | Adjacent(ns2, size2, j) ensures j == i {
        JoinAdjacent(base, ns, size, i + 1, j);
      }
    }
  }

  /** Lines 33-42 of free keep the whole invariant once p is the free block just below bp. */
  lemma MergeKeeps(base: int, nodes: seq<int>, ptr: map<int, int>, size: map<int, int>,
                   live: map<int, int>, brk: int, cores: seq<(int, int)>, i: int, bp: int)
    requires HeapInv(base, nodes, ptr, size, live, brk, cores) && bp in live && Between(nodes, i, bp)
    ensures var (ptr', size') := Merge(ptr, size, nodes[i], bp);
            var ns := MergedNodes(nodes, size, i, bp);
            && HeapInv(base, ns, ptr', size', live - {bp}, brk, cores)
            && nodes[i] in ns
            && exists j :: 0 <= j < |ns| && Get(size', ns[j]) >= live[bp]
  {
    hide LiveApart, Ordered, Linked, Conserved;
    var p := nodes[i];
    MergeUp(base, nodes, ptr, size, live, brk, cores, i, bp);
    var (ptr1, size1) := MergeAbove(ptr, size, p, bp);
    var ns := UpNodes(nodes, size, i, bp);
    assert ns[i] == p && ns[i + 1] == bp;
    assert Adjacent(ns, size1, i) <==> p + Get(size, p) == bp;
    if Adjacent(ns, size1, i) {
      Join(base, ns, ptr1[p := bp], size1, live - {bp}, brk, cores, i);
      NodeSizes(base, nodes, size, i);
      var ns2, size2 := ns[..i + 1] + ns[i + 2..], size1[p := Get(size1, p) + Get(size1, bp)];
      assert ptr1[p := bp][p := ptr1[bp]] == ptr1[p := ptr1[bp]];
      forall j ensures !Adjacent(ns2, size2, j) {
        if Adjacent(ns2, size2, j) {
          JoinAdjacent(base, ns, size1, i, j);
        }
      }
      assert ns2[i] == p && Get(size2, p) >= live[bp];
    } else {
      assert Get(size1, ns[i + 1]) >= live[bp];
    }
  }

  // ---------- handing a block out ----------

  lemma DropOrdered(base: int, nodes: seq<int>, size: map<int, int>, k: int)
    requires Ordered(base, nodes, size) && 0 < k < |nodes|
    ensures Ordered(base, nodes[..k] + nodes[k + 1..], size)
  {
    var ns := nodes[..k] + nodes[k + 1..];
    forall i, j | 0 <= i < j < |ns| ensures ns[i] < ns[j] && ns[i] + Get(size, ns[i]) <= ns[j] {
      hide Ordered;
      Apart(base, nodes, size, if i < k then i else i + 1, if j < k then j else j + 1);
    }
    forall i | 0 < i < |ns| ensures ns[i] in size && size[ns[i]] > 0 {
      assert ns[i] == nodes[if i < k then i else i + 1];
    }
  }

  lemma DropTouch(base: int, nodes: seq<int>, size: map<int, int>, k: int)
    requires Ordered(base, nodes, size) && NoneTouch(nodes, size) && 0 < k < |nodes|
    ensures NoneTouch(nodes[..k] + nodes[k + 1..], size)
  {
    hide Ordered;
    var ns := nodes[..k] + nodes[k + 1..];
    forall j ensures !Adjacent(ns, size, j) {
      assert !Adjacent(nodes, size, if j < k then j else j + 1);
      if j == k - 1 && k + 1 < |nodes| {
        Apart(base, nodes, size, k - 1, k);
        Apart(base, nodes, size, k, k + 1);
      }
    }
  }

  lemma DropLive(base: int, nodes: seq<int>, size: map<int, int>, live: map<int, int>, brk: int, k: int)
    requires Ordered(base, nodes, size) && LiveApart(base, nodes, size, live, brk) && 0 < k < |nodes|
    ensures nodes[k] in size && nodes[k] !in live
    ensures LiveApart(base, nodes[..k] + nodes[k + 1..], size, live[nodes[k] := size[nodes[k]]], brk)
  {
    var ns, p := nodes[..k] + nodes[k + 1..], nodes[k];
    Apart(base, nodes, size, 0, k);
    if p in live {
      LiveNotFree(base, nodes, size, live, brk, p);
    }
    forall i | 0 <= i < |ns|
      ensures ns[i] == nodes[if i < k then i else i + 1]
      ensures if ns[i] < p then ns[i] + Get(size, ns[i]) <= p else p + size[p] <= ns[i]
    {
      hide Ordered, LiveApart;
      NodeSizes(base, nodes, size, k);
      if i < k {
        Apart(base, nodes, size, i, k);
      } else {
        Apart(base, nodes, size, k, i + 1);
      }
    }
    assert size[p] > 0;
    hide Ordered;
  }

  lemma DropUnit(base: int, nodes: seq<int>, size: map<int, int>, live: map<int, int>, k: int, u: int)
    requires 0 <= k < |nodes| && nodes[k] in size && nodes[k] !in live
    ensures IsFree(nodes, size, u) || IsLive(live, u) <==>
            IsFree(nodes[..k] + nodes[k + 1..], size, u) || IsLive(live[nodes[k] := size[nodes[k]]], u)
  {
    var ns, p := nodes[..k] + nodes[k + 1..], nodes[k];
    var live' := live[p := size[p]];
    if IsFree(nodes, size, u) {
      var i :| 0 <= i < |nodes| && nodes[i] <= u < nodes[i] + Get(size, nodes[i]);
      if i != k {
        assert ns[if i < k then i else i - 1] == nodes[i];
      } else {
        assert p in live';
      }
    }
    if IsFree(ns, size, u) {
      var i :| 0 <= i < |ns| && ns[i] <= u < ns[i] + Get(size, ns[i]);
      assert ns[i] == nodes[if i < k then i else i + 1];
    }
    if IsLive(live, u) {
      var a :| a in live && a <= u < a + live[a];
      assert a in live' && live'[a] == live[a];
    }
    if IsLive(live', u) {
      var a :| a in live' && a <= u < a + live'[a];
      assert a != p ==> a in live;
    }
  }

  /** malloc takes a block of exactly the right size out of the list. */
  lemma TakeWhole(base: int, nodes: seq<int>, ptr: map<int, int>, size: map<int, int>,
                  live: map<int, int>, brk: int, cores: seq<(int, int)>, k: int)
    requires HeapInv(base, nodes, ptr, size, live, brk, cores) && 0 < k < |nodes|
    ensures nodes[k] in size && nodes[k] in ptr && nodes[k] !in live
    ensures HeapInv(base, nodes[..k] + nodes[k + 1..], ptr[nodes[k - 1] := ptr[nodes[k]]], size,
                    live[nodes[k] := size[nodes[k]]], brk, cores)
  {
    hide LiveApart, Ordered, Linked;
    DropOrdered(base, nodes, size, k);
    DropTouch(base, nodes, size, k);
    DropLive(base, nodes, size, live, brk, k);
    NodesDiffer(base, nodes, size, k - 1);
    JoinLinked(base, nodes, ptr, k - 1);
    forall u {
      DropUnit(base, nodes, size, live, k, u);
    }
  }

  lemma SplitOrdered(base: int, nodes: seq<int>, size: map<int, int>, k: int, n: int)
    requires Ordered(base, nodes, size) && 0 < k < |nodes| && 0 < n < Get(size, nodes[k])
    ensures var p, a := nodes[k], nodes[k] + Get(size, nodes[k]) - n;
            a !in nodes && Ordered(base, nodes, size[p := Get(size, p) - n][a := n])
  {
    var p, a := nodes[k], nodes[k] + Get(size, nodes[k]) - n;
    var size' := size[p := Get(size, p) - n][a := n];
    forall i | 0 <= i < |nodes| ensures nodes[i] != a && (i != k ==> nodes[i] != p) {
      hide Ordered;
      if i < k {
        Apart(base, nodes, size, i, k);
      } else if i > k {
        Apart(base, nodes, size, k, i);
      }
    }
    forall i, j | 0 <= i < j < |nodes| ensures nodes[i] < nodes[j] && nodes[i] + Get(size', nodes[i]) <= nodes[j] {
      hide Ordered;
      Apart(base, nodes, size, i, j);
    }
  }

  lemma SplitLive(base: int, nodes: seq<int>, size: map<int, int>, live: map<int, int>, brk: int, k: int, n: int)
    requires Ordered(base, nodes, size) && LiveApart(base, nodes, size, live, brk)
    requires 0 < k < |nodes| && 0 < n < Get(size, nodes[k])
    ensures var p, a := nodes[k], nodes[k] + Get(size, nodes[k]) - n;
            a !in live && LiveApart(base, nodes, size[p := Get(size, p) - n][a := n], live[a := n], brk)
  {
    var p, a := nodes[k], nodes[k] + Get(size, nodes[k]) - n;
    var size' := size[p := Get(size, p) - n][a := n];
    assert p in size && p > base by { Apart(base, nodes, size, 0, k); NodeSizes(base, nodes, size, k); }
    hide Ordered, LiveApart;
    forall c | c in live ensures c != a && c != p && if c < a then c + live[c] <= a else a + n <= c {
      SplitFromLive(base, nodes, size, live, brk, k, n, c);
    }
    forall i | 0 <= i < |nodes| && i != k
      ensures Get(size', nodes[i]) == Get(size, nodes[i])
      ensures if nodes[i] < a then nodes[i] + Get(size, nodes[i]) <= a else a + n <= nodes[i]
    {
      if i < k {
        Apart(base, nodes, size, i, k);
      } else {
        Apart(base, nodes, size, k, i);
      }
    }
    SplitTail(base, nodes, size, live, brk, k, n);
  }

  /** A tail of block k that keeps clear of every other block can be handed out. */
  lemma SplitTail(base: int, nodes: seq<int>, size: map<int, int>, live: map<int, int>, brk: int, k: int, n: int)
    requires LiveApart(base, nodes, size, live, brk)
    requires 0 < k < |nodes| && 0 < n < Get(size, nodes[k]) && nodes[k] in size && base < nodes[k]
    requires var p, a := nodes[k], nodes[k] + Get(size, nodes[k]) - n;
             && (forall c :: c in live ==> c != a && c != p && if c < a then c + live[c] <= a else a + n <= c)
             && (forall i :: 0 <= i < |nodes| && i != k ==>
                   && Get(size[p := Get(size, p) - n][a := n], nodes[i]) == Get(size, nodes[i])
                   && if nodes[i] < a then nodes[i] + Get(size, nodes[i]) <= a else a + n <= nodes[i])
    ensures var p, a := nodes[k], nodes[k] + Get(size, nodes[k]) - n;
            a !in live && LiveApart(base, nodes, size[p := Get(size, p) - n][a := n], live[a := n], brk)
  {
  }

  lemma SplitFromLive(base: int, nodes: seq<int>, size: map<int, int>, live: map<int, int>, brk: int, k: int, n: int, c: int)
    requires Ordered(base, nodes, size) && LiveApart(base, nodes, size, live, brk)
    requires 0 < k < |nodes| && 0 < n < Get(size, nodes[k]) && c in live
    ensures var p, a := nodes[k], nodes[k] + Get(size, nodes[k]) - n;
            c != a && c != p && if c < a then c + live[c] <= a else a + n <= c
  {
    assert if nodes[k] < c then nodes[k] + Get(size, nodes[k]) <= c else c + live[c] <= nodes[k];
    LiveNotFree(base, nodes, size, live, brk, c);
  }

  lemma SplitUnit(nodes: seq<int>, size: map<int, int>, live: map<int, int>, k: int, n: int, u: int)
    requires 0 <= k < |nodes| && 0 < n < Get(size, nodes[k])
    requires nodes[k] + Get(size, nodes[k]) - n !in nodes && nodes[k] + Get(size, nodes[k]) - n !in live
    requires forall i :: 0 <= i < |nodes| && i != k ==> nodes[i] != nodes[k]
    ensures var p, a := nodes[k], nodes[k] + Get(size, nodes[k]) - n;
            IsFree(nodes, size, u) || IsLive(live, u) <==>
            IsFree(nodes, size[p := Get(size, p) - n][a := n], u) || IsLive(live[a := n], u)
  {
    var p, a := nodes[k], nodes[k] + Get(size, nodes[k]) - n;
    var size', live' := size[p := Get(size, p) - n][a := n], live[a := n];
    assert forall i :: 0 <= i < |nodes| ==> Get(size', nodes[i]) == if i == k then Get(size, nodes[i]) - n else Get(size, nodes[i]);
    assert live'[a] == n;
    if IsFree(nodes, size, u) {
      var i :| 0 <= i < |nodes| && nodes[i] <= u < nodes[i] + Get(size, nodes[i]);
      assert nodes[i] <= u < nodes[i] + Get(size', nodes[i]) || i == k;
    }
    if IsFree(nodes, size', u) {
      var i :| 0 <= i < |nodes| && nodes[i] <= u < nodes[i] + Get(size', nodes[i]);
      assert nodes[i] <= u < nodes[i] + Get(size, nodes[i]);
    }
    if IsLive(live, u) {
      var c :| c in live && c <= u < c + live[c];
      assert c in live' && live'[c] == live[c];
    }
    if IsLive(live', u) {
      var c :| c in live' && c <= u < c + live'[c];
      assert if c == a then p <= u < p + Get(size, p) else c in live;
    }
  }

  /** malloc cuts the tail off a larger block. */
  lemma TakeTail(base: int, nodes: seq<int>, ptr: map<int, int>, size: map<int, int>,
                 live: map<int, int>, brk: int, cores: seq<(int, int)>, k: int, n: int)
    requires HeapInv(base, nodes, ptr, size, live, brk, cores) && 0 < k < |nodes| && 0 < n < Get(size, nodes[k])
    ensures var p, a := nodes[k], nodes[k] + Get(size, nodes[k]) - n;
            && a !in live
            && HeapInv(base, nodes, ptr, size[p := Get(size, p) - n][a := n], live[a := n], brk, cores)
  {
    hide LiveApart, Ordered, Linked;
    var p, a := nodes[k], nodes[k] + Get(size, nodes[k]) - n;
    var size' := size[p := Get(size, p) - n][a := n];
    SplitOrdered(base, nodes, size, k, n);
    SplitLive(base, nodes, size, live, brk, k, n);
    NodesDiffer(base, nodes, size, k);
    forall u {
      SplitUnit(nodes, size, live, k, n, u);
    }
    forall j ensures !Adjacent(nodes, size', j) {
      assert !Adjacent(nodes, size, j);
      if j == k && k + 1 < |nodes| {
        Apart(base, nodes, size, k, k + 1);
      }
    }
  }

  // ---------- the search of free ----------

  /** The free block just below bp, if the walk of the list were from its start. */
  ghost function Place(nodes: seq<int>, bp: int): (i: int)
    requires |nodes| > 0 && nodes[0] < bp
    ensures 0 <= i < |nodes| && nodes[i] < bp && (i + 1 < |nodes| ==> bp <= nodes[i + 1])
    decreases |nodes|
  {
    if nodes[|nodes| - 1] < bp then |nodes| - 1 else Place(nodes[..|nodes| - 1], bp)
  }

  /** The exit test of the search at block k: true exactly just below bp. */
  predicate Stops(p: int, nxt: int, bp: int) {
    (bp > p && bp < nxt) || (p >= nxt && (bp > p || bp < nxt))
  }

  lemma StopsExactly(base: int, nodes: seq<int>, ptr: map<int, int>, size: map<int, int>,
                     live: map<int, int>, brk: int, k: int, bp: int)
    requires Ordered(base, nodes, size) && Linked(base, nodes, ptr) && LiveApart(base, nodes, size, live, brk)
    requires bp in live && 0 <= k < |nodes|
    ensures nodes[k] in ptr && nodes[0] < bp
    ensures Stops(nodes[k], ptr[nodes[k]], bp) <==> k == Place(nodes, bp)
    ensures Between(nodes, Place(nodes, bp), bp)
  {
    hide Linked, LiveApart, Ordered;
    assert nodes[0] == base by { FirstIsBase(base, nodes, size); }
    NextOf(base, nodes, ptr, k);
    LiveAbove(base, nodes, size, live, brk, bp);
    LiveNotFree(base, nodes, size, live, brk, bp);
    var i := Place(nodes, bp);
    assert i + 1 < |nodes| ==> bp != nodes[i + 1];
    if k + 1 < |nodes| {
      Apart(base, nodes, size, k, k + 1);
    }
    if k + 1 < i {
      Apart(base, nodes, size, k + 1, i);
    } else if k > i + 1 {
      Apart(base, nodes, size, i + 1, k);
    }
    if k > 0 {
      Apart(base, nodes, size, 0, k);
    }
  }

  lemma FirstIsBase(base: int, nodes: seq<int>, size: map<int, int>)
    requires Ordered(base, nodes, size)
    ensures |nodes| > 0 && nodes[0] == base && Get(size, base) == 0
  {
  }

  /** Steps from index f to index k going round a ring of n, from 1 to n. */
  function Ahead(n: int, f: int, k: int): int {
    if k > f then k - f else k - f + n
  }

  // ---------- sizes ----------

  const WIDTH := 0x1_0000_0000

  function Units(nbytes: int): int {
    ((nbytes + HEADER - 1) % WIDTH) / HEADER + 1
  }

  /** A block of Units(nbytes) has less than a header to spare, and it has room for nbytes exactly
      when rounding up does not wrap around. */
  lemma UnitsEnough(nbytes: int)
    requires 0 <= nbytes < WIDTH
    ensures 1 <= Units(nbytes) && (Units(nbytes) - 1) * HEADER < nbytes + HEADER
    ensures nbytes <= (Units(nbytes) - 1) * HEADER <==> nbytes + HEADER - 1 < WIDTH
    ensures nbytes + HEADER - 1 >= WIDTH ==> Units(nbytes) == 1
  {
  }

  /** malloc(0xffffffff) asks for one unit: a header with no bytes after it. */
  lemma WrapsShort()
    ensures Units(WIDTH - 1) == 1
  {
  }

  /** morecore asks for no less than 4096 units. */
  function CoreUnits(nunits: int): (nu: int)
    ensures nu >= nunits && nu >= 4096 && (nu == nunits || nu == 4096)
  {
    if nunits < 4096 then 4096 else nunits
  }

  // ---------- what sbrk is asked for, and what it gives ----------

  /** nu * sizeof(Header), computed in 32 bits and passed as an int. */
  function SbrkArg(nu: int): (n: int)
    ensures -(WIDTH / 2) <= n < WIDTH / 2 && (nu * HEADER - n) % WIDTH == 0
  {
    var u := nu * HEADER % WIDTH;
    if u < WIDTH / 2 then u else u - WIDTH
  }

  /** What sbrk answers (None is -1), the process size, and how much memory from 0 up the process still has. */
  datatype Break = Break(answer: Option<int>, sz: int, usable: int)

  /** sys_sbrk of n bytes through growproc; grant says whether allocuvm finds the pages. */
  function Sbrk(sz: int, n: int, grant: bool): Break {
    if n > 0 then
      if grant && sz + n < VmSpec.KERNBASE then Break(Some(sz), sz + n, sz + n) else Break(None, sz, sz)
    else if n < 0 then
      var newsz := (sz + n) % WIDTH;
      if newsz >= sz then Break(if sz == 0 then None else Some(sz), sz, sz)
      else if newsz == 0 then Break(None, sz, 0)
      else Break(Some(sz), newsz, newsz)
    else Break(Some(sz), sz, sz)
  }

  /** sbrk gives the n bytes above the old size exactly if n is positive, below the kernel and to be had;
      with any other argument it gives nothing, whatever it answers, and leaves the old memory alone
      exactly if n is not negative or reaches below 0. */
  lemma SbrkGives(sz: int, n: int, grant: bool)
    requires 0 < sz < VmSpec.KERNBASE && -(WIDTH / 2) <= n < WIDTH / 2
    ensures var b := Sbrk(sz, n, grant);
            && (b.answer == Some(sz) && b.usable == b.sz == sz + n && n > 0 <==> n > 0 && grant && sz + n < VmSpec.KERNBASE)
            && (n <= 0 ==> b.usable <= sz && (b.answer.None? ==> b.usable == 0))
            && (b.usable >= sz <==> n >= 0 || sz + n < 0)
            && (n == 0 || sz + n < 0 ==> b == Break(Some(sz), sz, sz))
            && (n < 0 && sz + n == 0 ==> b == Break(None, sz, 0))
            && (n < 0 && sz + n > 0 ==> b == Break(Some(sz), sz + n, sz + n))
  {
  }

  /** morecore asks for what it means to ask for exactly below 2^28 units. */
  lemma ArgPositive(nu: int)
    requires 0 < nu <= 0x2000_0000
    ensures SbrkArg(nu) > 0 <==> nu * HEADER < WIDTH / 2
    ensures SbrkArg(nu) > 0 ==> SbrkArg(nu) == nu * HEADER
    ensures -(WIDTH / 2) <= SbrkArg(nu) < WIDTH / 2 && SbrkArg(nu) % HEADER == 0
  {
  }

  /** The units are enough and sbrk is asked for them exactly for the sizes up to 0x7ffffff0. */
  lemma AskedRight(nbytes: int)
    requires 0 <= nbytes < WIDTH
    ensures 1 <= Units(nbytes) <= CoreUnits(Units(nbytes)) <= 0x2000_0000
    ensures SbrkArg(CoreUnits(Units(nbytes))) > 0 && nbytes <= (Units(nbytes) - 1) * HEADER <==> nbytes <= 0x7fff_fff0
  {
    ArgPositive(CoreUnits(Units(nbytes)));
  }

  /** malloc(0xfffffff8) makes morecore ask for 0 bytes; malloc(0x7ffffff1) for -2^31. */
  lemma AsksForNothing()
    ensures SbrkArg(CoreUnits(Units(0xffff_fff8))) == 0
    ensures SbrkArg(CoreUnits(Units(0x7fff_fff1))) == -(WIDTH / 2)
  {
  }

  // ---------- the allocator ----------

  ghost predicate Fits(nodes: seq<int>, size: map<int, int>, nunits: int) {
    exists j :: 0 <= j < |nodes| && Get(size, nodes[j]) >= nunits
  }

  lemma BorrowLive(base: int, nodes: seq<int>, size: map<int, int>, live: map<int, int>, brk: int, core: int, nu: int)
    requires LiveApart(base, nodes, size, live, brk) && base < brk <= core && nu > 0 && Ordered(base, nodes, size)
    ensures core !in live && core !in nodes
    ensures LiveApart(base, nodes, size[core := nu], live[core := nu], core + nu)
  {
    hide Ordered;
    forall i | 0 <= i < |nodes| ensures nodes[i] < core && nodes[i] + Get(size, nodes[i]) <= core {
      FirstIsBase(base, nodes, size);
      NodeSizes(base, nodes, size, i);
      if i > 0 {
        NodePositive(base, nodes, size, i);
      }
    }
  }

  lemma NodePositive(base: int, nodes: seq<int>, size: map<int, int>, i: int)
    requires Ordered(base, nodes, size) && 0 < i < |nodes|
    ensures nodes[i] in size && size[nodes[i]] > 0
  {
  }

  lemma BorrowOrdered(base: int, nodes: seq<int>, size: map<int, int>, core: int, nu: int)
    requires Ordered(base, nodes, size) && core !in nodes
    ensures Ordered(base, nodes, size[core := nu])
  {
  }

  lemma BorrowTouch(nodes: seq<int>, size: map<int, int>, core: int, nu: int)
    requires NoneTouch(nodes, size) && core !in nodes
    ensures NoneTouch(nodes, size[core := nu])
  {
    var size' := size[core := nu];
    forall j ensures !Adjacent(nodes, size', j) {
      assert !Adjacent(nodes, size, j);
    }
  }

  lemma BorrowConserved(nodes: seq<int>, size: map<int, int>, live: map<int, int>, cores: seq<(int, int)>, core: int, nu: int)
    requires Conserved(nodes, size, live, cores) && core !in nodes && core !in live
    ensures Conserved(nodes, size[core := nu], live[core := nu], cores + [(core, nu)])
  {
    var live', cores' := live[core := nu], cores + [(core, nu)];
    forall u
      ensures IsFree(nodes, size[core := nu], u) <==> IsFree(nodes, size, u)
      ensures IsLive(live', u) <==> IsLive(live, u) || core <= u < core + nu
      ensures IsOwned(cores', u) <==> IsOwned(cores, u) || core <= u < core + nu
    {
      BorrowUnit(nodes, size, live, cores, core, nu, u);
    }
  }

  lemma BorrowUnit(nodes: seq<int>, size: map<int, int>, live: map<int, int>, cores: seq<(int, int)>, core: int, nu: int, u: int)
    requires core !in nodes && core !in live
    ensures IsFree(nodes, size[core := nu], u) <==> IsFree(nodes, size, u)
    ensures IsLive(live[core := nu], u) <==> IsLive(live, u) || core <= u < core + nu
    ensures IsOwned(cores + [(core, nu)], u) <==> IsOwned(cores, u) || core <= u < core + nu
  {
    var live', cores' := live[core := nu], cores + [(core, nu)];
    assert forall i :: 0 <= i < |nodes| ==> Get(size[core := nu], nodes[i]) == Get(size, nodes[i]);
    if IsLive(live, u) {
      var a :| a in live && a <= u < a + live[a];
      assert a in live' && live'[a] == live[a];
    }
    assert core in live' && cores'[|cores|] == (core, nu);
    if IsOwned(cores, u) {
      var k :| 0 <= k < |cores| && cores[k].0 <= u < cores[k].0 + cores[k].1;
      assert cores'[k] == cores[k];
    }
    if IsOwned(cores', u) {
      var k :| 0 <= k < |cores'| && cores'[k].0 <= u < cores'[k].0 + cores'[k].1;
      assert k < |cores| ==> cores'[k] == cores[k];
    }
  }

  /** The ring right after malloc's first call has set it up. */
  lemma Fresh(base: int, brk: int)
    requires base < brk
    ensures HeapInv(base, [base], map[base := base], map[base := 0], map[], brk, [])
  {
  }

  lemma BaseTooSmall(base: int, nunits: int)
    requires nunits > 0
    ensures !Fits([base], map[base := 0], nunits)
  {
  }

  function After(n: int, k: int): int {
    if k + 1 < n then k + 1 else 0
  }

  /** None of the blocks walked over since freep, up to but not including block k, is large enough. */
  ghost predicate Scanned(nodes: seq<int>, size: map<int, int>, f: int, k: int, nunits: int) {
    forall j :: 0 <= j < |nodes| && Ahead(|nodes|, f, j) < Ahead(|nodes|, f, k) ==> Get(size, nodes[j]) < nunits
  }

  lemma ScanStart(nodes: seq<int>, size: map<int, int>, f: int, nunits: int)
    requires 0 <= f < |nodes|
    ensures Scanned(nodes, size, f, After(|nodes|, f), nunits)
  {
  }

  lemma ScanNext(nodes: seq<int>, size: map<int, int>, f: int, k: int, nunits: int)
    requires 0 <= f < |nodes| && 0 <= k < |nodes| && f != k
    requires Scanned(nodes, size, f, k, nunits) && Get(size, nodes[k]) < nunits
    ensures Scanned(nodes, size, f, After(|nodes|, k), nunits)
    ensures Ahead(|nodes|, f, k) < Ahead(|nodes|, f, After(|nodes|, k)) <= |nodes|
  {
  }

  /** A walk that has come back to freep has seen every block. */
  lemma ScanAll(nodes: seq<int>, size: map<int, int>, f: int, nunits: int)
    requires 0 <= f < |nodes| && Scanned(nodes, size, f, f, nunits) && Get(size, nodes[f]) < nunits
    ensures !Fits(nodes, size, nunits)
  {
  }

  /** a is the tail of the first block after freep that is large enough. */
  ghost predicate IsFirstFit(nodes: seq<int>, size: map<int, int>, freep: int, nunits: int, a: int) {
    exists f, k :: 0 <= f < |nodes| && 0 <= k < |nodes| && nodes[f] == freep && Scanned(nodes, size, f, k, nunits) &&
                   Get(size, nodes[k]) >= nunits && a == nodes[k] + Get(size, nodes[k]) - nunits
  }

  lemma FoundFirst(nodes: seq<int>, size: map<int, int>, f: int, k: int, nunits: int)
    requires 0 <= f < |nodes| && 0 <= k < |nodes| && Scanned(nodes, size, f, k, nunits) && Get(size, nodes[k]) >= nunits
    ensures Fits(nodes, size, nunits) && IsFirstFit(nodes, size, nodes[f], nunits, nodes[k] + Get(size, nodes[k]) - nunits)
  {
    hide Scanned;
  }

  /** Block x was free already with the same size, or covers what was the block bp. */
  ghost predicate Swallowed(nodes: seq<int>, size: map<int, int>, size': map<int, int>, bp: int, x: int) {
    (x in nodes && Get(size', x) == Get(size, x)) || (x <= bp && bp + Get(size, bp) <= x + Get(size', x))
  }

  ghost predicate AllSwallowed(nodes: seq<int>, size: map<int, int>, nodes': seq<int>, size': map<int, int>, bp: int) {
    forall j :: 0 <= j < |nodes'| ==> Swallowed(nodes, size, size', bp, nodes'[j])
  }

  /** free leaves every block of the list as it was, except the one that takes in the freed block. */
  lemma MergeRest(base: int, nodes: seq<int>, ptr: map<int, int>, size: map<int, int>,
                  live: map<int, int>, brk: int, cores: seq<(int, int)>, i: int, bp: int)
    requires HeapInv(base, nodes, ptr, size, live, brk, cores) && bp in live && Between(nodes, i, bp)
    ensures AllSwallowed(nodes, size, MergedNodes(nodes, size, i, bp), Merge(ptr, size, nodes[i], bp).1, bp)
  {
    assert base < bp && 0 <= Get(size, bp) by { hide Ordered, Linked, Conserved; }
    hide LiveApart, Ordered, Linked, Conserved, NoneTouch;
    var ns, size' := MergedNodes(nodes, size, i, bp), Merge(ptr, size, nodes[i], bp).1;
    NextOf(base, nodes, ptr, i);
    FirstIsBase(base, nodes, size);
    if i + 1 < |nodes| {
      NodeSizes(base, nodes, size, i + 1);
    }
    forall j | 0 <= j < |ns| ensures Swallowed(nodes, size, size', bp, ns[j]) {
      assert ns[j] in nodes || ns[j] == bp;
    }
  }

  /** If nothing was large enough before the piece at core came, only the block at the top is. */
  lemma TopOnly(nodes: seq<int>, size: map<int, int>, core: int, nu: int, nodes': seq<int>, size': map<int, int>, nunits: int, j: int)
    requires core !in nodes && !Fits(nodes, size, nunits) && AllSwallowed(nodes, size[core := nu], nodes', size', core)
    requires 0 <= j < |nodes'| && Get(size', nodes'[j]) >= nunits && nodes'[j] + Get(size', nodes'[j]) <= core + nu
    ensures nodes'[j] + Get(size', nodes'[j]) == core + nu
  {
    assert Swallowed(nodes, size[core := nu], size', core, nodes'[j]);
  }

  /** The heap, from the static base up to brk, lies in a process of sz bytes, all of which it has. */
  ghost predicate InMemory(base: int, brk: int, sz: int, usable: int) {
    brk * HEADER <= sz == usable && sz < VmSpec.KERNBASE && sz % HEADER == 0 && 0 <= base
  }

  /** morecore has called sbrk, which has answered an address or not: the heap has grown by the piece it
      takes for given, and is in the process's memory exactly if what it asked for fits an int. */
  ghost predicate Grown(nunits: int, grant: bool, base: int, sz0: int, cores0: seq<(int, int)>,
                        brk: int, sz: int, usable: int, cores: seq<(int, int)>, answered: bool) {
    var b := Sbrk(sz0, SbrkArg(CoreUnits(nunits)), grant);
    && sz == b.sz && usable == b.usable && answered == b.answer.Some?
    && (answered ==> brk == sz0 / HEADER + CoreUnits(nunits))
    && cores == cores0 + (if answered then [(sz0 / HEADER, CoreUnits(nunits))] else [])
    && (InMemory(base, brk, sz, usable) <==> CoreUnits(nunits) * HEADER < WIDTH / 2)
  }

  class Heap {
    const base: int
    var freep: Option<int>
    var ptr: map<int, int>
    var size: map<int, int>
    ghost var nodes: seq<int>
    ghost var live: map<int, int>
    ghost var cores: seq<(int, int)>
    ghost var brk: int     // the end of what the list and the live blocks cover
    var sz: int            // curproc->sz, in bytes
    var usable: int        // the bytes from 0 up that the process has memory for

    ghost predicate Listed()
      reads this
    {
      match freep
      case None => nodes == [] && live == map[] && cores == [] && base < brk
      case Some(p) => HeapInv(base, nodes, ptr, size, live, brk, cores) && p in nodes && base < brk
    }

    /** Listed, and everything in the list and every live block lies in the process's memory. */
    ghost predicate Valid()
      reads this
    {
      Listed() && InMemory(base, brk, sz, usable)
    }

    /** The block at unit a has room for nbytes after its header, and memory for all of it. */
    ghost predicate Usable(a: int, nbytes: int)
      reads this
    {
      a in live && nbytes <= (live[a] - 1) * HEADER && (a + live[a]) * HEADER <= usable
    }

    /** A process of sz bytes, base being static data in it. */
    constructor (base: int, sz: int)
      requires 0 <= base && (base + 1) * HEADER <= sz < VmSpec.KERNBASE && sz % HEADER == 0
      ensures Valid() && live == map[] && cores == [] && this.sz == sz && this.base == base
    {
      this.base := base;
      this.brk := sz / HEADER;
      this.sz, this.usable := sz, sz;
      freep, ptr, size, nodes, live, cores := None, map[], map[], [], map[], [];
    }

    /** sbrk called by other code of the process. */
    method OtherSbrk(n: int, grant: bool)
      requires Valid() && 0 <= n < WIDTH / 2 && n % HEADER == 0
      modifies this`sz, this`usable
      ensures Valid() && sz == Sbrk(old(sz), n, grant).sz
    {
      var b := Sbrk(sz, n, grant);
      sz, usable := b.sz, b.usable;
    }

    /** The loop of free, lines 30-32: it starts anywhere on the ring and stops just below bp. */
    method Search(bp: int) returns (p: int, ghost i: int)
      requires Listed() && bp in live
      ensures Between(nodes, i, bp) && p == nodes[i] && p in ptr
    {
      hide Ordered, Linked, LiveApart, Conserved, NoneTouch;
      LiveStarted();
      p := freep.value;
      ghost var k :| 0 <= k < |nodes| && nodes[k] == p;
      StopsExactly(base, nodes, ptr, size, live, brk, k, bp);
      i := Place(nodes, bp);
      while !(bp > p && bp < ptr[p])
        invariant 0 <= k < |nodes| && nodes[k] == p && p in ptr
        invariant Stops(p, ptr[p], bp) <==> k == i
        decreases if k <= i then i - k else |nodes| - k + i
      {
        if p >= ptr[p] && (bp > p || bp < ptr[p]) {
          break;
        }
        NextOf(base, nodes, ptr, k);
        FirstIsBase(base, nodes, size);
        p := ptr[p];
        k := if k + 1 < |nodes| then k + 1 else 0;
        StopsExactly(base, nodes, ptr, size, live, brk, k, bp);
      }
    }

    lemma LiveStarted()
      requires Listed() && live != map[]
      ensures freep.Some? && HeapInv(base, nodes, ptr, size, live, brk, cores) && freep.value in nodes
    {
    }

    /** Lines 33-43 of free: bp goes in after p, joined with what it touches. */
    method Splice(p: int, bp: int, ghost i: int)
      requires Listed() && bp in live && Between(nodes, i, bp) && p == nodes[i] && p in ptr
      modifies this`ptr, this`size, this`freep, this`nodes, this`live
      ensures Listed() && live == old(live) - {bp} && freep.Some? && Fits(nodes, size, old(live)[bp])
      ensures AllSwallowed(old(nodes), old(size), nodes, size, bp)
    {
      hide Parts, NoneTouch, AllSwallowed;
      LiveStarted();
      MergeKeeps(base, nodes, ptr, size, live, brk, cores, i, bp);
      MergeRest(base, nodes, ptr, size, live, brk, cores, i, bp);
      nodes := MergedNodes(nodes, size, i, bp);
      live := live - {bp};
      if bp + Get(size, bp) == ptr[p] {
        size := size[bp := Get(size, bp) + Get(size, ptr[p])];
        ptr := ptr[bp := Get(ptr, ptr[p])];
      } else {
        ptr := ptr[bp := ptr[p]];
      }
      if p + Get(size, p) == bp {
        size := size[p := Get(size, p) + Get(size, bp)];
        ptr := ptr[p := ptr[bp]];
      } else {
        ptr := ptr[p := bp];
      }
      freep := Some(p);
    }

    /** free: ap points just past the header of a live block. */
    method Free(ap: int)
      requires Listed() && ap - 1 in live
      modifies this`ptr, this`size, this`freep, this`nodes, this`live
      ensures Listed() && live == old(live) - {ap - 1} && (old(Valid()) ==> Valid())
      ensures freep.Some? && Fits(nodes, size, old(live)[ap - 1])
      ensures AllSwallowed(old(nodes), old(size), nodes, size, ap - 1)
    {
      hide HeapInv, AllSwallowed, Fits;
      var p;
      ghost var i;
      p, i := Search(ap - 1);
      Splice(p, ap - 1, i);
    }

    /** Giving sbrk's block to free: it starts as a live block that lies above everything. */
    lemma Borrow(nu: int, core: int)
      requires Listed() && freep.Some? && nu > 0 && brk <= core
      ensures core !in live && core !in nodes
      ensures HeapInv(base, nodes, ptr, size[core := nu], live[core := nu], core + nu, cores + [(core, nu)])
    {
      hide Ordered, Linked, LiveApart, Conserved, NoneTouch;
      BorrowLive(base, nodes, size, live, brk, core, nu);
      BorrowOrdered(base, nodes, size, core, nu);
      BorrowConserved(nodes, size, live, cores, core, nu);
      BorrowTouch(nodes, size, core, nu);
    }

    lemma FreeInside(j: int)
      requires Listed() && 0 <= j < |nodes|
      ensures nodes[j] + Get(size, nodes[j]) <= brk
    {
      hide Ordered, Linked, Conserved, NoneTouch;
    }

    /** Only the topmost free block is large enough. */
    ghost predicate OnlyTop(nunits: int)
      reads this
    {
      forall j :: 0 <= j < |nodes| && Get(size, nodes[j]) >= nunits ==> nodes[j] + Get(size, nodes[j]) == brk
    }

    /** A piece of nu units above everything joins the list. */
    method AddPiece(hp: int, nu: int, ghost nunits: int)
      requires Listed() && freep.Some? && 0 < nunits <= nu && brk <= hp
      modifies this`ptr, this`size, this`freep, this`nodes, this`live, this`cores, this`brk
      ensures Listed() && freep.Some? && live == old(live) && Fits(nodes, size, nunits)
      ensures cores == old(cores) + [(hp, nu)] && brk == hp + nu
      ensures !old(Fits(nodes, size, nunits)) ==> OnlyTop(nunits)
    {
      hide HeapInv, AllSwallowed;
      Borrow(nu, hp);
      ghost var was, nodes0, size0 := live, nodes, size;
      size := size[hp := nu];
      live := live[hp := nu];
      cores := cores + [(hp, nu)];
      brk := hp + nu;
      Free(hp + 1);
      assert live == was;
      if !Fits(nodes0, size0, nunits) {
        forall j | 0 <= j < |nodes| && Get(size, nodes[j]) >= nunits ensures nodes[j] + Get(size, nodes[j]) == brk {
          FreeInside(j);
          TopOnly(nodes0, size0, hp, nu, nodes, size, nunits, j);
        }
      }
    }

    /** morecore; grant says whether the kernel finds the pages. The heap stays in the process's memory
        exactly if the argument sbrk gets is positive. */
    method Morecore(nunits: int, grant: bool) returns (r: Option<int>)
      requires Valid() && freep.Some? && 0 < nunits <= 0x2000_0000
      modifies this
      ensures Listed() && freep.Some? && live == old(live)
      ensures Grown(nunits, grant, base, old(sz), old(cores), brk, sz, usable, cores, r.Some?)
      ensures if r.None? then nodes == old(nodes) && size == old(size) && brk == old(brk) && freep == old(freep)
              else r == freep && Fits(nodes, size, nunits) && (!old(Fits(nodes, size, nunits)) ==> OnlyTop(nunits))
    {
      hide HeapInv, OnlyTop, Fits;
      var nu := if nunits < 4096 then 4096 else nunits;
      ArgPositive(nu);
      SbrkGives(sz, SbrkArg(nu), grant);
      var b := Sbrk(sz, SbrkArg(nu), grant);
      sz, usable := b.sz, b.usable;
      if b.answer.None? {
        return None;
      }
      AddPiece(b.answer.value / HEADER, nu, nunits);
      r := freep;
    }

    /** The block after p on the ring. */
    method Step(ghost k: int, p: int) returns (nxt: int, ghost k': int)
      requires Listed() && freep.Some? && 0 <= k < |nodes| && nodes[k] == p
      ensures k' == After(|nodes|, k) && nxt == nodes[k']
    {
      hide Ordered, Linked, LiveApart, Conserved, NoneTouch;
      NextOf(base, nodes, ptr, k);
      FirstIsBase(base, nodes, size);
      nxt := ptr[p];
      k' := After(|nodes|, k);
    }

    lemma SameBlock(f: int, k: int)
      requires Listed() && freep.Some? && 0 <= f < |nodes| && 0 <= k < |nodes| && nodes[f] == nodes[k]
      ensures f == k
    {
      hide Linked, LiveApart, Conserved, NoneTouch;
    }

    /** Lines 76-84 of malloc: unlink a block of exactly nunits, or cut nunits off its tail. */
    method Take(p: int, prevp: int, ghost k: int, nunits: int) returns (r: Option<int>)
      requires Listed() && freep.Some? && nunits > 0 && 0 <= k < |nodes| && nodes[k] == p && Get(size, p) >= nunits
      requires prevp == nodes[if k > 0 then k - 1 else |nodes| - 1]
      modifies this
      ensures Listed() && r.Some? && r.value - 1 !in old(live) && live == old(live)[r.value - 1 := nunits]
      ensures r.value - 1 == p + Get(old(size), p) - nunits
      ensures cores == old(cores) && brk == old(brk) && sz == old(sz) && usable == old(usable)
    {
      hide Ordered, Linked, LiveApart, Conserved, NoneTouch;
      FirstIsBase(base, nodes, size);
      NodeSizes(base, nodes, size, k);
      NextOf(base, nodes, ptr, k);
      var q := p;
      if Get(size, p) == nunits {
        TakeWhole(base, nodes, ptr, size, live, brk, cores, k);
        ptr := ptr[prevp := ptr[p]];
        nodes := nodes[..k] + nodes[k + 1..];
        assert nodes[k - 1] == prevp;
      } else {
        TakeTail(base, nodes, ptr, size, live, brk, cores, k, nunits);
        size := size[p := size[p] - nunits];
        q := p + size[p];
        size := size[q := nunits];
        assert nodes[k - 1] == prevp;
      }
      live := live[q := nunits];
      freep := Some(prevp);
      r := Some(q + 1);
    }

    /** The loop of malloc, lines 74-89. */
    method FirstFit(nunits: int, grant: bool) returns (r: Option<int>)
      requires Valid() && freep.Some? && 0 < nunits <= 0x2000_0000
      modifies this
      ensures Listed() && (r.None? ==> live == old(live) && nodes == old(nodes))
      ensures r.Some? ==> r.value - 1 !in old(live) && live == old(live)[r.value - 1 := nunits]
      ensures if old(Fits(nodes, size, nunits)) then
                && r.Some? && Valid() && cores == old(cores) && sz == old(sz)
                && IsFirstFit(old(nodes), old(size), old(freep).value, nunits, r.value - 1)
              else
                && Grown(nunits, grant, base, old(sz), old(cores), brk, sz, usable, cores, r.Some?)
                && (r.Some? ==> r.value - 1 == brk - nunits)
    {
      hide HeapInv, Scanned, Fits, IsFirstFit, OnlyTop, Grown, InMemory, CoreUnits;
      ghost var grown := false;
      var prevp := freep.value;
      ghost var f :| 0 <= f < |nodes| && nodes[f] == prevp;
      ScanStart(nodes, size, f, nunits);
      var p; ghost var k;
      p, k := Step(f, prevp);
      while true
        invariant Listed() && freep.Some? && live == old(live)
        invariant 0 <= f < |nodes| && nodes[f] == freep.value && 0 <= k < |nodes| && nodes[k] == p
        invariant prevp == nodes[if k > 0 then k - 1 else |nodes| - 1]
        invariant Scanned(nodes, size, f, k, nunits)
        invariant !grown ==> Unchanged(old(nodes), old(size), old(cores), old(brk), old(freep), old(sz), old(usable))
        invariant grown ==> Fits(nodes, size, nunits) && OnlyTop(nunits) && !old(Fits(nodes, size, nunits))
        invariant grown ==> Grown(nunits, grant, base, old(sz), old(cores), brk, sz, usable, cores, true)
        decreases !grown, |nodes| - Ahead(|nodes|, f, k)
      {
        if Get(size, p) >= nunits {
          FoundFirst(nodes, size, f, k, nunits);
          if grown {
            TopAt(nunits, k);
          }
          r := Take(p, prevp, k, nunits);
          return;
        }
        if p == freep.value {
          SameBlock(f, k);
          ScanAll(nodes, size, f, nunits);
          var q := Morecore(nunits, grant);
          if q.None? {
            return None;
          }
          grown := true;
          p := q.value;
          f :| 0 <= f < |nodes| && nodes[f] == p;
          k := f;
          ScanStart(nodes, size, f, nunits);
        } else {
          ScanNext(nodes, size, f, k, nunits);
        }
        prevp := p;
        p, k := Step(k, p);
      }
    }

    ghost predicate Unchanged(nodes: seq<int>, size: map<int, int>, cores: seq<(int, int)>, brk: int, freep: Option<int>, sz: int, usable: int)
      reads this
    {
      && this.nodes == nodes && this.size == size && this.cores == cores && this.brk == brk && this.freep == freep
      && this.sz == sz && this.usable == usable
    }

    lemma TopAt(nunits: int, k: int)
      requires OnlyTop(nunits) && 0 <= k < |nodes| && Get(size, nodes[k]) >= nunits
      ensures nodes[k] + Get(size, nodes[k]) == brk
    {
    }

    lemma NoneFits(nunits: int)
      requires Listed() && freep.None?
      ensures !Fits(nodes, size, nunits)
    {
    }

    lemma LiveInside(a: int)
      requires Listed() && a in live
      ensures a + live[a] <= brk
    {
      hide Ordered, Linked, Conserved, NoneTouch;
    }

    /** malloc: first fit from freep; sbrk is asked at most once, and only when no free block fits. The heap
        stays within the process's memory, and a block got from sbrk can hold what was asked for, exactly
        within the limits below. */
    method Malloc(nbytes: int, grant: bool) returns (r: Option<int>)
      requires Valid() && 0 <= nbytes < WIDTH
      modifies this
      ensures Listed() && (r.None? ==> live == old(live) && nodes == (if old(freep).None? then [base] else old(nodes)))
      ensures r.Some? ==> r.value - 1 !in old(live) && live == old(live)[r.value - 1 := Units(nbytes)]
      ensures Valid() <==> old(Fits(nodes, size, Units(nbytes))) || CoreUnits(Units(nbytes)) * HEADER < WIDTH / 2
      ensures if old(Fits(nodes, size, Units(nbytes))) then
                && r.Some? && cores == old(cores) && sz == old(sz)
                && old(freep).Some? && IsFirstFit(old(nodes), old(size), old(freep).value, Units(nbytes), r.value - 1)
                && (Usable(r.value - 1, nbytes) <==> nbytes + HEADER - 1 < WIDTH)
              else
                var b := Sbrk(old(sz), SbrkArg(CoreUnits(Units(nbytes))), grant);
                && sz == b.sz && usable == b.usable && r.Some? == b.answer.Some?
                && cores == old(cores) + (if r.None? then [] else [(old(sz) / HEADER, CoreUnits(Units(nbytes)))])
                && (r.Some? ==> (Usable(r.value - 1, nbytes) <==> nbytes <= 0x7fff_fff0))
    {
      hide HeapInv, Fits, IsFirstFit;
      var nunits := ((nbytes + HEADER - 1) % WIDTH) / HEADER + 1;
      UnitsEnough(nbytes);
      AskedRight(nbytes);
      ArgPositive(CoreUnits(nunits));
      SbrkGives(sz, SbrkArg(CoreUnits(nunits)), grant);
      if freep.None? {
        NoneFits(nunits);
        freep, ptr, size, nodes := Some(base), map[base := base], map[base := 0], [base];
        Fresh(base, brk);
        BaseTooSmall(base, nunits);
      }
      r := FirstFit(nunits, grant);
      if r.Some? {
        LiveInside(r.value - 1);
      }
    }
  }
}
