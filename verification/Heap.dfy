/** The Kernighan and Ritchie allocator of user/umalloc.c.

    Memory is modelled as a map from the byte address of a header to the header
    stored there.  The ghost field `nodes` holds the headers on the free list,
    `live` maps the header address of every block handed out to its length in units,
    and `heap` is the set of all bytes obtained from sbrk so far. */
module Heap {

  const NULL := 0
  const UNIT := 8              // sizeof(Header): a pointer and an unsigned int
  const MIN_GROW := 4096       // morecore never asks for fewer units
  const TWO_31 := 0x8000_0000
  const TWO_32 := 0x1_0000_0000

  datatype Header = Header(ptr: int, size: nat)

  /** The number of units malloc looks for; the addition wraps at 32 bits. */
  function UnitsFor(nbytes: nat): (n: nat)
    requires nbytes < TWO_32
    ensures 1 <= n
    ensures UNIT * (n - 1) >= nbytes <==> nbytes + UNIT - 1 < TWO_32
  {
    ((nbytes + UNIT - 1) % TWO_32) / UNIT + 1
  }

  /** The units morecore asks for. */
  function GrowUnits(nu: nat): nat {
    if nu < MIN_GROW then MIN_GROW else nu
  }

  /** The signed 32-bit argument that sbrk receives when asked for `nu` units. */
  function SbrkArgument(nu: nat): int {
    var bytes := nu * UNIT % TWO_32;
    if bytes < TWO_31 then bytes else bytes - TWO_32
  }

  /** Exactly which requests keep malloc's arithmetic honest: the payload is large
      enough and sbrk is asked for the units that morecore will write down. */
  lemma HonestRequest(nbytes: nat)
    requires nbytes < TWO_32
    ensures nbytes <= TWO_31 - 16 <==>
            UNIT * (UnitsFor(nbytes) - 1) >= nbytes &&
            SbrkArgument(GrowUnits(UnitsFor(nbytes))) == UNIT * GrowUnits(UnitsFor(nbytes))
  {
    if nbytes + UNIT - 1 < TWO_32 {
      assert UnitsFor(nbytes) == (nbytes + 7) / 8 + 1;
    }
  }

  lemma ExactUnits(nbytes: nat)
    requires nbytes < TWO_32
    ensures nbytes <= TWO_32 - UNIT ==> UnitsFor(nbytes) == (nbytes + 7) / 8 + 1
  {
  }

  /** What becomes of the other requests: sbrk is asked for nothing or to shrink the
      process, or the sum wraps and one unit, without any payload, is looked for. */
  lemma WrappedRequest(nbytes: nat)
    requires TWO_31 - 16 < nbytes < TWO_32
    ensures nbytes <= TWO_32 - UNIT ==> SbrkArgument(GrowUnits(UnitsFor(nbytes))) <= 0
    ensures nbytes > TWO_32 - UNIT ==> UnitsFor(nbytes) == 1
  {
    if nbytes <= TWO_32 - UNIT {
      assert UnitsFor(nbytes) == (nbytes + 7) / 8 + 1;
    }
  }

  function End(mem: map<int, Header>, a: int): int
    requires a in mem
  {
    a + UNIT * mem[a].size
  }

  /** `p` is the node after `a` when `nodes` is read as a ring in address order. */
  ghost predicate Follows(nodes: set<int>, a: int, p: int) {
    && p in nodes
    && if a < p then forall x :: x in nodes ==> x <= a || p <= x
       else forall x :: x in nodes ==> p <= x <= a
  }

  /** The free list: an address-ordered ring through `base` that wraps once, whose
      blocks neither touch nor overlap, so it is always fully coalesced. */
  ghost predicate IsFreeList(mem: map<int, Header>, base: int, nodes: set<int>) {
    && base in nodes && nodes <= mem.Keys && mem[base].size == 0
    && (forall a :: a in nodes && a != base ==> base < a && mem[a].size > 0)
    && (forall a, b :: a in nodes && b in nodes && a < b ==> End(mem, a) < b)
    && (forall a {:trigger Follows(nodes, a, mem[a].ptr)} :: a in nodes ==> Follows(nodes, a, mem[a].ptr))
  }

  /** Byte `u` lies in a block of the free list. */
  ghost predicate InFree(mem: map<int, Header>, nodes: set<int>, u: int)
    requires nodes <= mem.Keys
  {
    exists a :: a in nodes && a <= u < End(mem, a)
  }

  /** Byte `u` lies in a block that was handed out. */
  ghost predicate InLive(live: map<int, nat>, u: int) {
    exists a :: a in live && a <= u < a + UNIT * live[a]
  }

  ghost predicate Apart(a: int, aEnd: int, b: int, bEnd: int) {
    aEnd <= b || bEnd <= a
  }

  /** Free and live blocks are disjoint and together make up the bytes of the heap. */
  ghost predicate Partition(mem: map<int, Header>, nodes: set<int>, live: map<int, nat>, heap: set<int>)
    requires nodes <= mem.Keys
  {
    && (forall a :: a in live ==> live[a] > 0 && a in mem && mem[a].size == live[a])
    && (forall a, b :: a in live && b in live && a != b ==> Apart(a, a + UNIT * live[a], b, b + UNIT * live[b]))
    && (forall f, a :: f in nodes && a in live ==> Apart(f, End(mem, f), a, a + UNIT * live[a]))
    && (forall u :: u in heap <==> InFree(mem, nodes, u) || InLive(live, u))
  }

  /** A header at `a` shares no byte with a block that was handed out. */
  ghost predicate HeaderApart(live: map<int, nat>, a: int) {
    forall b :: b in live ==> Apart(a, a + UNIT, b, b + UNIT * live[b])
  }

  /** No header was written into a block that was handed out. */
  ghost predicate LiveUntouched(m: map<int, Header>, m': map<int, Header>, live: map<int, nat>) {
    && m.Keys <= m'.Keys
    && forall a :: a in m' && (a !in m || m'[a] != m[a]) ==> HeaderApart(live, a)
  }

  // ----- the free list is determined by the free bytes

  lemma NodeIsWhereFreeBytesStart(m: map<int, Header>, base: int, nodes: set<int>, a: int)
    requires IsFreeList(m, base, nodes) && a != base
    ensures a in nodes <==> InFree(m, nodes, a) && !InFree(m, nodes, a - 1)
  {
  }

  lemma NodeEndsWhereFreeBytesEnd(m: map<int, Header>, base: int, nodes: set<int>, a: int)
    requires IsFreeList(m, base, nodes) && a in nodes
    ensures !InFree(m, nodes, End(m, a))
  {
  }

  /** Two coalesced lists over the same free bytes have the same nodes, sizes and links. */
  lemma FreeListIsCanonical(m1: map<int, Header>, n1: set<int>, m2: map<int, Header>, n2: set<int>, base: int)
    requires IsFreeList(m1, base, n1) && IsFreeList(m2, base, n2)
    requires forall u :: InFree(m1, n1, u) <==> InFree(m2, n2, u)
    ensures n1 == n2
    ensures forall a :: a in n1 ==> m1[a] == m2[a]
  {
    forall a
      ensures a in n1 <==> a in n2
    {
      if a != base {
        NodeIsWhereFreeBytesStart(m1, base, n1, a);
        NodeIsWhereFreeBytesStart(m2, base, n2, a);
      }
    }
    forall a | a in n1
      ensures m1[a] == m2[a]
    {
      NodeEndsWhereFreeBytesEnd(m1, base, n1, a);
      NodeEndsWhereFreeBytesEnd(m2, base, n2, a);
      assert !(a <= End(m1, a) < End(m2, a));
      assert !(a <= End(m2, a) < End(m1, a));
      assert Follows(n1, a, m1[a].ptr) && Follows(n2, a, m2[a].ptr);
    }
  }

  // ----- the ring is one cycle

  /** The node `k` links after node `a`. */
  ghost function Walk(m: map<int, Header>, base: int, nodes: set<int>, a: int, k: nat): (x: int)
    requires IsFreeList(m, base, nodes) && a in nodes
    ensures x in nodes
    decreases k
  {
    assert Follows(nodes, a, m[a].ptr);
    if k == 0 then a else Walk(m, base, nodes, m[a].ptr, k - 1)
  }

  /** Following the links from any node reaches every node: there is a single cycle. */
  lemma {:induction false} RingReachesEveryNode(m: map<int, Header>, base: int, nodes: set<int>, a: int, x: int)
      returns (k: nat)
    requires IsFreeList(m, base, nodes) && a in nodes && x in nodes
    ensures Walk(m, base, nodes, a, k) == x
    decreases if a == x then {} else Ahead(nodes, a, x) + {a, x}
  {
    if a == x {
      k := 0;
    } else {
      assert Follows(nodes, a, m[a].ptr);
      k := RingReachesEveryNode(m, base, nodes, m[a].ptr, x);
      k := k + 1;
    }
  }

  // ----- putting a block back

  /** `p` is the last node below address `bp`. */
  ghost predicate IsBelow(nodes: set<int>, p: int, bp: int) {
    p in nodes && p < bp && forall x :: x in nodes ==> x <= p || bp <= x
  }

  /** The nodes still ahead of `p` on its way round the ring to address `bp`. */
  ghost function Ahead(nodes: set<int>, p: int, bp: int): set<int> {
    if p < bp then set x | x in nodes && p < x < bp
    else set x | x in nodes && (p < x || x < bp)
  }

  /** What free's two conditionals leave in memory. */
  ghost predicate Relinked(m: map<int, Header>, p: int, bp: int, m': map<int, Header>)
    requires p in m && bp in m && m[p].ptr in m
  {
    var above := m[p].ptr;
    var up := End(m, bp) == above;
    var units := m[bp].size + if up then m[above].size else 0;
    var rest := if up then m[above].ptr else above;
    && m'.Keys == m.Keys
    && (forall x :: x in m && x != bp && x != p ==> m'[x] == m[x])
    && m'[bp] == Header(rest, units)
    && m'[p] == if End(m, p) == bp then Header(rest, m[p].size + units) else Header(bp, m[p].size)
  }

  ghost function Inserted(m: map<int, Header>, nodes: set<int>, p: int, bp: int): set<int>
    requires p in m && bp in m
  {
    nodes - (if End(m, bp) == m[p].ptr then {m[p].ptr} else {})
          + (if End(m, p) == bp then {} else {bp})
  }

  /** The block at `bp` lies in the gap above node `p`. */
  ghost predicate Fits(m: map<int, Header>, nodes: set<int>, p: int, bp: int)
    requires nodes <= m.Keys
  {
    && IsBelow(nodes, p, bp) && Follows(nodes, p, m[p].ptr)
    && bp in m && m[bp].size > 0 && End(m, p) <= bp
    && forall x :: x in nodes && p < x ==> End(m, bp) <= x
  }

  lemma InsertedApart(m: map<int, Header>, base: int, nodes: set<int>, p: int, bp: int, m': map<int, Header>, a: int,
      b: int)
    requires IsFreeList(m, base, nodes) && Fits(m, nodes, p, bp)
    requires Relinked(m, p, bp, m')
    requires a in Inserted(m, nodes, p, bp) && b in Inserted(m, nodes, p, bp) && a < b
    ensures End(m', a) < b
  {
  }

  lemma InsertedLink(m: map<int, Header>, base: int, nodes: set<int>, p: int, bp: int, m': map<int, Header>, a: int)
    requires IsFreeList(m, base, nodes) && Fits(m, nodes, p, bp)
    requires Relinked(m, p, bp, m')
    requires a in Inserted(m, nodes, p, bp)
    ensures Follows(Inserted(m, nodes, p, bp), a, m'[a].ptr)
  {
    assert Follows(nodes, m[p].ptr, m[m[p].ptr].ptr);
    if a in nodes && a != p {
      assert Follows(nodes, a, m[a].ptr);
    }
  }

  lemma InsertedIsFreeList(m: map<int, Header>, base: int, nodes: set<int>, p: int, bp: int, m': map<int, Header>)
    requires IsFreeList(m, base, nodes) && Fits(m, nodes, p, bp)
    requires Relinked(m, p, bp, m')
    ensures IsFreeList(m', base, Inserted(m, nodes, p, bp))
  {
    var nodes' := Inserted(m, nodes, p, bp);
    forall a, b | a in nodes' && b in nodes' && a < b
      ensures End(m', a) < b
    {
      InsertedApart(m, base, nodes, p, bp, m', a, b);
    }
    forall a {:trigger Follows(nodes', a, m'[a].ptr)} | a in nodes'
      ensures Follows(nodes', a, m'[a].ptr)
    {
      InsertedLink(m, base, nodes, p, bp, m', a);
    }
  }

  lemma InsertedBytes(m: map<int, Header>, base: int, nodes: set<int>, p: int, bp: int, m': map<int, Header>, u: int)
    requires IsFreeList(m, base, nodes) && Fits(m, nodes, p, bp)
    requires Relinked(m, p, bp, m')
    ensures Inserted(m, nodes, p, bp) <= m'.Keys
    ensures InFree(m', Inserted(m, nodes, p, bp), u) <==> InFree(m, nodes, u) || bp <= u < End(m, bp)
  {
    var above := m[p].ptr;
    var nodes' := Inserted(m, nodes, p, bp);
    var home := if End(m, p) == bp then p else bp;
    if InFree(m, nodes, u) {
      var a :| a in nodes && a <= u < End(m, a);
      if a in nodes' {
        assert a <= u < End(m', a);
      } else {
        assert home <= u < End(m', home);
      }
    } else if bp <= u < End(m, bp) {
      assert home <= u < End(m', home);
    } else {
      assert !(p <= u < End(m, p)) && !(above <= u < End(m, above));
    }
  }

  lemma FreedBlockFits(m: map<int, Header>, base: int, nodes: set<int>, p: int, bp: int, live: map<int, nat>,
      heap: set<int>)
    requires IsFreeList(m, base, nodes) && Partition(m, nodes, live, heap)
    requires bp in live && IsBelow(nodes, p, bp)
    ensures Fits(m, nodes, p, bp)
  {
  }

  lemma LiveBlocksAreAboveBase(m: map<int, Header>, base: int, nodes: set<int>, live: map<int, nat>, heap: set<int>)
    requires IsFreeList(m, base, nodes) && Partition(m, nodes, live, heap)
    requires forall u :: u in heap ==> base + UNIT <= u
    ensures forall a :: a in live ==> base < a && a !in nodes
  {
    forall a | a in live
      ensures base < a && a !in nodes
    {
      assert InLive(live, a);
      assert a in nodes ==> Apart(a, End(m, a), a, a + UNIT * live[a]);
    }
  }

  /** Neither a node's own header nor one inside its block touches a live block. */
  lemma FreeHeadersAreApart(m: map<int, Header>, base: int, nodes: set<int>, live: map<int, nat>, heap: set<int>,
      p: int, a: int)
    requires IsFreeList(m, base, nodes) && Partition(m, nodes, live, heap)
    requires forall u :: u in heap ==> base + UNIT <= u
    requires p in nodes && (a == p || p <= a <= End(m, p) - UNIT)
    ensures HeaderApart(live, a)
  {
    forall b | b in live
      ensures Apart(a, a + UNIT, b, b + UNIT * live[b])
    {
      assert InLive(live, b);
      assert Apart(p, End(m, p), b, b + UNIT * live[b]);
    }
  }

  /** What free writes, it writes at the node below and at the block it was given. */
  lemma FreeTouchesNothing(m: map<int, Header>, base: int, nodes: set<int>, live: map<int, nat>, heap: set<int>,
                           p: int, bp: int, m': map<int, Header>)
    requires IsFreeList(m, base, nodes) && Partition(m, nodes, live, heap)
    requires forall u :: u in heap ==> base + UNIT <= u
    requires p in nodes && bp in live && m[p].ptr in m && Relinked(m, p, bp, m')
    ensures LiveUntouched(m, m', live - {bp})
  {
    FreeHeadersAreApart(m, base, nodes, live, heap, p, p);
    forall b | b in live - {bp}
      ensures Apart(bp, bp + UNIT, b, b + UNIT * live[b])
    {
      assert Apart(bp, bp + UNIT * live[bp], b, b + UNIT * live[b]);
    }
  }

  lemma FreedPartition(m: map<int, Header>, base: int, nodes: set<int>, p: int, bp: int, m': map<int, Header>,
                       live: map<int, nat>, heap: set<int>)
    requires IsFreeList(m, base, nodes) && Fits(m, nodes, p, bp) && Partition(m, nodes, live, heap)
    requires bp in live && forall a :: a in live ==> base < a
    requires Relinked(m, p, bp, m')
    ensures Inserted(m, nodes, p, bp) <= m'.Keys
    ensures Partition(m', Inserted(m, nodes, p, bp), live - {bp}, heap)
  {
    hide InFree, InLive;
    InsertedIsFreeList(m, base, nodes, p, bp, m');
    var nodes', live' := Inserted(m, nodes, p, bp), live - {bp};
    forall a | a in live'
      ensures m'[a].size == live'[a]
    {
      assert Apart(p, End(m, p), a, a + UNIT * live[a]);
    }
    forall f, a | f in nodes' && a in live'
      ensures Apart(f, End(m', f), a, a + UNIT * live'[a])
    {
      assert Apart(bp, End(m, bp), a, a + UNIT * live[a]);
      assert Apart(p, End(m, p), a, a + UNIT * live[a]);
      assert Apart(m[p].ptr, End(m, m[p].ptr), a, a + UNIT * live[a]);
      assert f in nodes ==> Apart(f, End(m, f), a, a + UNIT * live[a]);
    }
    forall u
      ensures u in heap <==> InFree(m', nodes', u) || InLive(live', u)
    {
      InsertedBytes(m, base, nodes, p, bp, m', u);
      LiveWithout(live, bp, u);
    }
  }

  lemma LiveWithout(live: map<int, nat>, bp: int, u: int)
    requires bp in live
    ensures InLive(live, u) <==> InLive(live - {bp}, u) || bp <= u < bp + UNIT * live[bp]
  {
    if InLive(live, u) && !(bp <= u < bp + UNIT * live[bp]) {
      var a :| a in live && a <= u < a + UNIT * live[a];
      assert a in live - {bp};
    }
  }

  // ----- taking blocks: sbrk, and the two ways malloc carves a block

  ghost predicate Within(u: int, a: int, units: nat) {
    a <= u < a + UNIT * units
  }

  /** The bytes of `units` units from address `a`. */
  ghost function Region(a: int, units: nat): set<int> {
    set u | a <= u < a + UNIT * units && Within(u, a, units)
  }

  /** The header at `hp` now says `nu` units; the rest of memory is untouched. */
  ghost predicate IsSized(m: map<int, Header>, hp: int, nu: nat, m': map<int, Header>) {
    m'.Keys == m.Keys + {hp} && m'[hp].size == nu && forall x :: x in m && x != hp ==> m'[x] == m[x]
  }

  lemma GrantedIsApart(m: map<int, Header>, base: int, nodes: set<int>, hp: int, nu: nat, m': map<int, Header>,
                       live: map<int, nat>, heap: set<int>)
    requires IsFreeList(m, base, nodes) && Partition(m, nodes, live, heap)
    requires nu > 0 && base + UNIT <= hp && Region(hp, nu) !! heap && IsSized(m, hp, nu, m')
    ensures hp !in live && hp !in nodes && IsFreeList(m', base, nodes)
    ensures forall a :: a in live ==> Apart(a, a + UNIT * live[a], hp, hp + UNIT * nu)
                                      && Apart(hp, hp + UNIT * nu, a, a + UNIT * live[a])
    ensures forall f :: f in nodes ==> Apart(f, End(m, f), hp, hp + UNIT * nu)
  {
    forall a, u | a in live && a <= u < a + UNIT * live[a]
      ensures u in heap
    {
      assert InLive(live, u);
    }
    forall f, u | f in nodes && f <= u < End(m, f)
      ensures u in heap
    {
      assert InFree(m, nodes, u);
    }
    forall a | a in live
      ensures Apart(a, a + UNIT * live[a], hp, hp + UNIT * nu)
    {
      DisjointBytesAreApart(a, live[a], hp, nu);
    }
    forall f | f in nodes
      ensures Apart(f, End(m, f), hp, hp + UNIT * nu)
    {
      if f != base {
        DisjointBytesAreApart(f, m[f].size, hp, nu);
      }
    }
    forall a {:trigger Follows(nodes, a, m'[a].ptr)} | a in nodes
      ensures Follows(nodes, a, m'[a].ptr)
    {
      assert Follows(nodes, a, m[a].ptr);
    }
  }

  lemma SameFreeBytes(m: map<int, Header>, nodes: set<int>, m': map<int, Header>, u: int)
    requires nodes <= m.Keys && nodes <= m'.Keys && forall a :: a in nodes ==> m'[a].size == m[a].size
    ensures InFree(m, nodes, u) <==> InFree(m', nodes, u)
  {
  }

  lemma GrantedPartition(m: map<int, Header>, base: int, nodes: set<int>, hp: int, nu: nat, m': map<int, Header>,
                         live: map<int, nat>, heap: set<int>)
    requires IsFreeList(m, base, nodes) && Partition(m, nodes, live, heap)
    requires nu > 0 && base + UNIT <= hp && Region(hp, nu) !! heap && IsSized(m, hp, nu, m')
    ensures hp !in live && IsFreeList(m', base, nodes)
    ensures Partition(m', nodes, live[hp := nu], heap + Region(hp, nu))
  {
    hide IsFreeList, InFree, InLive, Apart;
    GrantedIsApart(m, base, nodes, hp, nu, m', live, heap);
    var live', heap' := live[hp := nu], heap + Region(hp, nu);
    forall u
      ensures u in heap' <==> InFree(m', nodes, u) || InLive(live', u)
    {
      SameFreeBytes(m, nodes, m', u);
      LiveWithout(live', hp, u);
      assert live' - {hp} == live;
    }
  }

  lemma DisjointBytesAreApart(a: int, n: nat, b: int, k: nat)
    requires n > 0 && k > 0 && Region(a, n) !! Region(b, k)
    ensures Apart(a, a + UNIT * n, b, b + UNIT * k)
  {
    assert a in Region(a, n) && b in Region(b, k);
  }

  lemma NodeIsNotLive(m: map<int, Header>, nodes: set<int>, live: map<int, nat>, heap: set<int>, p: int)
    requires nodes <= m.Keys && Partition(m, nodes, live, heap)
    requires p in nodes && m[p].size > 0
    ensures p !in live
    ensures forall a :: a in live ==> Apart(p, End(m, p), a, a + UNIT * live[a])
  {
  }

  /** malloc's exact fit: node `p` leaves the list, its predecessor skips it. */
  lemma WholeBlockUnlinked(m: map<int, Header>, base: int, nodes: set<int>, prev: int, p: int, m': map<int, Header>)
    requires IsFreeList(m, base, nodes)
    requires p in nodes && p != base && IsPredecessor(m, nodes, prev, p)
    requires m' == m[prev := m[prev].(ptr := m[p].ptr)]
    ensures prev in nodes - {p} && IsFreeList(m', base, nodes - {p})
  {
    var nodes' := nodes - {p};
    assert Follows(nodes, p, m[p].ptr);
    assert prev != p;
    forall a {:trigger Follows(nodes', a, m'[a].ptr)} | a in nodes'
      ensures Follows(nodes', a, m'[a].ptr)
    {
      assert Follows(nodes, a, m[a].ptr);
    }
  }

  lemma WholeBlockTaken(m: map<int, Header>, base: int, nodes: set<int>, p: int, m': map<int, Header>,
                        live: map<int, nat>, heap: set<int>)
    requires IsFreeList(m, base, nodes) && m'.Keys == m.Keys && Partition(m, nodes, live, heap)
    requires p in nodes && m[p].size > 0
    requires forall a :: a in m ==> m'[a].size == m[a].size
    ensures p !in live
    ensures Partition(m', nodes - {p}, live[p := m[p].size], heap)
  {
    hide InFree, InLive;
    NodeIsNotLive(m, nodes, live, heap, p);
    var nodes', live' := nodes - {p}, live[p := m[p].size];
    forall u
      ensures u in heap <==> InFree(m', nodes', u) || InLive(live', u)
    {
      LiveWithout(live', p, u);
      assert live' - {p} == live;
      FreeWithout(m, nodes, m', p, u);
    }
  }

  lemma FreeWithout(m: map<int, Header>, nodes: set<int>, m': map<int, Header>, p: int, u: int)
    requires nodes <= m.Keys && nodes <= m'.Keys && p in nodes
    requires forall a :: a in nodes - {p} ==> m'[a].size == m[a].size
    ensures InFree(m, nodes, u) <==> InFree(m', nodes - {p}, u) || p <= u < End(m, p)
  {
    if InFree(m, nodes, u) && !(p <= u < End(m, p)) {
      var a :| a in nodes && a <= u < End(m, a);
      assert a in nodes - {p} && a <= u < End(m', a);
    } else if InFree(m', nodes - {p}, u) {
      var a :| a in nodes - {p} && a <= u < End(m', a);
      assert a in nodes && a <= u < End(m, a);
    }
  }

  /** malloc's split: node `p` keeps its lower part, the tail becomes the block. */
  ghost predicate IsSplit(m: map<int, Header>, p: int, n: nat, tail: int, m': map<int, Header>) {
    && p in m && 0 < n < m[p].size && tail == End(m, p) - UNIT * n
    && m'.Keys == m.Keys + {tail}
    && m'[tail].size == n && m'[p] == m[p].(size := m[p].size - n)
    && forall x :: x in m && x != p && x != tail ==> m'[x] == m[x]
  }

  lemma TailCutOff(m: map<int, Header>, base: int, nodes: set<int>, p: int, n: nat, tail: int, m': map<int, Header>)
    requires IsFreeList(m, base, nodes) && p in nodes && IsSplit(m, p, n, tail, m')
    ensures tail !in nodes && IsFreeList(m', base, nodes)
  {
  }

  lemma TailBytes(m: map<int, Header>, nodes: set<int>, p: int, n: nat, tail: int, m': map<int, Header>,
                  live: map<int, nat>, u: int)
    requires nodes <= m.Keys && p in nodes && IsSplit(m, p, n, tail, m') && tail !in nodes && tail !in live
    ensures InFree(m, nodes, u) || InLive(live, u) <==> InFree(m', nodes, u) || InLive(live[tail := n], u)
  {
    hide InFree, InLive;
    LiveWithout(live[tail := n], tail, u);
    assert live[tail := n] - {tail} == live;
    FreeWithout(m, nodes, m, p, u);
    FreeWithout(m', nodes, m, p, u);
  }

  lemma TailTaken(m: map<int, Header>, base: int, nodes: set<int>, p: int, n: nat, tail: int, m': map<int, Header>,
                  live: map<int, nat>, heap: set<int>)
    requires IsFreeList(m, base, nodes) && Partition(m, nodes, live, heap)
    requires p in nodes && IsSplit(m, p, n, tail, m') && tail !in nodes
    ensures tail !in live
    ensures Partition(m', nodes, live[tail := n], heap)
  {
    hide InFree, InLive;
    var live' := live[tail := n];
    NodeIsNotLive(m, nodes, live, heap, p);
    forall f, a | f in nodes && a in live'
      ensures Apart(f, End(m', f), a, a + UNIT * live'[a])
    {
      assert a in live ==> Apart(f, End(m, f), a, a + UNIT * live[a]);
    }
    forall u
      ensures u in heap <==> InFree(m', nodes, u) || InLive(live', u)
    {
      TailBytes(m, nodes, p, n, tail, m', live, u);
    }
  }

  lemma LinkFollows(m: map<int, Header>, base: int, nodes: set<int>, a: int)
    requires IsFreeList(m, base, nodes) && a in nodes
    ensures a in m && IsPredecessor(m, nodes, a, m[a].ptr)
  {
  }

  ghost predicate IsPredecessor(m: map<int, Header>, nodes: set<int>, prev: int, p: int) {
    prev in nodes && prev in m && m[prev].ptr == p && Follows(nodes, prev, p)
  }

  // ----- malloc's walk round the ring

  /** The nodes malloc has still to look at when it stands at `p`. */
  ghost function Todo(nodes: set<int>, p: int, freep: int): set<int> {
    if p == freep then {freep} else Ahead(nodes, p, freep) + {p, freep}
  }

  lemma WalkStarts(nodes: set<int>, freep: int, p: int)
    requires freep in nodes && Follows(nodes, freep, p)
    ensures Todo(nodes, p, freep) == nodes
  {
    assert forall x :: x in nodes ==> x in Todo(nodes, p, freep);
  }

  lemma WalkSteps(nodes: set<int>, freep: int, p: int, next: int)
    requires freep in nodes && p in nodes && p != freep && Follows(nodes, p, next)
    ensures Todo(nodes, next, freep) == Todo(nodes, p, freep) - {p}
  {
  }

  ghost predicate NoFit(m: map<int, Header>, nodes: set<int>, n: nat)
    requires nodes <= m.Keys
  {
    forall x :: x in nodes ==> m[x].size < n
  }

  /** `f` is the first node after `freep`, in ring order, with room for `n` units. */
  ghost predicate NextFit(m: map<int, Header>, nodes: set<int>, freep: int, f: int, n: nat)
    requires nodes <= m.Keys
  {
    && f in nodes && n <= m[f].size
    && forall x :: x in Ahead(nodes, freep, f) ==> m[x].size < n
  }

  /** Byte `u` is free, said without the free list. */
  ghost predicate FreeByte(live: map<int, nat>, heap: set<int>, u: int) {
    u in heap && !InLive(live, u)
  }

  /** `top` is where the run of free bytes that starts at or before `a` ends. */
  ghost predicate RunTop(live: map<int, nat>, heap: set<int>, a: int, top: int) {
    && a < top && !FreeByte(live, heap, top)
    && forall u :: a <= u < top ==> FreeByte(live, heap, u)
  }

  /** What malloc does for `n` units; the unprimed arguments are the state before. */
  ghost predicate Allocated(m: map<int, Header>, nodes: set<int>, live: map<int, nat>, heap: set<int>, freep: int,
                            n: nat, grant: int, r: int, live': map<int, nat>, heap': set<int>, freep': int)
    requires nodes <= m.Keys
  {
    if r == NULL then
      // nothing fitted and sbrk refused
      NoFit(m, nodes, n) && grant == -1 && live' == live && heap' == heap
    else
      // one new block; it is the top of the next fit after freep, or of the run of
      // free bytes that the answer of sbrk became part of
      && r - UNIT !in live && live' == live[r - UNIT := n]
      && if NoFit(m, nodes, n) then
           && grant != -1 && heap' == heap + Region(grant, GrowUnits(n))
           && RunTop(live, heap', grant, r - UNIT + UNIT * n)
         else
           && heap' == heap
           && exists f :: NextFit(m, nodes, freep, f, n) && r - UNIT + UNIT * n == End(m, f)
                          && IsPredecessor(m, nodes, freep', f)
  }

  lemma FreeBytesAreTheRest(m: map<int, Header>, nodes: set<int>, live: map<int, nat>, heap: set<int>, u: int)
    requires nodes <= m.Keys && Partition(m, nodes, live, heap)
    ensures InFree(m, nodes, u) <==> FreeByte(live, heap, u)
  {
  }

  lemma NodeRunsToTheTop(m: map<int, Header>, base: int, nodes: set<int>, live: map<int, nat>, heap: set<int>, x: int,
      a: int)
    requires IsFreeList(m, base, nodes) && Partition(m, nodes, live, heap)
    requires x in nodes && x <= a < End(m, x)
    ensures RunTop(live, heap, a, End(m, x))
  {
  }

  /** After sbrk's bytes joined the free ones, any node away from them is an old node. */
  lemma OtherNodesAreOld(m0: map<int, Header>, n0: set<int>, m: map<int, Header>, nodes: set<int>, base: int,
                         g: int, k: nat, x: int)
    requires IsFreeList(m0, base, n0) && IsFreeList(m, base, nodes)
    requires forall u :: InFree(m, nodes, u) <==> InFree(m0, n0, u) || Within(u, g, k)
    requires x in nodes && k > 0 && !(x <= g < End(m, x))
    ensures x in n0 && m0[x].size == m[x].size
  {
    if x != base {
      NodeIsWhereFreeBytesStart(m, base, nodes, x);
      NodeIsWhereFreeBytesStart(m0, base, n0, x);
      NodeEndsWhereFreeBytesEnd(m, base, nodes, x);
      assert !Within(x - 1, g, k) && !Within(x, g, k);
      assert x in n0;
      NodeEndsWhereFreeBytesEnd(m0, base, n0, x);
      assert !(x <= End(m, x) < End(m0, x));
      assert !(x <= End(m0, x) < End(m, x)) by {
        assert !Within(End(m0, x), g, k) || g < x;
      }
    }
  }

  /** The list after morecore has a fit, and every fit holds the start of sbrk's bytes. */
  lemma GrownListFits(m0: map<int, Header>, n0: set<int>, m: map<int, Header>, base: int, nodes: set<int>,
                      live: map<int, nat>, heap: set<int>, grant: int, n: nat)
    requires IsFreeList(m0, base, n0) && Partition(m0, n0, live, heap)
    requires IsFreeList(m, base, nodes) && Partition(m, nodes, live, heap + Region(grant, GrowUnits(n)))
    requires Region(grant, GrowUnits(n)) !! heap && NoFit(m0, n0, n) && n > 0
    ensures !NoFit(m, nodes, n)
    ensures forall x :: x in nodes && n <= m[x].size ==> x <= grant < End(m, x)
  {
    var k := GrowUnits(n);
    var heap' := heap + Region(grant, k);
    forall u
      ensures InFree(m, nodes, u) <==> InFree(m0, n0, u) || Within(u, grant, k)
    {
      FreeBytesAreTheRest(m, nodes, live, heap', u);
      FreeBytesAreTheRest(m0, n0, live, heap, u);
      assert u in Region(grant, k) <==> Within(u, grant, k);
      assert InLive(live, u) ==> u in heap;
    }
    forall x | x in nodes && n <= m[x].size
      ensures x <= grant < End(m, x)
    {
      if !(x <= grant < End(m, x)) {
        OtherNodesAreOld(m0, n0, m, nodes, base, grant, k, x);
      }
    }
    assert Within(grant, grant, k);
    var h :| h in nodes && h <= grant < End(m, h);
    NodeEndsWhereFreeBytesEnd(m, base, nodes, h);
    assert !Within(End(m, h), grant, k);
  }

  lemma CarvedBlockIsRight(m0: map<int, Header>, n0: set<int>, f0: int, grant: int, heap0: set<int>,
                           m: map<int, Header>, base: int, nodes: set<int>, live: map<int, nat>, heap: set<int>,
                           freep: int, prev: int, p: int, n: nat, grown: bool)
    requires n0 <= m0.Keys && IsFreeList(m, base, nodes) && Partition(m, nodes, live, heap)
    requires p in nodes && freep in nodes && 0 < n <= m[p].size && IsPredecessor(m, nodes, prev, p)
    requires forall x :: x in nodes && x !in Todo(nodes, p, freep) ==> m[x].size < n
    requires !grown ==> m == m0 && nodes == n0 && freep == f0 && heap == heap0
    requires grown ==> NoFit(m0, n0, n) && p <= grant < End(m, p)
    requires grown ==> grant != -1 && heap == heap0 + Region(grant, GrowUnits(n))
    requires End(m, p) - UNIT * n !in live && End(m, p) - UNIT * n + UNIT != NULL
    ensures Allocated(m0, n0, live, heap0, f0, n, grant, End(m, p) - UNIT * n + UNIT,
                      live[End(m, p) - UNIT * n := n], heap, prev)
  {
    var r := End(m, p) - UNIT * n + UNIT;
    if grown {
      NodeRunsToTheTop(m, base, nodes, live, heap, p, grant);
    } else {
      assert forall x :: x in Ahead(nodes, freep, p) ==> x in nodes && x !in Todo(nodes, p, freep);
      assert NextFit(m0, n0, f0, p, n) && r - UNIT + UNIT * n == End(m0, p);
    }
  }

  class Allocator {
    const base: int                // the address of the static header
    var mem: map<int, Header>
    var freep: int
    ghost var nodes: set<int>
    ghost var live: map<int, nat>
    ghost var heap: set<int>

    ghost predicate Valid()
      reads this
    {
      && base > NULL && base in mem
      && nodes <= mem.Keys
      && (forall u :: u in heap ==> base + UNIT <= u)
      && Partition(mem, nodes, live, heap)
      && (freep == NULL ==> nodes == {} && live == map[])
      && (freep != NULL ==> freep in nodes && IsFreeList(mem, base, nodes))
    }

    constructor (b: int)
      requires b > NULL
      ensures Valid() && base == b && freep == NULL && live == map[] && heap == {}
    {
      base := b;
      mem := map[b := Header(NULL, 0)];
      freep := NULL;
      nodes := {};
      live := map[];
      heap := {};
    }

    /** The search loop of free: walks the ring from freep to the node below `bp`. */
    method FindGap(bp: int) returns (p: int)
      requires freep in nodes && IsFreeList(mem, base, nodes) && base < bp && bp !in nodes
      ensures IsBelow(nodes, p, bp)
    {
      p := freep;
      while !(bp > p && bp < mem[p].ptr)
        invariant p in nodes
        decreases Ahead(nodes, p, bp)
      {
        assert Follows(nodes, p, mem[p].ptr);
        if p >= mem[p].ptr && (bp > p || bp < mem[p].ptr) {
          break;
        }
        assert mem[p].ptr in Ahead(nodes, p, bp);
        p := mem[p].ptr;
      }
      assert Follows(nodes, p, mem[p].ptr);
    }

    /** The two conditionals of free: joins `bp` to its neighbours where they touch. */
    method Join(p: int, bp: int)
      requires p in mem && bp in mem && mem[p].ptr in mem
      requires p != bp && mem[p].ptr != bp && mem[bp].size > 0 && p < bp
      modifies this`mem
      ensures Relinked(old(mem), p, bp, mem)
    {
      if bp + UNIT * mem[bp].size == mem[p].ptr {
        var above := mem[p].ptr;
        mem := mem[bp := mem[bp].(size := mem[bp].size + mem[above].size)];
        mem := mem[bp := mem[bp].(ptr := mem[above].ptr)];
      } else {
        mem := mem[bp := mem[bp].(ptr := mem[p].ptr)];
      }
      if p + UNIT * mem[p].size == bp {
        mem := mem[p := mem[p].(size := mem[p].size + mem[bp].size)];
        mem := mem[p := mem[p].(ptr := mem[bp].ptr)];
      } else {
        mem := mem[p := mem[p].(ptr := bp)];
      }
    }

    /** Gives the block whose payload starts at `ap` back to the free list. */
    method Free(ap: int)
      requires Valid() && ap - UNIT in live
      modifies this
      ensures Valid() && freep != NULL
      ensures live == old(live) - {ap - UNIT} && heap == old(heap)
      ensures IsBelow(old(nodes), freep, ap - UNIT)
      ensures LiveUntouched(old(mem), mem, live)
    {
      hide InFree, InLive, Partition;
      var bp := ap - UNIT;
      LiveBlocksAreAboveBase(mem, base, nodes, live, heap);
      var p := FindGap(bp);
      FreedBlockFits(mem, base, nodes, p, bp, live, heap);
      ghost var m := mem;
      Join(p, bp);
      FreeTouchesNothing(m, base, nodes, live, heap, p, bp, mem);
      freep := p;
      InsertedIsFreeList(m, base, nodes, p, bp, mem);
      FreedPartition(m, base, nodes, p, bp, mem, live, heap);
      nodes := Inserted(m, nodes, p, bp);
      live := live - {bp};
    }

    /** What sbrk may answer: -1, or fresh bytes above the static header.  It hands over
        what its signed argument says, so it grants `nu` units only when asked for them. */
    ghost predicate CanGrant(grant: int, nu: nat)
      reads this
    {
      grant == -1 || (SbrkArgument(nu) == UNIT * nu && base + UNIT <= grant && Region(grant, nu) !! heap)
    }

    /** Asks for at least `nu` units; `grant` is the answer of sbrk. */
    method Morecore(nu: nat, grant: int) returns (p: int)
      requires Valid() && freep != NULL && CanGrant(grant, GrowUnits(nu))
      modifies this
      ensures Valid() && p == (if grant == -1 then NULL else freep)
      ensures freep != NULL && live == old(live) && LiveUntouched(old(mem), mem, live)
      ensures grant == -1 ==> unchanged(this)
      ensures grant != -1 ==> heap == old(heap) + Region(grant, GrowUnits(nu))
      // the units asked for, at least 4096, of 8 bytes each
      ensures grant != -1 ==> forall b :: b in heap <==>
                b in old(heap) || grant <= b < grant + 8 * (if nu < 4096 then 4096 else nu)
    {
      hide Partition, IsFreeList;
      var units := nu;
      if units < MIN_GROW {
        units := MIN_GROW;
      }
      if grant == -1 {
        return NULL;
      }
      ghost var m := mem;
      mem := mem[grant := Header(if grant in mem then mem[grant].ptr else NULL, units)];
      GrantedIsApart(m, base, nodes, grant, units, mem, live, heap);
      GrantedPartition(m, base, nodes, grant, units, mem, live, heap);
      ghost var before := live;
      live := live[grant := units];
      heap := heap + Region(grant, units);
      Free(grant + UNIT);
      assert before[grant := units] - {grant} == before;
      p := freep;
    }

    /** The first conditional of malloc: a list that holds only the static header. */
    method Init()
      requires Valid()
      modifies this
      ensures Valid() && freep != NULL && heap == old(heap) && live == old(live)
      ensures LiveUntouched(old(mem), mem, live)
      ensures old(freep) != NULL ==> unchanged(this)
      ensures old(freep) == NULL ==> nodes == {base} && freep == base
    {
      if freep == NULL {
        assert mem[base := Header(base, 0)].Keys == mem.Keys;
        mem := mem[base := Header(base, mem[base].size)];
        freep := base;
        mem := mem[base := mem[base].(size := 0)];
        nodes := {base};
        assert Follows(nodes, base, base);
        assert forall u :: !InLive(live, u);
      }
    }

    /** Takes `n` units from node `p`, whose predecessor is `prevp`. */
    method Carve(prevp: int, p: int, n: nat) returns (r: int)
      requires Valid() && freep != NULL && 0 < n
      requires p in nodes && n <= mem[p].size && IsPredecessor(mem, nodes, prevp, p)
      modifies this
      ensures Valid() && freep == prevp != NULL && heap == old(heap)
      ensures r == End(old(mem), p) - UNIT * n + UNIT && r > NULL
      ensures r - UNIT !in old(live) && live == old(live)[r - UNIT := n]
      ensures LiveUntouched(old(mem), mem, old(live))
    {
      hide Partition, InFree;
      var q := p;
      ghost var m := mem;
      assert p != base;
      FreeHeadersAreApart(mem, base, nodes, live, heap, prevp, prevp);
      FreeHeadersAreApart(mem, base, nodes, live, heap, p, p);
      FreeHeadersAreApart(mem, base, nodes, live, heap, p, End(mem, p) - UNIT * n);
      if mem[p].size == n {
        mem := mem[prevp := mem[prevp].(ptr := mem[p].ptr)];
        WholeBlockUnlinked(m, base, nodes, prevp, p, mem);
        WholeBlockTaken(m, base, nodes, p, mem, live, heap);
        nodes := nodes - {p};
      } else {
        mem := mem[p := mem[p].(size := mem[p].size - n)];
        q := p + UNIT * mem[p].size;
        mem := mem[q := Header(if q in mem then mem[q].ptr else NULL, n)];
        TailCutOff(m, base, nodes, p, n, q, mem);
        TailTaken(m, base, nodes, p, n, q, mem, live, heap);
      }
      live := live[q := n];
      freep := prevp;
      return q + UNIT;
    }

    /** The loop of malloc, for `n` units; `grant` is what sbrk would answer if asked. */
    method Search(n: nat, grant: int) returns (r: int)
      requires Valid() && freep != NULL && 0 < n && CanGrant(grant, GrowUnits(n))
      modifies this
      ensures Valid() && freep != NULL
      ensures Allocated(old(mem), old(nodes), old(live), old(heap), old(freep), n, grant, r, live, heap, freep)
      ensures LiveUntouched(old(mem), mem, old(live))
    {
      hide IsFreeList, Partition, NextFit, RunTop, Region;
      ghost var m, ns, f, h, l := mem, nodes, freep, heap, live;
      var prevp := freep;
      LinkFollows(mem, base, nodes, prevp);
      var p := mem[prevp].ptr;
      WalkStarts(nodes, freep, p);
      ghost var grown := false;
      while true
        invariant Valid() && freep != NULL && live == l && LiveUntouched(m, mem, l)
        invariant IsPredecessor(mem, nodes, prevp, p)
        invariant forall x :: x in nodes && x !in Todo(nodes, p, freep) ==> mem[x].size < n
        invariant !grown ==> mem == m && nodes == ns && freep == f && heap == h
        invariant grown ==> NoFit(m, ns, n) && !NoFit(mem, nodes, n)
        invariant grown ==> grant != -1 && heap == h + Region(grant, GrowUnits(n))
        invariant grown ==> forall x :: x in nodes && n <= mem[x].size ==> x <= grant < End(mem, x)
        decreases if grown then 0 else 1, Todo(nodes, p, freep)
      {
        if mem[p].size >= n {
          ghost var m', ns', f' := mem, nodes, freep;
          r := Carve(prevp, p, n);
          CarvedBlockIsRight(m, ns, f, grant, h, m', base, ns', l, heap, f', prevp, p, n, grown);
          return;
        }
        if p == freep {
          p := Morecore(n, grant);
          if p == NULL {
            return NULL;
          }
          grown := true;
          GrownListFits(m, ns, mem, base, nodes, live, h, grant, n);
        }
        LinkFollows(mem, base, nodes, p);
        prevp := p;
        p := mem[p].ptr;
        if prevp == freep {
          WalkStarts(nodes, freep, p);
        } else {
          WalkSteps(nodes, freep, prevp, p);
        }
      }
    }

    /** Allocates `nbytes` bytes; `grant` is what sbrk would answer if it were asked. */
    method Malloc(nbytes: nat, grant: int) returns (r: int)
      requires Valid() && nbytes < TWO_32
      requires CanGrant(grant, GrowUnits(UnitsFor(nbytes)))
      modifies this
      ensures Valid() && freep != NULL
      ensures Allocated(old(mem), old(nodes), old(live), old(heap), old(freep), UnitsFor(nbytes), grant, r, live, heap,
          freep)
      ensures LiveUntouched(old(mem), mem, old(live))
      ensures r != NULL ==> r - UNIT in live
      ensures r != NULL && nbytes <= TWO_31 - 16 ==>
                UNIT * (live[r - UNIT] - 1) >= nbytes && live[r - UNIT] == (nbytes + 7) / 8 + 1
      ensures r != NULL && nbytes > TWO_32 - UNIT ==> UNIT * (live[r - UNIT] - 1) == 0
    {
      hide UnitsFor, SbrkArgument, Partition;
      Init();
      r := Search(UnitsFor(nbytes), grant);
      HonestRequest(nbytes);
      ExactUnits(nbytes);
      if nbytes > TWO_31 - 16 {
        WrappedRequest(nbytes);
      }
    }
  }
}
