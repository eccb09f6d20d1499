/** The block and file layers of kernel/fs.c.

    The in-memory inode table is the authority on which blocks a file has.  The ghost
    map `owner` says, for every data block in use, which inode and which slot of it
    holds the block: slots 0-11 are the direct addresses, slot 12 is the indirect block,
    and slots 13-140 are the words of the indirect block. */
module FileSystem {
  import opened Volume

  const T_DIR := 1
  const T_FILE := 2
  const T_DEV := 3

  const SLOTS := NDIRECT + 1 + NINDIRECT

  datatype Inode = Inode(typ: int, major: int, minor: int, nlink: int, size: nat, addrs: seq<nat>)

  datatype Place = Place(inum: nat, slot: nat)

  predicate InodeShaped(g: Geometry, ip: Inode) {
    |ip.addrs| == NDIRECT + 1 && forall k :: 0 <= k <= NDIRECT ==> ip.addrs[k] < g.size
  }

  predicate TableShaped(g: Geometry, inodes: seq<Inode>) {
    |inodes| == g.ninodes && forall i :: 0 <= i < |inodes| ==> InodeShaped(g, inodes[i])
  }

  /** The block address in slot `s` of an inode, 0 if there is none. */
  function SlotAddr(g: Geometry, disk: seq<Block>, ip: Inode, s: nat): nat
    requires Shaped(g, disk) && InodeShaped(g, ip) && s < SLOTS
  {
    if s <= NDIRECT then ip.addrs[s]
    else if ip.addrs[NDIRECT] == 0 then 0
    else Word(disk[ip.addrs[NDIRECT]], s - NDIRECT - 1)
  }

  /** The slot that holds the n-th block of a file. */
  function SlotOf(n: nat): (s: nat)
    requires n < MAXFILE
    ensures s < SLOTS && s != NDIRECT
  {
    if n < NDIRECT then n else n + 1
  }

  function FileAddr(g: Geometry, disk: seq<Block>, ip: Inode, n: nat): nat
    requires Shaped(g, disk) && InodeShaped(g, ip) && n < MAXFILE
  {
    SlotAddr(g, disk, ip, SlotOf(n))
  }

  function FileBlock(g: Geometry, disk: seq<Block>, ip: Inode, n: nat): Block
    requires Shaped(g, disk) && InodeShaped(g, ip) && n < MAXFILE
  {
    var a := FileAddr(g, disk, ip, n);
    if a < |disk| then disk[a] else ZERO_BLOCK
  }

  predicate IsPlace(g: Geometry, p: Place) {
    p.inum < g.ninodes && p.slot < SLOTS
  }

  function At(g: Geometry, disk: seq<Block>, inodes: seq<Inode>, p: Place): nat
    requires Shaped(g, disk) && TableShaped(g, inodes) && IsPlace(g, p)
  {
    SlotAddr(g, disk, inodes[p.inum], p.slot)
  }

  /** Every address in an inode is a block owned by that very slot: no block is shared. */
  ghost predicate AddressesOwned(g: Geometry, disk: seq<Block>, inodes: seq<Inode>, owner: map<nat, Place>)
    requires Shaped(g, disk) && TableShaped(g, inodes)
  {
    forall p :: IsPlace(g, p) && At(g, disk, inodes, p) != 0 ==>
      At(g, disk, inodes, p) in owner && owner[At(g, disk, inodes, p)] == p
  }

  /** Every owned block is a data block and is where its owner says. */
  ghost predicate OwnersHold(g: Geometry, disk: seq<Block>, inodes: seq<Inode>, owner: map<nat, Place>)
    requires Shaped(g, disk) && TableShaped(g, inodes)
  {
    forall a :: a in owner ==> g.DataStart() <= a < g.size && IsPlace(g, owner[a]) && At(g, disk, inodes, owner[a]) == a
  }

  /** The bitmap marks the metadata and the owned blocks, and nothing else. */
  ghost predicate BitmapExact(g: Geometry, disk: seq<Block>, owner: map<nat, Place>)
    requires Shaped(g, disk)
  {
    forall b :: 0 <= b < g.size ==> (Marked(g, disk, b) <==> b < g.DataStart() || b in owner)
  }

  /** Every free block is all zero, and so is block 0. */
  ghost predicate FreeBlocksZero(g: Geometry, disk: seq<Block>, owner: map<nat, Place>)
    requires Shaped(g, disk)
  {
    && disk[0] == ZERO_BLOCK
    && forall b :: g.DataStart() <= b < g.size && b !in owner ==> disk[b] == ZERO_BLOCK
  }

  /** Who owns which block, and what is true of the blocks nobody owns. */
  ghost predicate Owned(g: Geometry, disk: seq<Block>, inodes: seq<Inode>, owner: map<nat, Place>) {
    && Shaped(g, disk) && TableShaped(g, inodes)
    && AddressesOwned(g, disk, inodes, owner)
    && OwnersHold(g, disk, inodes, owner)
    && BitmapExact(g, disk, owner)
    && FreeBlocksZero(g, disk, owner)
  }

  /** No data block is free. */
  ghost predicate DiskFull(g: Geometry, owner: map<nat, Place>) {
    forall b :: g.DataStart() <= b < g.size ==> b in owner
  }

  ghost function FreeSet(g: Geometry, owner: map<nat, Place>): set<nat> {
    set b: nat | g.DataStart() <= b < g.size && b !in owner
  }

  /** How many data blocks are free. */
  ghost function FreeBlocks(g: Geometry, owner: map<nat, Place>): nat {
    |FreeSet(g, owner)|
  }

  lemma FullIsNoneFree(g: Geometry, owner: map<nat, Place>)
    ensures DiskFull(g, owner) <==> FreeBlocks(g, owner) == 0
  {
    hide Geometry.DataStart;
    forall b | g.DataStart() <= b < g.size && b !in owner
      ensures b in FreeSet(g, owner)
    {
    }
    if FreeBlocks(g, owner) != 0 {
      var b :| b in FreeSet(g, owner);
    }
  }

  lemma OneTaken(g: Geometry, owner: map<nat, Place>, a: nat, p: Place)
    requires g.DataStart() <= a < g.size && a !in owner
    ensures FreeBlocks(g, owner) == FreeBlocks(g, owner[a := p]) + 1
  {
    hide Geometry.DataStart;
    assert FreeSet(g, owner) == FreeSet(g, owner[a := p]) + {a};
  }

  ghost function Numbers(lo: nat, hi: nat): (numbers: set<nat>)
    requires lo <= hi
    ensures |numbers| == hi - lo && forall b :: b in numbers <==> lo <= b < hi
  {
    if lo == hi then {} else Numbers(lo, hi - 1) + {hi - 1}
  }

  /** The blocks that file `ip` takes from the free ones to grow from `cap0` to `cap` blocks: one
      more than it grows by when it needs its indirect block and has none. */
  function Cost(ip: Inode, cap0: nat, cap: nat): (blocks: nat)
    requires cap0 <= cap && |ip.addrs| == NDIRECT + 1
    ensures cap - cap0 <= blocks <= cap - cap0 + 1 && (blocks == 0 <==> cap0 == cap)
  {
    cap - cap0 + if cap0 < cap && cap > NDIRECT && ip.addrs[NDIRECT] == 0 then 1 else 0
  }

  /** The file grew from `cap0` to `cap` blocks and paid for it. */
  ghost predicate Spent(g: Geometry, ip0: Inode, owner0: map<nat, Place>, ip: Inode, owner: map<nat, Place>, cap0: nat,
      cap: nat) {
    && |ip0.addrs| == |ip.addrs| == NDIRECT + 1 && cap0 <= cap
    && FreeBlocks(g, owner0) == FreeBlocks(g, owner) + Cost(ip0, cap0, cap)
    && (ip.addrs[NDIRECT] != 0 <==> ip0.addrs[NDIRECT] != 0 || (cap0 < cap && cap > NDIRECT))
  }

  lemma SpentTwice(g: Geometry, ip0: Inode, owner0: map<nat, Place>, ip1: Inode, owner1: map<nat, Place>,
                   ip2: Inode, owner2: map<nat, Place>, cap0: nat, cap1: nat, cap2: nat)
    requires Spent(g, ip0, owner0, ip1, owner1, cap0, cap1) && Spent(g, ip1, owner1, ip2, owner2, cap1, cap2)
    ensures Spent(g, ip0, owner0, ip2, owner2, cap0, cap2)
  {
  }

  /** Who cannot afford the next block cannot afford to grow to any larger size. */
  lemma CannotAfford(g: Geometry, ip0: Inode, owner0: map<nat, Place>, ip: Inode, owner: map<nat, Place>,
                     cap0: nat, cap: nat, most: nat)
    requires Spent(g, ip0, owner0, ip, owner, cap0, cap) && FreeBlocks(g, owner) < Cost(ip, cap, cap + 1) && cap < most
    ensures FreeBlocks(g, owner0) < Cost(ip0, cap0, most)
  {
  }

  /** Nothing of the inodes other than `i` differs. */
  ghost predicate OthersKept(g: Geometry, disk: seq<Block>, inodes: seq<Inode>, owner: map<nat, Place>,
                             disk': seq<Block>, inodes': seq<Inode>, owner': map<nat, Place>, i: nat) {
    && |disk'| == |disk| == g.size && |inodes'| == |inodes|
    && (forall j :: 0 <= j < |inodes| && j != i ==> inodes'[j] == inodes[j])
    && (forall a :: a in owner && a < g.size && owner[a].inum != i ==>
       a in owner' && owner'[a] == owner[a] && disk'[a] == disk[a])
  }

  /** A free block is given to an empty slot. */
  lemma OwnerGrows(g: Geometry, disk: seq<Block>, inodes: seq<Inode>, owner: map<nat, Place>,
                   disk': seq<Block>, inodes': seq<Inode>, p: Place, a: nat)
    requires Owned(g, disk, inodes, owner) && Shaped(g, disk') && TableShaped(g, inodes')
    requires g.DataStart() <= a < g.size && a !in owner && IsPlace(g, p) && At(g, disk, inodes, p) == 0
    requires forall b :: 0 <= b < g.size ==> (Marked(g, disk', b) <==> b == a || Marked(g, disk, b))
    requires forall b :: g.DataStart() <= b < g.size && b !in owner ==> disk'[b] == disk[b]
    requires disk'[0] == disk[0]
    requires forall q :: IsPlace(g, q) ==> At(g, disk', inodes', q) == if q == p then a else At(g, disk, inodes, q)
    ensures Owned(g, disk', inodes', owner[a := p])
  {
    hide At, Marked, Geometry.DataStart, SlotAddr, Geometry.Ok, IsPlace;
    PlaceBounds(g);
  }

  lemma PlaceBounds(g: Geometry)
    ensures 0 < g.BitmapStart() < g.DataStart()
  {
  }


  lemma SlotAddrFrame(g: Geometry, disk: seq<Block>, disk': seq<Block>, ip: Inode, s: nat)
    requires Shaped(g, disk) && Shaped(g, disk') && InodeShaped(g, ip) && s < SLOTS
    requires ip.addrs[NDIRECT] != 0 ==> disk'[ip.addrs[NDIRECT]] == disk[ip.addrs[NDIRECT]]
    ensures SlotAddr(g, disk', ip, s) == SlotAddr(g, disk, ip, s)
  {
  }

  lemma MarkedFrame(g: Geometry, disk: seq<Block>, disk': seq<Block>)
    requires Shaped(g, disk) && Shaped(g, disk')
    requires forall b :: g.BitmapStart() <= b < g.DataStart() ==> disk'[b] == disk[b]
    ensures forall b :: 0 <= b < g.size ==> Marked(g, disk', b) == Marked(g, disk, b)
  {
  }

  lemma MarkingKeepsData(g: Geometry, disk: seq<Block>, a: nat, v: bool)
    requires Shaped(g, disk) && a < g.size
    ensures Shaped(g, MarkPut(g, disk, a, v)) && MarkPut(g, disk, a, v)[0] == disk[0]
    ensures forall b :: g.DataStart() <= b < g.size ==> MarkPut(g, disk, a, v)[b] == disk[b]
    ensures forall b :: 0 <= b < g.size ==>
        Marked(g, MarkPut(g, disk, a, v), b) == if b == a then v else Marked(g, disk, b)
  {
    forall b | 0 <= b < g.size
      ensures Marked(g, MarkPut(g, disk, a, v), b) == if b == a then v else Marked(g, disk, b)
    {
      MarkPutMarked(g, disk, a, v, b);
    }
  }

  /** The indirect block of an inode, if it has one, is a block of its own. */
  lemma IndirectIsOwned(g: Geometry, disk: seq<Block>, inodes: seq<Inode>, owner: map<nat, Place>, i: nat)
    requires Owned(g, disk, inodes, owner) && i < g.ninodes && inodes[i].addrs[NDIRECT] != 0
    ensures inodes[i].addrs[NDIRECT] in owner && owner[inodes[i].addrs[NDIRECT]] == Place(i, NDIRECT)
    ensures g.DataStart() <= inodes[i].addrs[NDIRECT] < g.size
  {
    assert At(g, disk, inodes, Place(i, NDIRECT)) == inodes[i].addrs[NDIRECT];
  }

  /** The inode table with address `k` of inode `i` set to `a`. */
  function AddrPut(inodes: seq<Inode>, i: nat, k: nat, a: nat): seq<Inode>
    requires i < |inodes| && k < |inodes[i].addrs|
  {
    inodes[i := inodes[i].(addrs := inodes[i].addrs[k := a])]
  }

  lemma SameAddrPut(inodes: seq<Inode>, i: nat, k: nat)
    requires i < |inodes| && k < |inodes[i].addrs|
    ensures AddrPut(inodes, i, k, inodes[i].addrs[k]) == inodes
  {
    assert inodes[i].addrs[k := inodes[i].addrs[k]] == inodes[i].addrs;
  }

  /** A free block `a` went into the empty slot `p`; nothing else of the block map changed. */
  ghost predicate Grew(g: Geometry, disk: seq<Block>, inodes: seq<Inode>, owner: map<nat, Place>,
                       disk': seq<Block>, inodes': seq<Inode>, owner': map<nat, Place>, p: Place, a: nat) {
    && Owned(g, disk, inodes, owner) && Owned(g, disk', inodes', owner')
    && IsPlace(g, p) && 0 < a < g.size && a !in owner && owner' == owner[a := p]
    && disk'[a] == ZERO_BLOCK
    && (forall q :: IsPlace(g, q) ==> At(g, disk', inodes', q) == if q == p then a else At(g, disk, inodes, q))
    && (forall b :: b in owner && owner[b] != Place(p.inum, NDIRECT) ==> disk'[b] == disk[b])
    && (forall j :: 0 <= j < g.ninodes && j != p.inum ==> inodes'[j] == inodes[j])
    && inodes'[p.inum] == inodes[p.inum].(addrs := inodes'[p.inum].addrs)
  }

  lemma GrewByOne(g: Geometry, disk: seq<Block>, inodes: seq<Inode>, owner: map<nat, Place>,
                  disk': seq<Block>, inodes': seq<Inode>, owner': map<nat, Place>, p: Place, a: nat)
    requires Grew(g, disk, inodes, owner, disk', inodes', owner', p, a)
    ensures FreeBlocks(g, owner) == FreeBlocks(g, owner') + 1
    ensures p.slot != NDIRECT ==> inodes'[p.inum].addrs[NDIRECT] == inodes[p.inum].addrs[NDIRECT]
    ensures p.slot == NDIRECT ==> inodes'[p.inum].addrs[NDIRECT] == a
  {
    assert a in owner';
    OneTaken(g, owner, a, p);
    assert IsPlace(g, Place(p.inum, NDIRECT));
    assert At(g, disk', inodes', Place(p.inum, NDIRECT)) == inodes'[p.inum].addrs[NDIRECT];
  }

  lemma PlaceIsEmpty(g: Geometry, disk: seq<Block>, inodes: seq<Inode>, p: Place)
    requires Shaped(g, disk) && TableShaped(g, inodes) && IsPlace(g, p) && p.slot <= NDIRECT
    ensures At(g, disk, inodes, p) == inodes[p.inum].addrs[p.slot]
  {
  }

  lemma AddressTakenAt(g: Geometry, disk: seq<Block>, inodes: seq<Inode>, owner: map<nat, Place>, i: nat, k: nat,
                       a: nat, disk': seq<Block>, q: Place)
    requires Owned(g, disk, inodes, owner) && i < g.ninodes && k <= NDIRECT && inodes[i].addrs[k] == 0 && IsPlace(g, q)
    requires g.DataStart() <= a < g.size && a !in owner && Shaped(g, disk')
    requires forall b :: g.DataStart() <= b < g.size ==> disk'[b] == disk[b]
    ensures At(g, disk', AddrPut(inodes, i, k, a), q) == if q == Place(i, k) then a else At(g, disk, inodes, q)
  {
    hide AddressesOwned, OwnersHold, BitmapExact, Geometry.DataStart, Geometry.Ok;
    var ip := inodes[q.inum];
    if ip.addrs[NDIRECT] != 0 {
      IndirectIsOwned(g, disk, inodes, owner, q.inum);
    }
    SlotAddrFrame(g, disk, disk', ip, q.slot);
    if q.inum == i && k == NDIRECT < q.slot {
      ZeroWords(q.slot - NDIRECT - 1);
    }
  }

  /** Block `a` goes into address `k` of the inode itself; a fresh indirect block holds
      no addresses because every free block is zero. */
  lemma AddressTaken(g: Geometry, disk: seq<Block>, inodes: seq<Inode>, owner: map<nat, Place>, i: nat, k: nat, a: nat)
    requires Owned(g, disk, inodes, owner) && i < g.ninodes && k <= NDIRECT && inodes[i].addrs[k] == 0
    requires a < g.size && !Marked(g, disk, a)
    ensures Grew(g, disk, inodes, owner, MarkPut(g, disk, a, true), AddrPut(inodes, i, k, a), owner[a := Place(i, k)],
                 Place(i, k), a)
  {
    hide Marked, MarkPut, At, SlotAddr, AddressesOwned;
    var disk', inodes', p := MarkPut(g, disk, a, true), AddrPut(inodes, i, k, a), Place(i, k);
    MarkingKeepsData(g, disk, a, true);
    assert a !in owner && g.DataStart() <= a;
    forall q | IsPlace(g, q)
      ensures At(g, disk', inodes', q) == if q == p then a else At(g, disk, inodes, q)
    {
      AddressTakenAt(g, disk, inodes, owner, i, k, a, disk', q);
    }
    PlaceIsEmpty(g, disk, inodes, p);
    OwnerGrows(g, disk, inodes, owner, disk', inodes', p, a);
  }

  lemma WordTakenAt(g: Geometry, disk: seq<Block>, inodes: seq<Inode>, owner: map<nat, Place>, i: nat, w: nat, a: nat,
                    disk': seq<Block>, q: Place)
    requires Owned(g, disk, inodes, owner) && i < g.ninodes && w < NINDIRECT && inodes[i].addrs[NDIRECT] != 0
    requires Shaped(g, disk') && a < TWO_32
    requires disk'[inodes[i].addrs[NDIRECT]] == WordPut(disk[inodes[i].addrs[NDIRECT]], w, a)
    requires forall b :: g.DataStart() <= b < g.size && b != inodes[i].addrs[NDIRECT] ==> disk'[b] == disk[b]
    requires IsPlace(g, q)
    ensures At(g, disk', inodes, q) == if q == Place(i, NDIRECT + 1 + w) then a else At(g, disk, inodes, q)
  {
    hide Word, WordPut, AddressesOwned, OwnersHold;
    IndirectIsOwned(g, disk, inodes, owner, i);
    if q.inum != i {
      if inodes[q.inum].addrs[NDIRECT] != 0 {
        IndirectIsOwned(g, disk, inodes, owner, q.inum);
      }
      SlotAddrFrame(g, disk, disk', inodes[q.inum], q.slot);
    } else if q.slot > NDIRECT {
      WordPutGet(disk[inodes[i].addrs[NDIRECT]], w, a, q.slot - NDIRECT - 1);
    }
  }

  /** Block `a` goes into word `w` of the indirect block of inode `i`. */
  lemma WordTaken(g: Geometry, disk: seq<Block>, inodes: seq<Inode>, owner: map<nat, Place>, i: nat, w: nat, a: nat,
                  disk': seq<Block>)
    requires Shaped(g, disk) && TableShaped(g, inodes) && i < g.ninodes && w < NINDIRECT && a < g.size
    requires inodes[i].addrs[NDIRECT] != 0 && Word(disk[inodes[i].addrs[NDIRECT]], w) == 0
    requires disk' ==
        MarkPut(g, disk, a, true)[inodes[i].addrs[NDIRECT] := WordPut(disk[inodes[i].addrs[NDIRECT]], w, a)]
    requires Owned(g, disk, inodes, owner) && !Marked(g, disk, a)
    ensures Grew(g, disk, inodes, owner, disk', inodes, owner[a := Place(i, NDIRECT + 1 + w)],
        Place(i, NDIRECT + 1 + w), a)
  {
    hide MarkPut, Marked, Word, WordPut, AddressesOwned, OwnersHold, Geometry.DataStart, Geometry.BitmapStart;
    PlaceBounds(g);
    var x, p := inodes[i].addrs[NDIRECT], Place(i, NDIRECT + 1 + w);
    MarkingKeepsData(g, disk, a, true);
    IndirectIsOwned(g, disk, inodes, owner, i);
    assert a !in owner && 0 < g.DataStart() <= a;
    assert forall b :: g.DataStart() <= b < g.size && b != x ==> disk'[b] == disk[b];
    MarkedFrame(g, MarkPut(g, disk, a, true), disk');
    forall q | IsPlace(g, q)
      ensures At(g, disk', inodes, q) == if q == p then a else At(g, disk, inodes, q)
    {
      WordTakenAt(g, disk, inodes, owner, i, w, a, disk', q);
    }
    hide At;
    OwnerGrows(g, disk, inodes, owner, disk', inodes, p, a);
    OwnedBlocksAreData(g, disk, inodes, owner);
  }

  lemma OwnedBlocksAreData(g: Geometry, disk: seq<Block>, inodes: seq<Inode>, owner: map<nat, Place>)
    requires Owned(g, disk, inodes, owner)
    ensures forall a :: a in owner ==> g.DataStart() <= a < g.size && IsPlace(g, owner[a])
  {
  }

  // ----- files

  /** The bytes in the first `cap` blocks of a file. */
  ghost function Image(g: Geometry, disk: seq<Block>, ip: Inode, cap: nat): (bytes: seq<Byte>)
    requires Shaped(g, disk) && InodeShaped(g, ip) && cap <= MAXFILE
    ensures |bytes| == cap * BSIZE
  {
    seq(cap * BSIZE, k requires 0 <= k < cap * BSIZE => FileBlock(g, disk, ip, k / BSIZE)[k % BSIZE])
  }

  /** The file has exactly its first `cap` blocks. */
  ghost predicate HasBlocks(g: Geometry, disk: seq<Block>, ip: Inode, cap: nat)
    requires Shaped(g, disk) && InodeShaped(g, ip)
  {
    cap <= MAXFILE && forall n :: 0 <= n < MAXFILE ==> (FileAddr(g, disk, ip, n) != 0 <==> n < cap)
  }

  /** The blocks of a file of `size` bytes that is not being written. */
  function BlocksFor(size: nat): nat {
    (size + BSIZE - 1) / BSIZE
  }

  /** A file at rest: just the blocks its size needs, zero from its size on; an inode
      that is not in use has nothing. */
  ghost predicate FileOk(g: Geometry, disk: seq<Block>, ip: Inode)
    requires Shaped(g, disk) && InodeShaped(g, ip)
  {
    var cap := BlocksFor(ip.size);
    && HasBlocks(g, disk, ip, cap)
    && (forall k :: ip.size <= k < cap * BSIZE ==> Image(g, disk, ip, cap)[k] == 0)
    && (ip.typ == 0 ==> ip.size == 0 && forall k :: 0 <= k <= NDIRECT ==> ip.addrs[k] == 0)
  }

  ghost predicate FilesOk(g: Geometry, disk: seq<Block>, inodes: seq<Inode>)
    requires Shaped(g, disk) && TableShaped(g, inodes)
  {
    forall i :: 0 <= i < |inodes| ==> FileOk(g, disk, inodes[i])
  }

  /** The contents of file `i`. */
  ghost function Content(g: Geometry, disk: seq<Block>, ip: Inode): (bytes: seq<Byte>)
    requires Shaped(g, disk) && InodeShaped(g, ip)
    ensures FileOk(g, disk, ip) ==> |bytes| == ip.size
  {
    if ip.size <= MAXFILE * BSIZE then Image(g, disk, ip, BlocksFor(ip.size))[..ip.size] else []
  }

  lemma FileBlockIsOwned(g: Geometry, disk: seq<Block>, inodes: seq<Inode>, owner: map<nat, Place>, i: nat, n: nat)
    requires Owned(g, disk, inodes, owner) && i < g.ninodes && n < MAXFILE
    ensures var a := FileAddr(g, disk, inodes[i], n);
            a < g.size && (a != 0 ==> g.DataStart() <= a && a in owner && owner[a] == Place(i, SlotOf(n)))
  {
    assert At(g, disk, inodes, Place(i, SlotOf(n))) == FileAddr(g, disk, inodes[i], n);
  }

  /** A file whose blocks keep their places and bytes stays the same file. */
  lemma FileFrame(g: Geometry, disk: seq<Block>, inodes: seq<Inode>, owner: map<nat, Place>, i: nat,
                  disk': seq<Block>, ip': Inode, cap: nat)
    requires Owned(g, disk, inodes, owner) && i < g.ninodes && Shaped(g, disk') && InodeShaped(g, ip')
    requires HasBlocks(g, disk, inodes[i], cap)
    requires forall n :: 0 <= n < MAXFILE ==> FileAddr(g, disk', ip', n) == FileAddr(g, disk, inodes[i], n)
    requires forall a :: a in owner && owner[a].inum == i && owner[a].slot != NDIRECT ==> disk'[a] == disk[a]
    ensures Image(g, disk', ip', cap) == Image(g, disk, inodes[i], cap) && HasBlocks(g, disk', ip', cap)
  {
    forall n | 0 <= n < cap
      ensures FileBlock(g, disk', ip', n) == FileBlock(g, disk, inodes[i], n)
    {
      FileBlockIsOwned(g, disk, inodes, owner, i, n);
    }
  }

  lemma GrewAddr(g: Geometry, disk: seq<Block>, inodes: seq<Inode>, owner: map<nat, Place>,
                 disk': seq<Block>, inodes': seq<Inode>, owner': map<nat, Place>, p: Place, a: nat)
    requires Grew(g, disk, inodes, owner, disk', inodes', owner', p, a)
    ensures forall n :: 0 <= n < MAXFILE ==>
              FileAddr(g, disk', inodes'[p.inum], n) == if SlotOf(n) == p.slot then a
                  else FileAddr(g, disk, inodes[p.inum], n)
    ensures OthersKept(g, disk, inodes, owner, disk', inodes', owner', p.inum)
    ensures |inodes| == |inodes'| == g.ninodes && inodes'[p.inum] == inodes[p.inum].(addrs := inodes'[p.inum].addrs)
  {
    forall n | 0 <= n < MAXFILE
      ensures FileAddr(g, disk', inodes'[p.inum], n) == if SlotOf(n) == p.slot then a
          else FileAddr(g, disk, inodes[p.inum], n)
    {
      assert At(g, disk', inodes', Place(p.inum, SlotOf(n))) == FileAddr(g, disk', inodes'[p.inum], n);
      assert At(g, disk, inodes, Place(p.inum, SlotOf(n))) == FileAddr(g, disk, inodes[p.inum], n);
    }
  }

  /** A new indirect block does not show in the file. */
  lemma IndirectGrew(g: Geometry, disk: seq<Block>, inodes: seq<Inode>, owner: map<nat, Place>,
                     disk': seq<Block>, inodes': seq<Inode>, owner': map<nat, Place>, i: nat, a: nat, cap: nat)
    requires Grew(g, disk, inodes, owner, disk', inodes', owner', Place(i, NDIRECT), a)
        && HasBlocks(g, disk, inodes[i], cap)
    ensures HasBlocks(g, disk', inodes'[i], cap) && Image(g, disk', inodes'[i], cap) == Image(g, disk, inodes[i], cap)
    ensures OthersKept(g, disk, inodes, owner, disk', inodes', owner', i)
    ensures |inodes| == |inodes'| == g.ninodes && inodes'[i] == inodes[i].(addrs := inodes'[i].addrs)
  {
    GrewAddr(g, disk, inodes, owner, disk', inodes', owner', Place(i, NDIRECT), a);
    FileFrame(g, disk, inodes, owner, i, disk', inodes'[i], cap);
  }

  lemma ImageGrows(g: Geometry, disk: seq<Block>, ip: Inode, disk': seq<Block>, ip': Inode, n: nat)
    requires Shaped(g, disk) && InodeShaped(g, ip) && Shaped(g, disk') && InodeShaped(g, ip') && n < MAXFILE
    requires forall m :: 0 <= m < n ==> FileBlock(g, disk', ip', m) == FileBlock(g, disk, ip, m)
    ensures Image(g, disk', ip', n + 1) == Image(g, disk, ip, n) + FileBlock(g, disk', ip', n)
  {
  }

  lemma GrewHasBlocks(g: Geometry, disk: seq<Block>, inodes: seq<Inode>, owner: map<nat, Place>,
                      disk': seq<Block>, inodes': seq<Inode>, owner': map<nat, Place>, i: nat, n: nat, a: nat)
    requires n < MAXFILE && Grew(g, disk, inodes, owner, disk', inodes', owner', Place(i, SlotOf(n)), a)
    requires HasBlocks(g, disk, inodes[i], n)
    ensures HasBlocks(g, disk', inodes'[i], n + 1) && FileAddr(g, disk', inodes'[i], n) == a
    ensures OthersKept(g, disk, inodes, owner, disk', inodes', owner', i)
    ensures |inodes| == |inodes'| == g.ninodes && inodes'[i] == inodes[i].(addrs := inodes'[i].addrs)
    ensures forall m :: 0 <= m < n ==> FileAddr(g, disk', inodes'[i], m) == FileAddr(g, disk, inodes[i], m)
  {
    hide Geometry.DataStart, Geometry.Ok, AddressesOwned, OwnersHold, SlotAddr, At, FileAddr, BitmapExact,
         FreeBlocksZero, OthersKept;
    GrewAddr(g, disk, inodes, owner, disk', inodes', owner', Place(i, SlotOf(n)), a);
  }

  lemma GrewBlock(g: Geometry, disk: seq<Block>, inodes: seq<Inode>, owner: map<nat, Place>,
                  disk': seq<Block>, inodes': seq<Inode>, owner': map<nat, Place>, i: nat, n: nat, a: nat, m: nat)
    requires n < MAXFILE && Grew(g, disk, inodes, owner, disk', inodes', owner', Place(i, SlotOf(n)), a)
    requires m < n && FileAddr(g, disk, inodes[i], m) != 0
    requires InodeShaped(g, inodes'[i]) && FileAddr(g, disk', inodes'[i], m) == FileAddr(g, disk, inodes[i], m)
    ensures FileBlock(g, disk', inodes'[i], m) == FileBlock(g, disk, inodes[i], m)
  {
    hide Geometry.DataStart, Geometry.Ok, AddressesOwned, OwnersHold, SlotAddr, At, FileAddr, BitmapExact,
         FreeBlocksZero;
    FileBlockIsOwned(g, disk, inodes, owner, i, m);
  }

  /** A new data block arrives as a block of zeros at the end of the file. */
  lemma FileGrew(g: Geometry, disk: seq<Block>, inodes: seq<Inode>, owner: map<nat, Place>,
                 disk': seq<Block>, inodes': seq<Inode>, owner': map<nat, Place>, i: nat, n: nat, a: nat)
    requires n < MAXFILE && Grew(g, disk, inodes, owner, disk', inodes', owner', Place(i, SlotOf(n)), a)
    requires HasBlocks(g, disk, inodes[i], n)
    ensures Image(g, disk', inodes'[i], n + 1) == Image(g, disk, inodes[i], n) + ZERO_BLOCK
    ensures HasBlocks(g, disk', inodes'[i], n + 1) && FileAddr(g, disk', inodes'[i], n) == a
    ensures OthersKept(g, disk, inodes, owner, disk', inodes', owner', i)
    ensures |inodes| == |inodes'| == g.ninodes && inodes'[i] == inodes[i].(addrs := inodes'[i].addrs)
  {
    GrewHasBlocks(g, disk, inodes, owner, disk', inodes', owner', i, n, a);
    hide Geometry.DataStart, Geometry.Ok, AddressesOwned, OwnersHold, SlotAddr, At, FileAddr, SlotOf, BitmapExact,
         FreeBlocksZero, Image, OthersKept;
    forall m | 0 <= m < n
      ensures FileBlock(g, disk', inodes'[i], m) == FileBlock(g, disk, inodes[i], m)
    {
      GrewBlock(g, disk, inodes, owner, disk', inodes', owner', i, n, a, m);
    }
    assert FileBlock(g, disk', inodes'[i], n) == ZERO_BLOCK;
    ImageGrows(g, disk, inodes[i], disk', inodes'[i], n);
  }

  lemma KeptTwice(g: Geometry, d0: seq<Block>, n0: seq<Inode>, o0: map<nat, Place>, d1: seq<Block>, n1: seq<Inode>,
                  o1: map<nat, Place>, d2: seq<Block>, n2: seq<Inode>, o2: map<nat, Place>, i: nat)
    requires OthersKept(g, d0, n0, o0, d1, n1, o1, i) && OthersKept(g, d1, n1, o1, d2, n2, o2, i)
    ensures OthersKept(g, d0, n0, o0, d2, n2, o2, i)
  {
  }

  lemma BitmapIndex(g: Geometry, q: nat, b: nat, bi: nat)
    requires g.Ok() && b == BPB * q && bi < BPB && b + bi < g.size
    ensures b / BPB + g.ninodes / IPB + 3 == g.BitmapStart() + (b + bi) / BPB < g.size && (b + bi) % BPB == bi
  {
  }

  /** In the last bitmap block, the bits up to `size % BPB` are the ones in range. */
  lemma LastBound(size: nat, q: nat)
    requires BPB * q < size < BPB * q + BPB
    ensures BPB * q + size % BPB == size
  {
  }

  /** Bit `bi` of the bitmap block for block `b`, as balloc addresses it. */
  lemma BitOfBlock(g: Geometry, disk: seq<Block>, q: nat, b: nat, bi: nat)
    requires Shaped(g, disk) && b == BPB * q && bi < BPB && b + bi < g.size
    ensures var bno := b / BPB + g.ninodes / IPB + 3;
            && bno < |disk|
            && (Marked(g, disk, b + bi) <==> BitIn(disk[bno], bi))
            && MarkPut(g, disk, b + bi, true) == disk[bno := disk[bno][bi / 8 := disk[bno][bi / 8] | Mask(bi % 8)]]
  {
    hide Mask, Geometry.BitmapStart, Geometry.DataStart, Geometry.Ok;
    BitmapIndex(g, q, b, bi);
  }

  /** Bit `b % BPB` as bfree addresses it. */
  lemma ClearedBit(g: Geometry, disk: seq<Block>, b: nat)
    requires Shaped(g, disk) && b < g.size
    ensures var bno, bi := b / BPB + g.ninodes / IPB + 3, b % BPB;
            && bno < g.DataStart()
            && (Marked(g, disk, b) <==> disk[bno][bi / 8] & Mask(bi % 8) != 0)
            && MarkPut(g, disk, b, false) == disk[bno := disk[bno][bi / 8 := disk[bno][bi / 8] & !Mask(bi % 8)]]
  {
  }

  lemma StillMarked(g: Geometry, d0: seq<Block>, disk: seq<Block>, S: set<nat>, a: nat)
    requires Freed(g, d0, disk, S) && a < g.size && Marked(g, d0, a) && a !in S
    ensures Marked(g, disk, a)
  {
  }

  lemma NothingHeld(owner: map<nat, Place>, i: nat)
    ensures Held(owner, i, 0) == {}
  {
  }

  lemma SkippedSlot(owner: map<nat, Place>, i: nat)
    ensures Held(owner, i, NDIRECT + 1) == Held(owner, i, NDIRECT)
  {
  }

  /** The indirect block is intact while the direct blocks are freed. */
  lemma UnheldKept(g: Geometry, d0: seq<Block>, disk: seq<Block>, owner: map<nat, Place>, i: nat, x: nat)
    requires Freed(g, d0, disk, Held(owner, i, NDIRECT)) && g.DataStart() <= x < g.size
    requires x in owner && owner[x] == Place(i, NDIRECT)
    ensures disk[x] == d0[x]
  {
  }

  lemma FullMeansMarked(g: Geometry, disk: seq<Block>, inodes: seq<Inode>, owner: map<nat, Place>)
    requires Owned(g, disk, inodes, owner) && DiskFull(g, owner)
    ensures forall b :: 0 <= b < g.size ==> Marked(g, disk, b)
  {
  }

  /** Writing back the word that is there changes nothing. */
  lemma SamePut(blk: Block, j: nat)
    requires j < NINDIRECT && Word(blk, j) == 0
    ensures WordPut(blk, j, 0) == blk
  {
  }

  // ----- reading and writing

  /** `s` with `bytes` in place of what was at `off`. */
  function Put(s: seq<Byte>, off: nat, bytes: seq<Byte>): (t: seq<Byte>)
    requires off + |bytes| <= |s|
    ensures |t| == |s|
  {
    s[..off] + bytes + s[off + |bytes|..]
  }

  /** File contents `c` after `bytes` were written at `off`, extending it if need be. */
  function Overwritten(c: seq<Byte>, off: nat, bytes: seq<Byte>): seq<Byte>
    requires off <= |c|
  {
    c[..off] + bytes + if off + |bytes| < |c| then c[off + |bytes|..] else []
  }

  lemma ImageSlice(g: Geometry, disk: seq<Block>, ip: Inode, cap: nat, n: nat, lo: nat, hi: nat)
    requires Shaped(g, disk) && InodeShaped(g, ip) && n < cap <= MAXFILE && lo <= hi <= BSIZE
    ensures FileBlock(g, disk, ip, n)[lo..hi] == Image(g, disk, ip, cap)[n * BSIZE + lo..n * BSIZE + hi]
  {
  }

  /** Other blocks of file `i` keep their bytes when its n-th block becomes `blk`. */
  lemma DataWritten(g: Geometry, disk: seq<Block>, inodes: seq<Inode>, owner: map<nat, Place>, i: nat, n: nat,
      blk: Block)
    requires Owned(g, disk, inodes, owner) && i < g.ninodes && n < MAXFILE && FileAddr(g, disk, inodes[i], n) != 0
    ensures var a := FileAddr(g, disk, inodes[i], n);
            && g.DataStart() <= a < g.size && Owned(g, disk[a := blk], inodes, owner)
            && OthersKept(g, disk, inodes, owner, disk[a := blk], inodes, owner, i)
            && (forall m :: 0 <= m < MAXFILE ==>
               FileAddr(g, disk[a := blk], inodes[i], m) == FileAddr(g, disk, inodes[i], m))
            && (forall m :: 0 <= m < MAXFILE ==>
                  FileBlock(g, disk[a := blk], inodes[i], m) == if m == n then blk
                      else FileBlock(g, disk, inodes[i], m))
            && (forall cap :: HasBlocks(g, disk, inodes[i], cap) ==> HasBlocks(g, disk[a := blk], inodes[i], cap))
  {
    hide Marked;
    FileBlockIsOwned(g, disk, inodes, owner, i, n);
    var a := FileAddr(g, disk, inodes[i], n);
    var disk' := disk[a := blk];
    forall q | IsPlace(g, q)
      ensures At(g, disk', inodes, q) == At(g, disk, inodes, q)
    {
      if inodes[q.inum].addrs[NDIRECT] != 0 {
        IndirectIsOwned(g, disk, inodes, owner, q.inum);
      }
      SlotAddrFrame(g, disk, disk', inodes[q.inum], q.slot);
    }
    MarkedFrame(g, disk, disk');
    forall m | 0 <= m < MAXFILE
      ensures FileAddr(g, disk', inodes[i], m) == FileAddr(g, disk, inodes[i], m)
      ensures FileBlock(g, disk', inodes[i], m) == if m == n then blk else FileBlock(g, disk, inodes[i], m)
    {
      FileBlockIsOwned(g, disk, inodes, owner, i, m);
      assert At(g, disk', inodes, Place(i, SlotOf(m))) == At(g, disk, inodes, Place(i, SlotOf(m)));
    }
  }

  lemma ImageWritten(g: Geometry, disk: seq<Block>, ip: Inode, disk': seq<Block>, cap: nat, n: nat, o: nat,
      bytes: seq<Byte>)
    requires Shaped(g, disk) && Shaped(g, disk') && InodeShaped(g, ip) && n < cap <= MAXFILE && o + |bytes| <= BSIZE
    requires forall m :: 0 <= m < MAXFILE ==>
               FileBlock(g, disk', ip, m) == if m == n then Put(FileBlock(g, disk, ip, n), o, bytes)
                   else FileBlock(g, disk, ip, m)
    ensures Image(g, disk', ip, cap) == Put(Image(g, disk, ip, cap), n * BSIZE + o, bytes)
  {
    hide FileBlock, InodeShaped, Shaped;
  }

  lemma FileBlockIsData(g: Geometry, disk: seq<Block>, inodes: seq<Inode>, owner: map<nat, Place>, i: nat, n: nat)
    requires Owned(g, disk, inodes, owner) && i < g.ninodes && n < MAXFILE
    ensures FileAddr(g, disk, inodes[i], n) < |disk|
        && disk[FileAddr(g, disk, inodes[i], n)] == FileBlock(g, disk, inodes[i], n)
  {
    FileBlockIsOwned(g, disk, inodes, owner, i, n);
  }

  lemma SliceJoin(s: seq<Byte>, a: nat, b: nat, c: nat)
    requires a <= b <= c <= |s|
    ensures s[a..b] + s[b..c] == s[a..c]
  {
  }

  lemma SliceOfPrefix(s: seq<Byte>, p: nat, a: nat, b: nat)
    requires a <= b <= p <= |s|
    ensures s[..p][a..b] == s[a..b]
  {
  }

  /** Writing `a` and then `b` after it, the second time with room for `k` more bytes. */
  lemma PutAfterPut(s: seq<Byte>, j: nat, k: nat, off: nat, a: seq<Byte>, b: seq<Byte>)
    requires off + |a| <= |s| + j && off + |a| + |b| <= |s| + j + k
    ensures Put(Put(s + Zeros(j), off, a) + Zeros(k), off + |a|, b) == Put(s + Zeros(j + k), off, a + b)
  {
  }

  /** What a file's image says of its contents once the size is brought up to date. */
  lemma ImageToContent(image: seq<Byte>, size: nat, extra: nat, off: nat, bytes: seq<Byte>)
    requires off <= size <= |image| && off + |bytes| <= |image| + extra
    requires forall k :: size <= k < |image| ==> image[k] == 0
    ensures var image', size' := Put(image + Zeros(extra), off, bytes), if off + |bytes| > size then off + |bytes|
        else size;
            && image'[..size'] == Overwritten(image[..size], off, bytes)
            && forall k :: size' <= k < |image'| ==> image'[k] == 0
  {
  }

  lemma OtherFileKept(g: Geometry, disk: seq<Block>, inodes: seq<Inode>, owner: map<nat, Place>,
                      disk': seq<Block>, inodes': seq<Inode>, owner': map<nat, Place>, i: nat, j: nat)
    requires Owned(g, disk, inodes, owner) && Shaped(g, disk') && TableShaped(g, inodes')
    requires OthersKept(g, disk, inodes, owner, disk', inodes', owner', i)
    requires j < g.ninodes && j != i && FileOk(g, disk, inodes[j])
    ensures FileOk(g, disk', inodes'[j]) && Content(g, disk', inodes'[j]) == Content(g, disk, inodes[j])
  {
    if inodes[j].addrs[NDIRECT] != 0 {
      IndirectIsOwned(g, disk, inodes, owner, j);
    }
    forall n | 0 <= n < MAXFILE
      ensures FileAddr(g, disk', inodes'[j], n) == FileAddr(g, disk, inodes[j], n)
    {
      SlotAddrFrame(g, disk, disk', inodes[j], SlotOf(n));
    }
    OwnedBlocksAreData(g, disk, inodes, owner);
    FileFrame(g, disk, inodes, owner, j, disk', inodes'[j], BlocksFor(inodes[j].size));
  }

  /** Everything but file `i` is as it was: contents, sizes, links and the rest. */
  ghost predicate OtherFilesSame(g: Geometry, disk: seq<Block>, inodes: seq<Inode>, disk': seq<Block>,
      inodes': seq<Inode>, i: nat)
    requires Shaped(g, disk) && TableShaped(g, inodes) && Shaped(g, disk') && TableShaped(g, inodes')
    requires FilesOk(g, disk, inodes) && FilesOk(g, disk', inodes')
  {
    forall j :: 0 <= j < g.ninodes && j != i ==>
      inodes'[j] == inodes[j] && Content(g, disk', inodes'[j]) == Content(g, disk, inodes[j])
  }

  lemma OtherFilesKept(g: Geometry, disk: seq<Block>, inodes: seq<Inode>, owner: map<nat, Place>,
                       disk': seq<Block>, inodes': seq<Inode>, owner': map<nat, Place>, i: nat)
    requires Owned(g, disk, inodes, owner) && Shaped(g, disk') && TableShaped(g, inodes')
    requires OthersKept(g, disk, inodes, owner, disk', inodes', owner', i)
    requires FilesOk(g, disk, inodes) && i < g.ninodes && FileOk(g, disk', inodes'[i])
    ensures FilesOk(g, disk', inodes') && OtherFilesSame(g, disk, inodes, disk', inodes', i)
  {
    hide FileOk, Content, SlotAddr, AddressesOwned, OwnersHold, BitmapExact, FreeBlocksZero, InodeShaped;
    forall j | 0 <= j < g.ninodes
      ensures FileOk(g, disk', inodes'[j])
    {
      if j != i {
        OtherFileKept(g, disk, inodes, owner, disk', inodes', owner', i, j);
      }
    }
    forall j | 0 <= j < g.ninodes && j != i
      ensures inodes'[j] == inodes[j] && Content(g, disk', inodes'[j]) == Content(g, disk, inodes[j])
    {
      OtherFileKept(g, disk, inodes, owner, disk', inodes', owner', i, j);
    }
  }

  /** The argument check of readi and writei, with 32-bit wrap-around. */
  predicate Misplaced(size: nat, off: nat, n: nat) {
    off > size || off + n >= TWO_32
  }

  /** How much of a write the maximal file size leaves room for. */
  function WriteRoom(off: nat, n: nat): int {
    if off + n > MAXFILE * BSIZE then MAXFILE * BSIZE - off else n
  }

  /** The limits in numbers: nothing past the end of a file, no sum of 32 bits, and 140 blocks. */
  lemma WriteLimits(size: nat, off: nat, n: nat)
    ensures Misplaced(size, off, n) <==> off > size || off + n >= 0x1_0000_0000
    ensures WriteRoom(off, n) == if off + n <= 140 * 512 then n else 140 * 512 - off
  {
  }

  lemma NothingPut(s: seq<Byte>, off: nat)
    requires off <= |s|
    ensures Put(s + Zeros(0), off, []) == s
  {
  }

  /** The blocks of a file of `size` bytes written up to `pos`. */
  function MaxBlocks(size: nat, pos: nat): nat {
    if BlocksFor(pos) > BlocksFor(size) then BlocksFor(pos) else BlocksFor(size)
  }

  /** The block count after `m` more bytes, within one block, at `pos`. */
  lemma ChunkBlocks(size: nat, cap: nat, pos: nat, m: nat)
    requires cap == MaxBlocks(size, pos) && 0 < m <= BSIZE - pos % BSIZE
    ensures MaxBlocks(size, pos + m) == if pos / BSIZE == cap then cap + 1 else cap
  {
  }

  /** What writing `ip` up to byte `end` takes from the free blocks. */
  function WriteCost(ip: Inode, end: nat): nat
    requires |ip.addrs| == NDIRECT + 1
  {
    Cost(ip, BlocksFor(ip.size), MaxBlocks(ip.size, end))
  }

  lemma NothingSpent(g: Geometry, ip: Inode, owner: map<nat, Place>, cap: nat)
    requires |ip.addrs| == NDIRECT + 1
    ensures Spent(g, ip, owner, ip, owner, cap, cap)
  {
  }

  /** What the blocks written so far mean for the next chunk. */
  lemma ChunkReady(g: Geometry, d0: seq<Block>, ip0: Inode, disk: seq<Block>, ip: Inode, cap: nat, off: nat,
                   bytes: seq<Byte>, left: nat)
    requires BlocksWritten(g, d0, ip0, disk, ip, cap, off, bytes) && off <= ip0.size
    requires 0 < left && off + |bytes| + left <= MAXFILE * BSIZE
    ensures Shaped(g, disk) && InodeShaped(g, ip) && HasBlocks(g, disk, ip, cap)
    ensures (off + |bytes|) / BSIZE <= cap && (off + |bytes|) / BSIZE < MAXFILE
    ensures cap == MaxBlocks(ip0.size, off + |bytes|)
  {
    hide HasBlocks, Image, Put;
  }

  /** A write that finds no block stops at the end of the blocks the file has. */
  lemma StopsAtEnd(size: nat, cap: nat, pos: nat)
    requires cap == MaxBlocks(size, pos) && pos / BSIZE == cap
    ensures pos % BSIZE == 0 && pos >= size
  {
  }

  lemma BlocksStay(g: Geometry, d0: seq<Block>, ip0: Inode, d1: seq<Block>, ip1: Inode, d2: seq<Block>, ip2: Inode,
                   cap: nat, off: nat, bytes: seq<Byte>)
    requires BlocksWritten(g, d0, ip0, d1, ip1, cap, off, bytes)
    requires Shaped(g, d2) && InodeShaped(g, ip2) && ip2 == ip1.(addrs := ip2.addrs) && HasBlocks(g, d2, ip2, cap)
    requires Image(g, d2, ip2, cap) == Image(g, d1, ip1, cap)
    ensures BlocksWritten(g, d0, ip0, d2, ip2, cap, off, bytes)
  {
  }

  lemma NothingWritten(g: Geometry, disk: seq<Block>, ip: Inode, off: nat)
    requires Shaped(g, disk) && InodeShaped(g, ip) && FileOk(g, disk, ip) && off <= ip.size
    ensures BlocksWritten(g, disk, ip, disk, ip, BlocksFor(ip.size), off, [])
  {
    hide Image;
    FileFits(g, disk, ip);
    NothingPut(Image(g, disk, ip, BlocksFor(ip.size)), off);
  }

  lemma WrittenMeans(g: Geometry, d0: seq<Block>, ip0: Inode, disk: seq<Block>, ip: Inode, cap: nat, off: nat,
                     bytes: seq<Byte>)
    requires BlocksWritten(g, d0, ip0, disk, ip, cap, off, bytes)
    ensures cap == MaxBlocks(ip0.size, off + |bytes|)
  {
  }

  lemma AllSpent(g: Geometry, ip0: Inode, owner0: map<nat, Place>, ip: Inode, owner: map<nat, Place>, cap: nat,
                 end: nat)
    requires Spent(g, ip0, owner0, ip, owner, BlocksFor(ip0.size), cap) && cap == MaxBlocks(ip0.size, end)
    ensures FreeBlocks(g, owner) + WriteCost(ip0, end) == FreeBlocks(g, owner0)
  {
    hide FreeBlocks;
  }

  lemma BlocksToCome(size: nat, cap: nat, pos: nat, end: nat)
    requires cap == MaxBlocks(size, pos) && pos / BSIZE == cap && pos < end
    ensures cap < MaxBlocks(size, end)
  {
  }

  /** The file's image is the old one, extended by zeros to `cap` blocks, with `bytes` at `off`. */
  ghost predicate BlocksWritten(g: Geometry, d0: seq<Block>, ip0: Inode, disk: seq<Block>, ip: Inode,
                                cap: nat, off: nat, bytes: seq<Byte>)
  {
    var cap0 := BlocksFor(ip0.size);
    && Shaped(g, d0) && InodeShaped(g, ip0) && Shaped(g, disk) && InodeShaped(g, ip)
    && ip == ip0.(addrs := ip.addrs)
    && cap == MaxBlocks(ip0.size, off + |bytes|) <= MAXFILE
    && HasBlocks(g, disk, ip, cap)
    && Image(g, disk, ip, cap) == Put(Image(g, d0, ip0, cap0) + Zeros((cap - cap0) * BSIZE), off, bytes)
  }

  /** One more chunk, where the blocks written so far end. */
  lemma ChunkAfterBlocks(g: Geometry, d0: seq<Block>, ip0: Inode, d1: seq<Block>, ip1: Inode, d2: seq<Block>,
                         ip2: Inode, cap: nat, cap': nat, off: nat, a: seq<Byte>, b: seq<Byte>)
    requires Shaped(g, d0) && InodeShaped(g, ip0) && FileOk(g, d0, ip0) && off <= ip0.size
    requires BlocksWritten(g, d0, ip0, d1, ip1, cap, off, a) && 0 < |b| <= BSIZE - (off + |a|) % BSIZE
    requires Shaped(g, d2) && InodeShaped(g, ip2) && ip2 == ip1.(addrs := ip2.addrs) && HasBlocks(g, d2, ip2, cap')
    requires cap' == if (off + |a|) / BSIZE == cap then cap + 1 else cap
    requires Image(g, d2, ip2, cap') == Put(Image(g, d1, ip1, cap) + Zeros((cap' - cap) * BSIZE), off + |a|, b)
    ensures BlocksWritten(g, d0, ip0, d2, ip2, cap', off, a + b)
  {
    hide FileAddr, Image, Put, MaxBlocks;
    var cap0 := BlocksFor(ip0.size);
    FileFits(g, d0, ip0);
    ChunkBlocks(ip0.size, cap, off + |a|, |b|);
    ChunkFits(ip0.size, cap, off + |a|, |b|);
    assert (cap - cap0) * BSIZE + (cap' - cap) * BSIZE == (cap' - cap0) * BSIZE;
    PutAfterPut(Image(g, d0, ip0, cap0), (cap - cap0) * BSIZE, (cap' - cap) * BSIZE, off, a, b);
  }

  lemma ChunkFits(size: nat, cap: nat, pos: nat, m: nat)
    requires cap == MaxBlocks(size, pos) && 0 < m <= BSIZE - pos % BSIZE
    ensures BlocksFor(size) <= cap && pos <= cap * BSIZE && pos + m <= MaxBlocks(size, pos + m) * BSIZE
  {
  }

  lemma NothingChanged(g: Geometry, disk: seq<Block>, inodes: seq<Inode>, owner: map<nat, Place>, i: nat)
    requires Owned(g, disk, inodes, owner)
    ensures OthersKept(g, disk, inodes, owner, disk, inodes, owner, i)
    ensures FilesOk(g, disk, inodes) ==> OtherFilesSame(g, disk, inodes, disk, inodes, i)
  {
  }

  lemma FileFits(g: Geometry, disk: seq<Block>, ip: Inode)
    requires Shaped(g, disk) && InodeShaped(g, ip) && FileOk(g, disk, ip)
    ensures BlocksFor(ip.size) <= MAXFILE && HasBlocks(g, disk, ip, BlocksFor(ip.size))
  {
  }

  /** A write of `bytes` at `off` has reached the blocks of file `i`; once the size is
      brought up to date the contents are what they should be. */
  lemma WriteDone(g: Geometry, d0: seq<Block>, n0: seq<Inode>, o0: map<nat, Place>,
                  disk: seq<Block>, inodes: seq<Inode>, owner: map<nat, Place>, i: nat, off: nat, bytes: seq<Byte>,
                  cap: nat, size: nat, inodes': seq<Inode>)
    requires Owned(g, d0, n0, o0) && FilesOk(g, d0, n0) && Owned(g, disk, inodes, owner)
    requires OthersKept(g, d0, n0, o0, disk, inodes, owner, i)
    requires i < g.ninodes && n0[i].typ != 0 && off <= n0[i].size
    requires BlocksWritten(g, d0, n0[i], disk, inodes[i], cap, off, bytes)
    requires size == if off + |bytes| > n0[i].size then off + |bytes| else n0[i].size
    requires TableShaped(g, inodes') && inodes' == inodes[i := inodes[i].(size := size)]
    ensures Owned(g, disk, inodes', owner) && FilesOk(g, disk, inodes')
    ensures OtherFilesSame(g, d0, n0, disk, inodes', i)
    ensures Content(g, disk, inodes'[i]) == Overwritten(Content(g, d0, n0[i]), off, bytes)
  {
    hide AddressesOwned, OwnersHold, BitmapExact, FreeBlocksZero, Image, FileAddr, Put, HasBlocks, InodeShaped;
    var cap0 := BlocksFor(n0[i].size);
    SizeIsFree(g, disk, inodes[i], size, cap);
    ResizedOwned(g, disk, inodes, owner, i, size);
    ImageToContent(Image(g, d0, n0[i], cap0), n0[i].size, (cap - cap0) * BSIZE, off, bytes);
    OtherFilesKept(g, d0, n0, o0, disk, inodes', owner, i);
  }

  lemma NoMoreZeros(s: seq<Byte>)
    ensures s + Zeros(0) == s
  {
  }

  lemma SizeIsFree(g: Geometry, disk: seq<Block>, ip: Inode, size: nat, cap: nat)
    requires Shaped(g, disk) && InodeShaped(g, ip) && HasBlocks(g, disk, ip, cap)
    ensures HasBlocks(g, disk, ip.(size := size), cap)
    ensures Image(g, disk, ip.(size := size), cap) == Image(g, disk, ip, cap)
  {
    assert forall n :: 0 <= n < MAXFILE ==> FileAddr(g, disk, ip.(size := size), n) == FileAddr(g, disk, ip, n);
  }

  lemma ResizedOwned(g: Geometry, disk: seq<Block>, inodes: seq<Inode>, owner: map<nat, Place>, i: nat, size: nat)
    requires Owned(g, disk, inodes, owner) && i < g.ninodes
    ensures Owned(g, disk, inodes[i := inodes[i].(size := size)], owner)
  {
    hide Marked;
    var inodes' := inodes[i := inodes[i].(size := size)];
    forall q | IsPlace(g, q)
      ensures At(g, disk, inodes', q) == At(g, disk, inodes, q)
    {
    }
  }

  function FreeInode(): Inode {
    Inode(0, 0, 0, 0, 0, seq(NDIRECT + 1, _ => 0))
  }

  lemma NothingMarked(g: Geometry, disk: seq<Block>)
    requires Shaped(g, disk) && forall b :: 0 <= b < g.size ==> disk[b] == ZERO_BLOCK
    ensures forall b :: 0 <= b < g.size ==> !Marked(g, disk, b)
  {
  }

  /** Changing what an inode says beside its blocks and size leaves the volume sound. */
  lemma Relabelled(g: Geometry, disk: seq<Block>, inodes: seq<Inode>, owner: map<nat, Place>, i: nat, ip: Inode)
    requires Owned(g, disk, inodes, owner) && FilesOk(g, disk, inodes) && i < g.ninodes
    requires ip.size == inodes[i].size && ip.addrs == inodes[i].addrs
    requires ip.typ == 0 ==> ip.size == 0 && forall k :: 0 <= k <= NDIRECT ==> ip.addrs[k] == 0
    ensures Owned(g, disk, inodes[i := ip], owner) && FilesOk(g, disk, inodes[i := ip])
    ensures OtherFilesSame(g, disk, inodes, disk, inodes[i := ip], i)
    ensures Content(g, disk, ip) == Content(g, disk, inodes[i])
  {
    hide Marked;
    var inodes' := inodes[i := ip];
    forall q | IsPlace(g, q)
      ensures At(g, disk, inodes', q) == At(g, disk, inodes, q)
    {
    }
    assert forall n :: 0 <= n < MAXFILE ==> FileAddr(g, disk, ip, n) == FileAddr(g, disk, inodes[i], n);
    assert Image(g, disk, ip, BlocksFor(ip.size)) == Image(g, disk, inodes[i], BlocksFor(ip.size)) by {
      assert FileOk(g, disk, inodes[i]);
    }
    assert FileOk(g, disk, ip);
  }

  const NDEV := 10

  function DeviceAnswer(driver: map<int, int>, major: int): int {
    if 0 <= major < NDEV && major in driver then driver[major] else -1
  }

  // ----- freeing

  /** The blocks of `S` were zeroed and unmarked, one after the other. */
  ghost predicate Freed(g: Geometry, d0: seq<Block>, disk: seq<Block>, S: set<nat>) {
    && Shaped(g, d0) && Shaped(g, disk) && disk[0] == d0[0]
    && (forall b :: g.DataStart() <= b < g.size ==> disk[b] == if b in S then ZERO_BLOCK else d0[b])
    && (forall b :: 0 <= b < g.size ==> (Marked(g, disk, b) <==> Marked(g, d0, b) && b !in S))
  }

  lemma FreedOne(g: Geometry, disk: seq<Block>, b: nat)
    requires Shaped(g, disk) && g.DataStart() <= b < g.size && Marked(g, disk, b)
    ensures var d1 := disk[b := ZERO_BLOCK];
            Shaped(g, d1) && Marked(g, d1, b) && Freed(g, disk, MarkPut(g, d1, b, false), {b})
  {
    hide Marked, MarkPut;
    PlaceBounds(g);
    MarkedFrame(g, disk, disk[b := ZERO_BLOCK]);
    MarkingKeepsData(g, disk[b := ZERO_BLOCK], b, false);
  }

  lemma FreedMore(g: Geometry, d0: seq<Block>, d1: seq<Block>, d2: seq<Block>, S: set<nat>, b: nat)
    requires Freed(g, d0, d1, S) && Freed(g, d1, d2, {b})
    ensures Shaped(g, d2) && Freed(g, d0, d2, S + {b})
  {
  }

  lemma FreedNothing(g: Geometry, disk: seq<Block>)
    requires Shaped(g, disk)
    ensures Freed(g, disk, disk, {})
  {
  }

  /** All the blocks of inode `i` are freed and its addresses cleared. */
  lemma OwnerShrinks(g: Geometry, disk: seq<Block>, inodes: seq<Inode>, owner: map<nat, Place>, i: nat,
                     disk': seq<Block>, inodes': seq<Inode>, S: set<nat>)
    requires Owned(g, disk, inodes, owner) && TableShaped(g, inodes') && i < g.ninodes
    requires S == HeldBy(owner, i) && Freed(g, disk, disk', S)
    requires forall j :: 0 <= j < g.ninodes && j != i ==> inodes'[j] == inodes[j]
    requires forall k :: 0 <= k <= NDIRECT ==> inodes'[i].addrs[k] == 0
    ensures Owned(g, disk', inodes', owner - S)
    ensures OthersKept(g, disk, inodes, owner, disk', inodes', owner - S, i)
  {
    hide Marked, SlotAddr;
    OwnedBlocksAreData(g, disk, inodes, owner);
    forall q | IsPlace(g, q)
      ensures At(g, disk', inodes', q) == if q.inum == i then 0 else At(g, disk, inodes, q)
    {
      if q.inum == i {
        ClearedSlots(g, disk', inodes'[i], q.slot);
      } else {
        if inodes[q.inum].addrs[NDIRECT] != 0 {
          IndirectIsOwned(g, disk, inodes, owner, q.inum);
        }
        SlotAddrFrame(g, disk, disk', inodes[q.inum], q.slot);
      }
    }
    hide At;
  }

  lemma ClearedSlots(g: Geometry, disk: seq<Block>, ip: Inode, s: nat)
    requires Shaped(g, disk) && InodeShaped(g, ip) && s < SLOTS && forall k :: 0 <= k <= NDIRECT ==> ip.addrs[k] == 0
    ensures SlotAddr(g, disk, ip, s) == 0
  {
  }

  lemma EmptyFileOk(g: Geometry, disk: seq<Block>, ip: Inode)
    requires Shaped(g, disk) && InodeShaped(g, ip) && ip.size == 0 && forall k :: 0 <= k <= NDIRECT ==> ip.addrs[k] == 0
    ensures FileOk(g, disk, ip) && Content(g, disk, ip) == []
  {
  }

  /** The blocks in the slots of inode `i` below `hi`, the indirect block aside. */
  ghost function Held(owner: map<nat, Place>, i: nat, hi: nat): set<nat> {
    set a | a in owner && owner[a].inum == i && owner[a].slot != NDIRECT && owner[a].slot < hi
  }

  ghost function HeldBy(owner: map<nat, Place>, i: nat): set<nat> {
    set a | a in owner && owner[a].inum == i
  }

  /** The block in slot `s` of inode `i`, if any, is a marked block that no other slot holds. */
  lemma SlotHolder(g: Geometry, disk: seq<Block>, inodes: seq<Inode>, owner: map<nat, Place>, i: nat, s: nat)
    requires Owned(g, disk, inodes, owner) && i < g.ninodes && s < SLOTS
    ensures var a := SlotAddr(g, disk, inodes[i], s);
            && (a != 0 ==> a in owner && owner[a] == Place(i, s) && g.DataStart() <= a < g.size && Marked(g, disk, a))
            && (s != NDIRECT ==> Held(owner, i, s + 1) == Held(owner, i, s) + if a == 0 then {} else {a})
            && (s != NDIRECT && a != 0 ==> a !in Held(owner, i, s))
  {
    hide Marked;
    assert At(g, disk, inodes, Place(i, s)) == SlotAddr(g, disk, inodes[i], s);
    PlaceBounds(g);
  }

  /** Every block of inode `i` is in a data slot, or is its indirect block. */
  lemma HeldAltogether(g: Geometry, disk: seq<Block>, inodes: seq<Inode>, owner: map<nat, Place>, i: nat)
    requires Owned(g, disk, inodes, owner) && i < g.ninodes
    ensures var x := inodes[i].addrs[NDIRECT];
            if x == 0 then HeldBy(owner, i) == Held(owner, i, NDIRECT)
            else HeldBy(owner, i) == Held(owner, i, SLOTS) + {x} && x !in Held(owner, i, SLOTS)
  {
    SlotHolder(g, disk, inodes, owner, i, NDIRECT);
    forall a | a in owner && owner[a].inum == i
      ensures inodes[i].addrs[NDIRECT] == 0 ==> owner[a].slot < NDIRECT
      ensures owner[a].slot == NDIRECT ==> a == inodes[i].addrs[NDIRECT]
    {
      PlaceBounds(g);
      assert At(g, disk, inodes, owner[a]) == a;
    }
  }

  class Fs {
    const g: Geometry
    var disk: seq<Block>
    var inodes: seq<Inode>
    ghost var owner: map<nat, Place>

    /** A volume as mkfs lays it out: free inodes, zero blocks, and a bitmap that marks
        the blocks before the data. */
    constructor (geometry: Geometry)
      requires geometry.Ok()
      ensures Valid() && g == geometry && owner == map[] && FreeBlocks(g, owner) == g.size - g.DataStart()
      ensures forall i :: 0 <= i < g.ninodes ==> inodes[i] == FreeInode()
    {
      g := geometry;
      disk := seq(geometry.size, _ => ZERO_BLOCK);
      inodes := seq(geometry.ninodes, _ => FreeInode());
      owner := map[];
      new;
      hide Marked, MarkPut;
      PlaceBounds(g);
      NothingMarked(g, disk);
      var b := 0;
      while b < g.DataStart()
        invariant b <= g.DataStart() && Shaped(g, disk) && disk[0] == ZERO_BLOCK
        invariant inodes == seq(g.ninodes, _ => FreeInode()) && owner == map[] && g == geometry
        invariant forall c :: g.DataStart() <= c < g.size ==> disk[c] == ZERO_BLOCK
        invariant forall c :: 0 <= c < g.size ==> (Marked(g, disk, c) <==> c < b)
      {
        MarkingKeepsData(g, disk, b, true);
        disk := MarkPut(g, disk, b, true);
        b := b + 1;
      }
      assert FreeSet(g, owner) == Numbers(g.DataStart(), g.size);
      forall i: nat, s: nat | i < g.ninodes && s < SLOTS
        ensures SlotAddr(g, disk, inodes[i], s) == 0
      {
        ClearedSlots(g, disk, inodes[i], s);
      }
      forall i | 0 <= i < g.ninodes
        ensures FileOk(g, disk, inodes[i])
      {
        EmptyFileOk(g, disk, inodes[i]);
      }
    }

    /** The allocation state is sound; says nothing about file sizes. */
    ghost predicate Sound()
      reads this
    {
      Owned(g, disk, inodes, owner)
    }

    /** The inner loop of balloc: the first clear bit below `bound`. */
    static method FirstClear(bp: Block, bound: nat) returns (bi: nat)
      requires bound <= BPB
      ensures bi <= bound && (bi < bound ==> !BitIn(bp, bi))
      ensures forall c :: 0 <= c < bi ==> BitIn(bp, c)
    {
      bi := 0;
      while bi < bound
        invariant bi <= bound && forall c :: 0 <= c < bi ==> BitIn(bp, c)
      {
        var m := Mask(bi % 8);
        if bp[bi / 8] & m == 0 {
          return;
        }
        bi := bi + 1;
      }
    }

    /** Finds the first free block and marks it. */
    method Balloc() returns (r: nat)
      requires Shaped(g, disk) && Marked(g, disk, 0)
      modifies this`disk
      ensures Shaped(g, disk)
      ensures r == 0 ==> disk == old(disk) && forall b :: 0 <= b < g.size ==> Marked(g, disk, b)
      ensures r != 0 ==> r < g.size && !Marked(g, old(disk), r) && disk == MarkPut(g, old(disk), r, true)
      ensures r != 0 ==> forall b :: 0 <= b < r ==> Marked(g, old(disk), b)
    {
      hide Marked, MarkPut, BitIn, Mask, Geometry.Ok, Geometry.DataStart, Geometry.BitmapStart;
      var b := 0;
      ghost var q := 0;
      while b < g.size
        invariant b == BPB * q && disk == old(disk)
        invariant forall c :: 0 <= c < b && c < g.size ==> Marked(g, disk, c)
      {
        BitmapIndex(g, q, b, 0);
        if g.size < b + BPB {
          LastBound(g.size, q);
        }
        var bno := b / BPB + g.ninodes / IPB + 3;
        var bp := disk[bno];
        var bound := BPB;
        if b + BPB > g.size {
          bound := g.size % BPB;
        }
        var bi := FirstClear(bp, bound);
        forall c | b <= c < b + bi
          ensures Marked(g, disk, c)
        {
          BitOfBlock(g, disk, q, b, c - b);
        }
        if bi < bound {
          BitOfBlock(g, disk, q, b, bi);
          bp := bp[bi / 8 := bp[bi / 8] | Mask(bi % 8)];
          disk := disk[bno := bp];
          return b + bi;
        }
        b := b + BPB;
        q := q + 1;
      }
      return 0;
    }

    /** The address in slot `k` of the inode, with a new block there if the slot was empty. */
    method TakeAddress(i: nat, k: nat) returns (addr: nat)
      requires Sound() && i < g.ninodes && k <= NDIRECT
      modifies this
      ensures Sound() && addr == inodes[i].addrs[k]
      ensures addr == 0 ==> unchanged(this) && DiskFull(g, owner)
      ensures old(inodes[i].addrs[k]) != 0 ==> unchanged(this)
      ensures old(inodes[i].addrs[k]) == 0 && addr != 0 ==>
                Grew(g, old(disk), old(inodes), old(owner), disk, inodes, owner, Place(i, k), addr)
    {
      hide AddressesOwned, OwnersHold, Marked, MarkPut;
      addr := inodes[i].addrs[k];
      if addr == 0 {
        addr := Balloc();
        if addr != 0 {
          AddressTaken(g, old(disk), inodes, owner, i, k, addr);
          owner := owner[addr := Place(i, k)];
        }
        SameAddrPut(inodes, i, k);
        inodes := AddrPut(inodes, i, k, addr);
      }
    }

    /** The address in word `w` of the indirect block, with a new block there if it was empty. */
    method TakeWord(i: nat, w: nat) returns (addr: nat)
      requires Sound() && i < g.ninodes && w < NINDIRECT && inodes[i].addrs[NDIRECT] != 0
      modifies this
      ensures Sound() && addr == At(g, disk, inodes, Place(i, NDIRECT + 1 + w))
      ensures addr == 0 ==> unchanged(this) && DiskFull(g, owner)
      ensures At(g, old(disk), old(inodes), Place(i, NDIRECT + 1 + w)) != 0 ==> unchanged(this)
      ensures At(g, old(disk), old(inodes), Place(i, NDIRECT + 1 + w)) == 0 && addr != 0 ==>
                Grew(g, old(disk), old(inodes), old(owner), disk, inodes, owner, Place(i, NDIRECT + 1 + w), addr)
    {
      hide AddressesOwned, OwnersHold, Word, WordPut, Marked, MarkPut;
      var x := inodes[i].addrs[NDIRECT];
      IndirectIsOwned(g, disk, inodes, owner, i);
      var bp := disk[x];
      addr := Word(bp, w);
      if addr == 0 {
        addr := Balloc();
        SamePut(bp, w);
        bp := WordPut(bp, w, addr);
        disk := disk[x := bp];
        assert addr == 0 ==> disk == old(disk);
        if addr != 0 {
          WordTaken(g, old(disk), inodes, owner, i, w, addr, disk);
          owner := owner[addr := Place(i, NDIRECT + 1 + w)];
        }
      }
    }

    /** The address of block `n` of file `i`, allocated if it is the next one.  `cap` is
        the number of blocks the file has; callers never ask beyond it. */
    method Bmap(i: nat, n: nat, ghost cap: nat) returns (addr: nat)
      requires Sound() && i < g.ninodes && HasBlocks(g, disk, inodes[i], cap)
      requires n < MAXFILE && n <= cap
      modifies this
      ensures Sound() && OthersKept(g, old(disk), old(inodes), old(owner), disk, inodes, owner, i)
      ensures |inodes| == |old(inodes)| && inodes[i] == old(inodes)[i].(addrs := inodes[i].addrs)
      ensures addr == FileAddr(g, disk, inodes[i], n)
      ensures n < cap ==> addr != 0 && unchanged(this)
      ensures n == cap && addr == 0 ==>
                DiskFull(g, owner) && HasBlocks(g, disk, inodes[i], cap)
                && Image(g, disk, inodes[i], cap) == Image(g, old(disk), old(inodes)[i], cap)
      ensures n == cap && addr != 0 ==>
                HasBlocks(g, disk, inodes[i], cap + 1)
                && Image(g, disk, inodes[i], cap + 1) == Image(g, old(disk), old(inodes)[i], cap) + ZERO_BLOCK
      // the file gets its block exactly when there are enough free ones
      ensures n == cap ==>
                if addr == 0 then FreeBlocks(g, old(owner)) < Cost(old(inodes)[i], cap, cap + 1)
                else Spent(g, old(inodes)[i], old(owner), inodes[i], owner, cap, cap + 1)
    {
      hide AddressesOwned, OwnersHold, BitmapExact, Image, Grew, Word, WordPut, FreeBlocks, DiskFull;
      ghost var d0, n0, o0 := disk, inodes, owner;
      FullIsNoneFree(g, owner);
      assert n < cap <==> FileAddr(g, disk, inodes[i], n) != 0;
      if n < NDIRECT {
        addr := TakeAddress(i, n);
        if n0[i].addrs[n] == 0 && addr != 0 {
          FileGrew(g, d0, n0, o0, disk, inodes, owner, i, n, addr);
          GrewByOne(g, d0, n0, o0, disk, inodes, owner, Place(i, n), addr);
        }
        return;
      }
      addr := TakeAddress(i, NDIRECT);
      if addr == 0 {
        FullMeansMarked(g, disk, inodes, owner);
        // the buffer of block 0 is read, found empty, and written back as it was
        var bp := disk[0];
        ZeroWords(n - NDIRECT);
        if Word(bp, n - NDIRECT) == 0 {
          addr := Balloc();
          SamePut(bp, n - NDIRECT);
          bp := WordPut(bp, n - NDIRECT, addr);
          disk := disk[0 := bp];
        }
        assert disk == d0;
        return;
      }
      if n0[i].addrs[NDIRECT] == 0 {
        IndirectGrew(g, d0, n0, o0, disk, inodes, owner, i, addr, cap);
        GrewByOne(g, d0, n0, o0, disk, inodes, owner, Place(i, NDIRECT), addr);
      }
      FullIsNoneFree(g, owner);
      ghost var d1, n1, o1 := disk, inodes, owner;
      addr := TakeWord(i, n - NDIRECT);
      if At(g, d1, n1, Place(i, SlotOf(n))) == 0 && addr != 0 {
        FileGrew(g, d1, n1, o1, disk, inodes, owner, i, n, addr);
        GrewByOne(g, d1, n1, o1, disk, inodes, owner, Place(i, SlotOf(n)), addr);
      }
      KeptTwice(g, d0, n0, o0, d1, n1, o1, disk, inodes, owner, i);
    }

    /** The volume between system calls. */
    ghost predicate Valid()
      reads this
    {
      Sound() && FilesOk(g, disk, inodes)
    }

    /** The part of one block that a read at `pos` still wants. */
    method ReadChunk(i: nat, pos: nat, left: nat, ghost cap: nat) returns (chunk: seq<Byte>)
      requires Sound() && i < g.ninodes && HasBlocks(g, disk, inodes[i], cap)
      requires 0 < left && pos + left <= cap * BSIZE
      modifies this
      ensures unchanged(this)
      ensures 0 < |chunk| <= left && chunk == Image(g, disk, inodes[i], cap)[pos..pos + |chunk|]
    {
      hide AddressesOwned, OwnersHold, BitmapExact, FreeBlocksZero, Image, SlotAddr, FileBlock;
      var sector := Bmap(i, pos / BSIZE, cap);
      if sector == 0 {
        assert false;       // the source panics here
      }
      FileBlockIsData(g, disk, inodes, owner, i, pos / BSIZE);
      var bp := disk[sector];
      var m := if left < BSIZE - pos % BSIZE then left else BSIZE - pos % BSIZE;
      ImageSlice(g, disk, inodes[i], cap, pos / BSIZE, pos % BSIZE, pos % BSIZE + m);
      chunk := bp[pos % BSIZE..pos % BSIZE + m];
    }

    /** Reads up to `n` bytes at `off`; `driver` holds the answers of the device drivers. */
    method Readi(i: nat, off: nat, n: nat, driver: map<int, int>) returns (r: int, dst: seq<Byte>)
      requires Valid() && i < g.ninodes && off < TWO_32 && n < TWO_32
      modifies this
      ensures unchanged(this)
      ensures inodes[i].typ == T_DEV ==> r == DeviceAnswer(driver, inodes[i].major) && dst == []
      ensures inodes[i].typ != T_DEV && Misplaced(inodes[i].size, off, n) ==> r == -1 && dst == []
      ensures inodes[i].typ != T_DEV && !Misplaced(inodes[i].size, off, n) ==>
                && r == (if off + n > inodes[i].size then inodes[i].size - off else n)
                && dst == Content(g, disk, inodes[i])[off..off + r]
    {
      hide AddressesOwned, OwnersHold, BitmapExact, FreeBlocksZero, Image, SlotAddr, FileAddr, HasBlocks, FileOk,
          Marked;
      FileFits(g, disk, inodes[i]);
      var ip := inodes[i];
      if ip.typ == T_DEV {
        r := CallDriver(driver, ip.major);
        return r, [];
      }
      if off > ip.size || (off + n) % TWO_32 < off {
        return -1, [];
      }
      var want := n;
      if off + want > ip.size {
        want := ip.size - off;
      }
      ghost var cap := BlocksFor(ip.size);
      ghost var image := Image(g, disk, ip, cap);
      var tot := 0;
      dst := [];
      while tot < want
        invariant unchanged(this) && 0 <= tot <= want
        invariant dst == image[off..off + tot]
      {
        var chunk := ReadChunk(i, off + tot, want - tot, cap);
        SliceJoin(image, off, off + tot, off + tot + |chunk|);
        dst := dst + chunk;
        tot := tot + |chunk|;
      }
      r := want;
      SliceOfPrefix(image, ip.size, off, off + r);
    }

    /** One block's part of a write at `pos`; 0 when the disk has no block for it. */
    method WriteChunk(i: nat, pos: nat, src: seq<Byte>, ghost cap: nat) returns (m: nat)
      requires Sound() && i < g.ninodes && HasBlocks(g, disk, inodes[i], cap)
      requires 0 < |src| && pos / BSIZE <= cap && pos / BSIZE < MAXFILE
      modifies this
      ensures Sound() && OthersKept(g, old(disk), old(inodes), old(owner), disk, inodes, owner, i)
      ensures |inodes| == |old(inodes)| && inodes[i] == old(inodes)[i].(addrs := inodes[i].addrs)
      ensures m == 0 ==>
                && pos / BSIZE == cap && DiskFull(g, owner) && HasBlocks(g, disk, inodes[i], cap)
                && Image(g, disk, inodes[i], cap) == Image(g, old(disk), old(inodes)[i], cap)
      ensures m > 0 ==>
                && m == (if |src| < BSIZE - pos % BSIZE then |src| else BSIZE - pos % BSIZE)
                && var cap' := if pos / BSIZE == cap then cap + 1 else cap;
                && HasBlocks(g, disk, inodes[i], cap')
                && Image(g, disk, inodes[i], cap') ==
                   Put(Image(g, old(disk), old(inodes)[i], cap) + Zeros((cap' - cap) * BSIZE), pos, src[..m])
      ensures if m == 0 then FreeBlocks(g, old(owner)) < Cost(old(inodes)[i], cap, cap + 1)
              else Spent(g, old(inodes)[i], old(owner), inodes[i], owner, cap, if pos / BSIZE == cap then cap + 1
                  else cap)
    {
      hide AddressesOwned, OwnersHold, BitmapExact, FreeBlocksZero, Image, SlotAddr, FileBlock, Put, FreeBlocks;
      ghost var d0, n0, o0 := disk, inodes, owner;
      var sector := Bmap(i, pos / BSIZE, cap);
      if sector == 0 {
        return 0;
      }
      ghost var cap' := if pos / BSIZE == cap then cap + 1 else cap;
      ghost var d1, n1, o1 := disk, inodes, owner;
      NoMoreZeros(Image(g, d0, n0[i], cap));
      FileBlockIsData(g, disk, inodes, owner, i, pos / BSIZE);
      var bp := disk[sector];
      m := if |src| < BSIZE - pos % BSIZE then |src| else BSIZE - pos % BSIZE;
      var changed: Block := Put(bp, pos % BSIZE, src[..m]);
      DataWritten(g, disk, inodes, owner, i, pos / BSIZE, changed);
      disk := disk[sector := changed];
      ImageWritten(g, d1, inodes[i], disk, cap', pos / BSIZE, pos % BSIZE, src[..m]);
      KeptTwice(g, d0, n0, o0, d1, n1, o1, disk, inodes, owner, i);
    }

    /** The loop of writei: puts as much of `src` as the disk has blocks for. */
    method WriteBlocks(i: nat, src: seq<Byte>, off: nat) returns (tot: nat, ghost cap: nat)
      requires Sound() && i < g.ninodes && FileOk(g, disk, inodes[i])
      requires off <= inodes[i].size && off + |src| <= MAXFILE * BSIZE
      modifies this
      ensures Sound() && tot <= |src|
      ensures OthersKept(g, old(disk), old(inodes), old(owner), disk, inodes, owner, i)
      ensures BlocksWritten(g, old(disk), old(inodes)[i], disk, inodes[i], cap, off, src[..tot])
      ensures tot < |src| ==> DiskFull(g, owner) && (off + tot) % BSIZE == 0 && off + tot >= old(inodes)[i].size
      ensures tot < |src| <==> FreeBlocks(g, old(owner)) < WriteCost(old(inodes)[i], off + |src|)
      ensures tot == |src| ==>
                FreeBlocks(g, owner) + WriteCost(old(inodes)[i], off + |src|) == FreeBlocks(g, old(owner))
    {
      hide AddressesOwned, OwnersHold, BitmapExact, FreeBlocksZero, Image, SlotAddr, FileAddr, Put, OthersKept,
           HasBlocks, FreeBlocks, Cost, Spent, BlocksWritten, MaxBlocks, BlocksFor, DiskFull, Marked;
      ghost var d0, n0, o0 := disk, inodes, owner;
      NothingSpent(g, inodes[i], owner, BlocksFor(inodes[i].size));
      NothingWritten(g, disk, inodes[i], off);
      NothingChanged(g, disk, inodes, owner, i);
      cap := BlocksFor(inodes[i].size);
      tot := 0;
      assert src[..tot] == [];
      while tot < |src|
        invariant Sound() && OthersKept(g, d0, n0, o0, disk, inodes, owner, i)
        invariant tot <= |src| && BlocksWritten(g, d0, n0[i], disk, inodes[i], cap, off, src[..tot])
        invariant Spent(g, n0[i], o0, inodes[i], owner, BlocksFor(n0[i].size), cap)
      {
        ghost var d1, n1, o1 := disk, inodes, owner;
        ChunkReady(g, d0, n0[i], disk, inodes[i], cap, off, src[..tot], |src| - tot);
        var m := WriteChunk(i, off + tot, src[tot..], cap);
        KeptTwice(g, d0, n0, o0, d1, n1, o1, disk, inodes, owner, i);
        if m == 0 {
          StopsAtEnd(n0[i].size, cap, off + tot);
          BlocksStay(g, d0, n0[i], d1, n1[i], disk, inodes[i], cap, off, src[..tot]);
          BlocksToCome(n0[i].size, cap, off + tot, off + |src|);
          CannotAfford(g, n0[i], o0, n1[i], o1, BlocksFor(n0[i].size), cap, MaxBlocks(n0[i].size, off + |src|));
          return;
        }
        ghost var cap' := if (off + tot) / BSIZE == cap then cap + 1 else cap;
        assert src[..tot] + src[tot..][..m] == src[..tot + m];
        ChunkAfterBlocks(g, d0, n0[i], d1, n1[i], disk, inodes[i], cap, cap', off, src[..tot], src[tot..][..m]);
        SpentTwice(g, n0[i], o0, n1[i], o1, inodes[i], owner, BlocksFor(n0[i].size), cap, cap');
        cap := cap';
        tot := tot + m;
      }
      assert src[..tot] == src;
      WrittenMeans(g, d0, n0[i], disk, inodes[i], cap, off, src);
      AllSpent(g, n0[i], o0, inodes[i], owner, cap, off + |src|);
    }

    /** Writes `src` at `off`, as much of it as the file and the disk have room for. */
    method Writei(i: nat, src: seq<Byte>, off: nat, driver: map<int, int>) returns (r: int)
      requires Valid() && i < g.ninodes && inodes[i].typ != 0 && off < TWO_32 && |src| < TWO_32
      modifies this
      ensures Valid() && OtherFilesSame(g, old(disk), old(inodes), disk, inodes, i)
      ensures inodes[i] == old(inodes)[i].(addrs := inodes[i].addrs, size := inodes[i].size)
      ensures inodes[i].typ == T_DEV ==> r == DeviceAnswer(driver, inodes[i].major) && unchanged(this)
      ensures inodes[i].typ != T_DEV && Misplaced(old(inodes)[i].size, off, |src|) ==> r == -1 && unchanged(this)
      ensures inodes[i].typ != T_DEV && !Misplaced(old(inodes)[i].size, off, |src|) ==>
                && 0 <= r <= WriteRoom(off, |src|)
                && Content(g, disk, inodes[i]) == Overwritten(Content(g, old(disk), old(inodes)[i]), off, src[..r])
                // a short count means a full disk, at the end of the blocks the file has
                && (r < WriteRoom(off, |src|) ==>
                      DiskFull(g, owner) && (off + r) % BSIZE == 0 && off + r >= old(inodes)[i].size)
                // and it is short exactly when the free blocks do not suffice
                && (r < WriteRoom(off, |src|) <==>
                      FreeBlocks(g, old(owner)) < WriteCost(old(inodes)[i], off + WriteRoom(off, |src|)))
                && (r == WriteRoom(off, |src|) ==>
                      FreeBlocks(g, owner) + WriteCost(old(inodes)[i], off + r) == FreeBlocks(g, old(owner)))
    {
      hide AddressesOwned, OwnersHold, BitmapExact, FreeBlocksZero, Image, FileAddr, Put, Content, OthersKept,
           OtherFilesSame, HasBlocks, FileOk, FreeBlocks, WriteCost, DiskFull, Marked, Overwritten,
           Geometry.Ok, Geometry.DataStart;
      ghost var d0, n0, o0 := disk, inodes, owner;
      var ip := inodes[i];
      NothingChanged(g, disk, inodes, owner, i);
      if ip.typ == T_DEV {
        r := CallDriver(driver, ip.major);
        return;
      }
      if off > ip.size || (off + |src|) % TWO_32 < off {
        return -1;
      }
      var want := |src|;
      FileFits(g, disk, ip);
      if off + want > MAXFILE * BSIZE {
        want := MAXFILE * BSIZE - off;
      }
      var tot, cap := WriteBlocks(i, src[..want], off);
      assert src[..want][..tot] == src[..tot];
      r := tot;
      ghost var size := if off + tot > ip.size then off + tot else ip.size;
      WriteDone(g, d0, n0, o0, disk, inodes, owner, i, off, src[..tot], cap, size,
          inodes[i := inodes[i].(size := size)]);
      if tot > 0 && off + tot > inodes[i].size {
        inodes := inodes[i := inodes[i].(size := off + tot)];
      } else {
        assert inodes[i := inodes[i].(size := ip.size)] == inodes;
      }
    }

    /** Zeroes block `b` and clears its bit. */
    method Bfree(b: nat)
      requires Shaped(g, disk) && g.DataStart() <= b < g.size && Marked(g, disk, b)
      modifies this`disk
      ensures Shaped(g, disk) && Freed(g, old(disk), disk, {b})
    {
      hide Marked, MarkPut, BitIn, Mask, Freed;
      FreedOne(g, disk, b);
      disk := disk[b := ZERO_BLOCK];
      ClearedBit(g, disk, b);
      var bno := b / BPB + g.ninodes / IPB + 3;
      var bp := disk[bno];
      var bi := b % BPB;
      var m := Mask(bi % 8);
      if bp[bi / 8] & m == 0 {
        assert false;         // "freeing free block"
      }
      bp := bp[bi / 8 := bp[bi / 8] & !m];
      disk := disk[bno := bp];
    }

    /** Frees a block in the middle of a truncation that began on disk `d0`. */
    method FreeNext(b: nat, ghost d0: seq<Block>, ghost S: set<nat>)
      requires Shaped(g, d0) && Shaped(g, disk) && Freed(g, d0, disk, S)
      requires g.DataStart() <= b < g.size && Marked(g, d0, b) && b !in S
      modifies this`disk
      ensures Shaped(g, disk) && Freed(g, d0, disk, S + {b})
    {
      hide Marked, Freed;
      ghost var d1 := disk;
      StillMarked(g, d0, disk, S, b);
      Bfree(b);
      FreedMore(g, d0, d1, disk, S, b);
    }

    /** Frees the direct blocks. */
    method FreeDirect(i: nat)
      requires Sound() && i < g.ninodes
      modifies this`disk, this`inodes
      ensures Shaped(g, disk) && Freed(g, old(disk), disk, Held(owner, i, NDIRECT))
      ensures TableShaped(g, inodes) && inodes == old(inodes)[i := inodes[i]]
      ensures inodes[i] == old(inodes)[i].(addrs := inodes[i].addrs)
      ensures forall k :: 0 <= k <= NDIRECT ==> inodes[i].addrs[k] == if k < NDIRECT then 0 else old(inodes)[i].addrs[k]
    {
      hide AddressesOwned, OwnersHold, BitmapExact, FreeBlocksZero, Freed, Held, Marked;
      ghost var d0, n0 := disk, inodes;
      FreedNothing(g, disk);
      NothingHeld(owner, i);
      for k := 0 to NDIRECT
        invariant Shaped(g, disk) && TableShaped(g, inodes) && Freed(g, d0, disk, Held(owner, i, k))
        invariant inodes == n0[i := inodes[i]] && inodes[i] == n0[i].(addrs := inodes[i].addrs)
        invariant forall j :: 0 <= j <= NDIRECT ==> inodes[i].addrs[j] == if j < k then 0 else n0[i].addrs[j]
      {
        SlotHolder(g, d0, n0, owner, i, k);
        if inodes[i].addrs[k] != 0 {
          FreeNext(inodes[i].addrs[k], d0, Held(owner, i, k));
          inodes := AddrPut(inodes, i, k, 0);
        } else {
          assert Held(owner, i, k) + {} == Held(owner, i, k);
        }
      }
    }

    /** Frees the blocks named in the indirect block, then that block. */
    method FreeIndirect(i: nat, ghost d0: seq<Block>, ghost n0: seq<Inode>)
      requires i < g.ninodes && Owned(g, d0, n0, owner) && TableShaped(g, inodes)
      requires Shaped(g, disk) && Freed(g, d0, disk, Held(owner, i, NDIRECT))
      requires inodes[i].addrs[NDIRECT] == n0[i].addrs[NDIRECT]
      modifies this`disk, this`inodes
      ensures Shaped(g, disk) && Freed(g, d0, disk, HeldBy(owner, i)) && TableShaped(g, inodes)
      ensures inodes == AddrPut(old(inodes), i, NDIRECT, 0)
    {
      hide AddressesOwned, OwnersHold, BitmapExact, FreeBlocksZero, Freed, Word, Held, HeldBy, Marked;
      HeldAltogether(g, d0, n0, owner, i);
      SlotHolder(g, d0, n0, owner, i, NDIRECT);
      var x := inodes[i].addrs[NDIRECT];
      if x == 0 {
        SameAddrPut(inodes, i, NDIRECT);
        return;
      }
      SkippedSlot(owner, i);
      UnheldKept(g, d0, disk, owner, i, x);
      var bp := disk[x];
      for j := 0 to NINDIRECT
        invariant Shaped(g, disk) && Freed(g, d0, disk, Held(owner, i, NDIRECT + 1 + j)) && inodes == old(inodes)
      {
        SlotHolder(g, d0, n0, owner, i, NDIRECT + 1 + j);
        if Word(bp, j) != 0 {
          FreeNext(Word(bp, j), d0, Held(owner, i, NDIRECT + 1 + j));
        } else {
          assert Held(owner, i, NDIRECT + 1 + j) + {} == Held(owner, i, NDIRECT + 1 + j);
        }
      }
      FreeNext(x, d0, Held(owner, i, SLOTS));
      inodes := AddrPut(inodes, i, NDIRECT, 0);
    }

    /** Discards the contents of inode `i`: exactly its blocks become free. */
    method Itrunc(i: nat)
      requires Valid() && i < g.ninodes
      modifies this
      ensures Valid() && OtherFilesSame(g, old(disk), old(inodes), disk, inodes, i)
      ensures inodes[i] == old(inodes)[i].(size := 0, addrs := inodes[i].addrs)
      ensures forall k :: 0 <= k <= NDIRECT ==> inodes[i].addrs[k] == 0
      ensures Content(g, disk, inodes[i]) == []
      ensures owner == old(owner) - HeldBy(old(owner), i)
    {
      hide AddressesOwned, OwnersHold, BitmapExact, FreeBlocksZero, Freed, OtherFilesSame, Held, HeldBy, Marked;
      ghost var d0, n0, o0 := disk, inodes, owner;
      FreeDirect(i);
      FreeIndirect(i, d0, n0);
      inodes := inodes[i := inodes[i].(size := 0)];
      OwnerShrinks(g, d0, n0, o0, i, disk, inodes, HeldBy(o0, i));
      owner := owner - HeldBy(o0, i);
      EmptyFileOk(g, disk, inodes[i]);
      OtherFilesKept(g, d0, n0, o0, disk, inodes, owner, i);
    }

    /** Takes the first free inode; -1 where the source panics. */
    method Ialloc(typ: int) returns (inum: int)
      requires Valid() && typ != 0
      modifies this`inodes
      ensures Valid()
      ensures inum == -1 ==> inodes == old(inodes) && forall j :: 1 <= j < g.ninodes ==> inodes[j].typ != 0
      ensures inum != -1 ==>
                && 1 <= inum < g.ninodes && old(inodes)[inum].typ == 0
                && (forall j :: 1 <= j < inum ==> old(inodes)[j].typ != 0)
                && inodes[inum] == FreeInode().(typ := typ)
                && OtherFilesSame(g, disk, old(inodes), disk, inodes, inum)
    {
      hide AddressesOwned, OwnersHold, BitmapExact, FreeBlocksZero, Image, HasBlocks, OtherFilesSame;
      var n := 1;
      while n < g.ninodes
        invariant inodes == old(inodes)
        invariant forall j :: 1 <= j < n && j < g.ninodes ==> inodes[j].typ != 0
      {
        if inodes[n].typ == 0 {
          assert FileOk(g, disk, inodes[n]) && InodeShaped(g, inodes[n]);
          assert inodes[n].addrs == FreeInode().addrs;
          Relabelled(g, disk, inodes, owner, n, FreeInode().(typ := typ));
          inodes := inodes[n := FreeInode().(typ := typ)];
          return n;
        }
        n := n + 1;
      }
      return -1;
    }

    /** Drops one of `ref` references to inode `i`; the last one to an inode without
        links frees its blocks and the inode. */
    method Iput(i: nat, ref: nat) returns (left: int)
      requires Valid() && i < g.ninodes && ref >= 1
      modifies this
      ensures Valid() && left == ref - 1
      ensures OtherFilesSame(g, old(disk), old(inodes), disk, inodes, i)
      ensures ref > 1 || old(inodes)[i].nlink != 0 ==> unchanged(this)
      ensures ref == 1 && old(inodes)[i].nlink == 0 ==>
                && inodes[i] == old(inodes)[i].(typ := 0, size := 0, addrs := inodes[i].addrs)
                && Content(g, disk, inodes[i]) == []
                && owner == old(owner) - HeldBy(old(owner), i)
    {
      hide AddressesOwned, OwnersHold, BitmapExact, FreeBlocksZero, Image, HasBlocks, HeldBy, FileOk, Content;
      NothingChanged(g, disk, inodes, owner, i);
      if ref == 1 && inodes[i].nlink == 0 {
        Itrunc(i);
        Relabelled(g, disk, inodes, owner, i, inodes[i].(typ := 0));
        inodes := inodes[i := inodes[i].(typ := 0)];
      }
      left := ref - 1;
    }

    static method CallDriver(driver: map<int, int>, major: int) returns (r: int)
      ensures r == DeviceAnswer(driver, major)
      ensures r == if 0 <= major < 10 && major in driver then driver[major] else -1
    {
      if major < 0 || major >= NDEV || major !in driver {
        return -1;
      }
      return driver[major];
    }
  }
}
