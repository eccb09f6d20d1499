/** The buffer cache, kernel/bio.c.

    Each method is one of its critical sections; iderw is one transfer.  The ghost sequence
    `order` is the list from head.next on, and `released` numbers the releases.  Any number of
    clients may take turns: what they see is a disk with a lock on every sector. */
module BufferCache {

  const NBUF := 10
  const NODEV := 0xFFFF_FFFF        // (uint) -1

  type Block = seq<bv8>

  datatype Key = Key(dev: nat, sector: nat)

  datatype Outcome = Got(b: Buf) | Sleeps(on: Buf) | NoBuffers

  class Buf {
    var busy: bool
    var valid: bool
    var dirty: bool
    var dev: nat
    var sector: nat
    var prev: Buf
    var next: Buf
    var data: Block

    /** A zeroed buffer outside any list. */
    constructor ()
      ensures !busy && !valid && !dirty && dev == 0 && prev == this == next
    {
      busy := false;
      valid := false;
      dirty := false;
      dev := 0;
      sector := 0;
      prev := this;
      next := this;
      data := [];
    }

    function Id(): Key
      reads this`dev, this`sector
    {
      Key(dev, sector)
    }
  }

  /** Buffer `i` of a list that starts and ends at `head`. */
  function Nth(head: Buf, order: seq<Buf>, i: int): (b: Buf)
    ensures b == head || b in order
  {
    if 0 <= i < |order| then order[i] else head
  }

  ghost predicate NoRepeats(order: seq<Buf>) {
    forall i, j :: 0 <= i < j < |order| ==> order[i] != order[j]
  }

  ghost predicate Linked(head: Buf, order: seq<Buf>, i: int)
    reads Nth(head, order, i)`next, Nth(head, order, i + 1)`prev
  {
    Nth(head, order, i).next == Nth(head, order, i + 1) && Nth(head, order, i + 1).prev == Nth(head, order, i)
  }

  /** next runs through `order` and back to `head`; prev is its inverse. */
  ghost predicate Ring(head: Buf, order: seq<Buf>)
    reads head`next, head`prev, order`next, order`prev
  {
    && head !in order && NoRepeats(order)
    && forall i :: -1 <= i < |order| ==> Linked(head, order, i)
  }

  lemma RingIsSimple(head: Buf, order: seq<Buf>)
    requires Ring(head, order)
    ensures NoRepeats(order)
  {
  }

  /** Makes `b` the first of the list. */
  method PushFront(head: Buf, b: Buf, ghost order: seq<Buf>)
    requires Ring(head, order) && b != head && b !in order
    modifies b`next, b`prev, head`next, (set c | c in order + [head])`prev
    ensures Ring(head, [b] + order)
  {
    assert Linked(head, order, -1);
    b.next := head.next;
    b.prev := head;
    head.next.prev := b;
    head.next := b;
    ghost var longer := [b] + order;
    assert forall i :: 0 <= i <= |order| ==> Nth(head, longer, i + 1) == Nth(head, order, i);
    forall i | -1 <= i < |longer|
      ensures Linked(head, longer, i)
    {
      if i > 0 {
        assert old(Linked(head, order, i - 1));
        assert Nth(head, longer, i) == Nth(head, order, i - 1) && Nth(head, longer, i + 1) == Nth(head, order, i);
      }
    }
  }

  /** Takes `b` out of the list. */
  method Unlink(head: Buf, b: Buf, ghost order: seq<Buf>, ghost k: nat)
    requires Ring(head, order) && k < |order| && b == order[k]
    modifies (set c | c in order + [head])`next, (set c | c in order + [head])`prev
    ensures Ring(head, order[..k] + order[k + 1..])
  {
    assert Linked(head, order, k - 1) && Linked(head, order, k);
    b.next.prev := b.prev;
    b.prev.next := b.next;
    ghost var shorter := order[..k] + order[k + 1..];
    forall i | -1 <= i < |shorter|
      ensures Linked(head, shorter, i)
    {
      assert old(Linked(head, order, i)) && old(Linked(head, order, i + 1));
      assert Nth(head, shorter, i) == Nth(head, order, if i < k then i else i + 1);
      assert Nth(head, shorter, i + 1) == Nth(head, order, if i + 1 < k then i + 1 else i + 2);
    }
  }

  /** `b` taken out of the list and put first. */
  function ToFront(order: seq<Buf>, b: Buf): seq<Buf> {
    [b] + Without(order, b)
  }

  function Without(order: seq<Buf>, b: Buf): seq<Buf> {
    if order == [] then [] else (if order[0] == b then [] else [order[0]]) + Without(order[1..], b)
  }

  lemma {:induction false} WithoutAt(order: seq<Buf>, k: nat)
    requires NoRepeats(order) && k < |order|
    ensures Without(order, order[k]) == order[..k] + order[k + 1..]
  {
    if k == 0 {
      WithoutOther(order[1..], order[0]);
      assert order[1..] == order[..0] + order[0 + 1..];
    } else {
      WithoutAt(order[1..], k - 1);
      assert order[..k] + order[k + 1..] == [order[0]] + (order[1..][..k - 1] + order[1..][k..]);
    }
  }

  lemma {:induction false} WithoutOther(order: seq<Buf>, b: Buf)
    requires b !in order
    ensures Without(order, b) == order
  {
    if order != [] {
      WithoutOther(order[1..], b);
    }
  }

  /** The buffers in the order of their last release. */
  ghost predicate NewestFirst(order: seq<Buf>, released: map<Buf, int>, clock: int) {
    && (forall i :: 0 <= i < |order| ==> order[i] in released && released[order[i]] < clock)
    && (forall i, j :: 0 <= i < j < |order| ==> released[order[i]] > released[order[j]])
  }

  lemma Moved(order: seq<Buf>, released: map<Buf, int>, clock: int, k: nat)
    requires NoRepeats(order) && k < |order| && NewestFirst(order, released, clock)
    ensures var rest := order[..k] + order[k + 1..];
            && order[k] !in rest && |rest| == |order| - 1
            && (forall b :: b in [order[k]] + rest ==> b in order)
               && (forall b :: b in order ==> b in [order[k]] + rest)
            && NewestFirst([order[k]] + rest, released[order[k] := clock], clock + 1)
  {
    var rest := order[..k] + order[k + 1..];
    forall i | 0 <= i < |rest|
      ensures rest[i] == order[if i < k then i else i + 1]
    {
    }
    forall b | b in order
      ensures b in [order[k]] + rest
    {
      var i :| 0 <= i < |order| && order[i] == b;
      if i != k {
        assert rest[if i < k then i else i - 1] == b;
      }
    }
  }

  lemma {:induction false} SetOfOrder(order: seq<Buf>)
    requires NoRepeats(order)
    ensures |set b | b in order| == |order|
  {
    if order != [] {
      SetOfOrder(order[1..]);
      assert (set b | b in order) == {order[0]} + set b | b in order[1..];
    }
  }

  ghost predicate InHands(held: map<nat, Buf>, b: Buf) {
    exists h :: h in held && held[h] == b
  }

  lemma OneMoreInHands(held: map<nat, Buf>, h: nat, b: Buf, c: Buf)
    requires h !in held
    ensures InHands(held[h := b], c) <==> InHands(held, c) || b == c
  {
    if InHands(held, c) {
      var g :| g in held && held[g] == c;
      assert held[h := b][g] == c;
    }
    assert held[h := b][h] == b;
  }

  lemma OneLessInHands(held: map<nat, Buf>, h: nat, c: Buf)
    requires Apart(held) && h in held
    ensures InHands(held - {h}, c) <==> InHands(held, c) && held[h] != c
  {
    if InHands(held, c) && held[h] != c {
      var g :| g in held && held[g] == c;
      assert (held - {h})[g] == c;
    }
  }

  /** The buffers that clients hold by handle. */
  ghost predicate Apart(held: map<nat, Buf>) {
    forall g, h :: g in held && h in held && g != h ==> held[g] != held[h]
  }

  lemma {:induction false} HeldBuffers(held: map<nat, Buf>)
    requires Apart(held)
    ensures |held.Values| == |held|
    decreases |held|
  {
    if h :| h in held {
      var rest := held - {h};
      assert forall g :: g in rest ==> held[g] == rest[g];
      HeldBuffers(rest);
      assert held.Values == rest.Values + {held[h]};
      assert held.Keys == rest.Keys + {h};
    } else {
      assert held.Values == {};
    }
  }

  lemma {:induction false} SameSize(part: set<Buf>, whole: set<Buf>)
    requires part <= whole && |part| == |whole|
    ensures part == whole
  {
    if b :| b in whole {
      if b in part {
        SameSize(part - {b}, whole - {b});
      } else {
        assert part <= whole - {b};
        Smaller(part, whole - {b});
      }
    }
  }

  lemma {:induction false} Smaller(part: set<Buf>, whole: set<Buf>)
    requires part <= whole
    ensures |part| <= |whole|
  {
    if b :| b in part {
      Smaller(part - {b}, whole - {b});
    }
  }

  // ----- what the cache is to its clients: a disk with a lock on each sector

  /** A buffer in somebody's hands. */
  datatype Hold = Hold(key: Key, data: Block)

  /** What clients do, each use of a buffer under a handle of its own. */
  datatype Event = Read(handle: nat, key: Key) | Change(handle: nat,
      data: Block) | Write(handle: nat) | Release(handle: nat)

  datatype LockedDisk = LockedDisk(disk: map<Key, Block>, held: map<nat, Hold>, halted: bool)

  predicate Taken(held: map<nat, Hold>, key: Key) {
    exists h :: h in held && held[h].key == key
  }

  /** One event.  Who reads a sector that is taken waits and tries again later; at most NBUF
      sectors can be taken; and nobody releases a buffer whose data is not on the disk. */
  function After(s: LockedDisk, e: Event): LockedDisk {
    if s.halted then s
    else if e.Read? then
      if e.handle in s.held || e.key !in s.disk || e.key.dev >= NODEV || Taken(s.held, e.key) then s
      else if |s.held| == NBUF then s.(halted := true)
      else s.(held := s.held[e.handle := Hold(e.key, s.disk[e.key])])
    else if e.handle !in s.held then s
    else
      var b := s.held[e.handle];
      match e
      case Change(h, data) => s.(held := s.held[h := Hold(b.key, data)])
      case Write(h) => s.(disk := s.disk[b.key := b.data])
      case Release(h) => if b.key in s.disk && b.data == s.disk[b.key] then s.(held := s.held - {h}) else s
      case Read(h, key) => s
  }

  function Plays(s: LockedDisk, events: seq<Event>): LockedDisk {
    if events == [] then s else After(Plays(s, events[..|events| - 1]), events[|events| - 1])
  }

  /** No two clients hold the same sector. */
  ghost predicate Exclusive(s: LockedDisk) {
    && (forall g, h :: g in s.held && h in s.held && g != h ==> s.held[g].key != s.held[h].key)
    && (forall h :: h in s.held ==> s.held[h].key in s.disk)
  }

  lemma HaltedStays(s: LockedDisk, e: Event)
    requires s.halted
    ensures After(s, e) == s
  {
  }

  lemma ExclusiveAfter(s: LockedDisk, e: Event)
    requires Exclusive(s)
    ensures Exclusive(After(s, e))
  {
  }

  /** No update is lost: whatever the other clients do while handle `h` has a sector, the
      buffer and the block on the disk are as `h` left them. */
  lemma {:induction false} NoInterference(s: LockedDisk, events: seq<Event>, h: nat)
    requires Exclusive(s) && h in s.held && forall e :: e in events ==> e.handle != h
    ensures var s' := Plays(s, events);
            && Exclusive(s') && h in s'.held && s'.held[h] == s.held[h]
            && s.held[h].key in s'.disk && s'.disk[s.held[h].key] == s.disk[s.held[h].key]
  {
    if events != [] {
      var most := events[..|events| - 1];
      assert events[|events| - 1] in events;
      NoInterference(s, most, h);
      ExclusiveAfter(Plays(s, most), events[|events| - 1]);
    }
  }

  class Cache {
    const head: Buf
    const bufs: set<Buf>
    var disk: map<Key, Block>
    ghost var order: seq<Buf>
    ghost var released: map<Buf, int>
    ghost var clock: int
    ghost var holder: map<Key, Buf>

    /** The list is a ring of all buffers. */
    ghost predicate Listed()
      reads this`order, head`next, head`prev, order`next, order`prev
    {
      && head !in bufs && |order| == NBUF && Ring(head, order)
      && (forall b :: b in bufs ==> b in order) && (forall b :: b in order ==> b in bufs)
    }

    /** Most recently released first. */
    ghost predicate Ordered()
      reads this`order, this`released, this`clock
    {
      NewestFirst(order, released, clock)
    }

    /** No two buffers are for the same sector: `holder` tells the one that is. */
    ghost predicate KeysOk()
      reads this`disk, this`holder, bufs`dev, bufs`sector, bufs`busy, bufs`valid, bufs`dirty
    {
      && (forall b :: b in bufs && b.dev != NODEV ==> b.Id() in disk)
      && (forall b :: b in bufs && b.dev == NODEV ==> !b.busy && !b.valid && !b.dirty)
      && (forall b :: b in bufs && b.dev != NODEV ==> b.Id() in holder && holder[b.Id()] == b)
    }

    ghost predicate Valid()
      reads this, head`next, head`prev, order`next, order`prev, bufs`dev, bufs`sector, bufs`busy, bufs`valid, bufs`dirty
    {
      Listed() && Ordered() && KeysOk() && forall b :: b in bufs ==> !b.dirty
    }

    /** What a valid buffer holds is what the disk holds. */
    ghost predicate InSync(b: Buf)
      reads this`disk, b`dev, b`sector, b`valid, b`dirty, b`data
    {
      b.valid ==> !b.dirty && b.Id() in disk && b.data == disk[b.Id()]
    }

    /** Every buffer that nobody is using is in sync with the disk. */
    ghost predicate Agrees()
      reads this`disk, bufs`dev, bufs`sector, bufs`busy, bufs`valid, bufs`dirty, bufs`data
    {
      forall b :: b in bufs && !b.busy ==> InSync(b)
    }

    /** binit */
    constructor (d: map<Key, Block>)
      ensures Valid() && Agrees() && disk == d && fresh(bufs + {head})
      ensures forall b :: b in bufs ==> !b.busy && !b.valid && b.dev == NODEV
    {
      var h := new Buf();
      var all: set<Buf> := {};
      ghost var list: seq<Buf> := [];
      ghost var when: map<Buf, int> := map[];
      var n := 0;
      while n < NBUF
        invariant 0 <= n <= NBUF && |list| == n && h !in all && Ring(h, list)
        invariant fresh(all + {h}) && (forall b :: b in all ==> b in list) && (forall b :: b in list ==> b in all)
            && when.Keys == all
        invariant forall b :: b in all ==> !b.busy && !b.valid && !b.dirty && b.dev == NODEV
        invariant forall i :: 0 <= i < n ==> when[list[i]] == n - 1 - i
      {
        var b := new Buf();
        b.dev := NODEV;
        PushFront(h, b, list);
        all := all + {b};
        list := [b] + list;
        when := when[b := n];
        n := n + 1;
      }
      head := h;
      bufs := all;
      disk := d;
      order := list;
      released := when;
      clock := NBUF;
      holder := map[];
    }

    ghost predicate Cached(key: Key)
      reads this, bufs
    {
      exists b :: b in bufs && b.Id() == key
    }

    ghost predicate Locked(key: Key)
      reads bufs`busy, bufs`dev, bufs`sector
    {
      exists b :: b in bufs && b.busy && b.Id() == key
    }

    ghost predicate AllBusy()
      reads bufs`busy
    {
      forall b :: b in bufs ==> b.busy
    }

    lemma OneBufferPerSector(b: Buf, c: Buf)
      requires KeysOk() && b in bufs && c in bufs && b.dev != NODEV && b.Id() == c.Id()
      ensures b == c
    {
    }

    lemma IsCached(b: Buf)
      requires b in bufs
      ensures Cached(b.Id())
    {
    }

    lemma OnlyIfCached(key: Key)
      ensures Locked(key) ==> Cached(key)
    {
    }

    lemma LockedIfBusy(b: Buf)
      requires KeysOk() && b in bufs && b.dev != NODEV
      ensures Locked(b.Id()) <==> b.busy
    {
      if Locked(b.Id()) {
        var c :| c in bufs && c.busy && c.Id() == b.Id();
        OneBufferPerSector(b, c);
      }
    }

    /** Of the buffers not in use, `b` is the one released longest ago. */
    ghost predicate LeastRecent(b: Buf)
      reads this, bufs
    {
      && b in bufs && !b.busy && b in released
      && forall c :: c in bufs && !c.busy ==> c in released && released[b] <= released[c]
    }

    /** The first loop of bget, forwards from the most recently released. */
    method Find(dev: nat, sector: nat) returns (found: Buf?)
      requires Listed()
      ensures found != null ==> found in bufs && found.Id() == Key(dev, sector)
      ensures found == null ==> !Cached(Key(dev, sector))
    {
      var b := head.next;
      ghost var i := 0;
      assert Linked(head, order, -1);
      while b != head
        invariant 0 <= i <= |order| && b == Nth(head, order, i)
        invariant forall k :: 0 <= k < i ==> order[k].Id() != Key(dev, sector)
        decreases |order| - i
      {
        if b.dev == dev && b.sector == sector {
          return b;
        }
        assert Linked(head, order, i);
        b := b.next;
        i := i + 1;
      }
      return null;
    }

    /** The second loop of bget, backwards from the least recently released. */
    method LastIdle() returns (found: Buf?)
      requires Listed() && Ordered()
      ensures found != null ==> LeastRecent(found) && found in bufs && !found.busy
      ensures found == null <==> AllBusy()
    {
      var b := head.prev;
      ghost var i := |order| - 1;
      assert Linked(head, order, |order| - 1);
      while b != head
        invariant -1 <= i < |order| && b == Nth(head, order, i)
        invariant forall k :: i < k < |order| ==> order[k].busy
        decreases i + 1
      {
        if !b.busy {
          return b;
        }
        assert Linked(head, order, i - 1);
        b := b.prev;
        i := i - 1;
      }
      return null;
    }

    /** Buffer `b`, which has its sector already, is now in use. */
    method Claim(b: Buf)
      requires KeysOk() && b in bufs && b.dev < NODEV
      modifies b`busy
      ensures KeysOk() && b.busy && (old(Agrees()) ==> Agrees())
    {
      hide InSync;
      b.busy := true;
    }

    /** Buffer `b` is now for a sector that has none. */
    method Recycle(b: Buf, dev: nat, sector: nat)
      requires KeysOk() && b in bufs && dev < NODEV && Key(dev, sector) in disk && !Cached(Key(dev, sector))
      modifies `holder, b`busy, b`valid, b`dirty, b`dev, b`sector
      ensures KeysOk() && b.Id() == Key(dev, sector) && b.busy && !b.valid && !b.dirty
      ensures old(Agrees()) ==> Agrees()
    {
      b.dev := dev;
      b.sector := sector;
      b.busy, b.valid, b.dirty := true, false, false;
      holder := holder[Key(dev, sector) := b];
    }

    /** The buffer for the sector, for its caller alone.  A sector that has no buffer gets the
        one released longest ago.  Who finds the buffer busy sleeps and calls again. */
    method Bget(dev: nat, sector: nat) returns (r: Outcome)
      requires Valid() && dev < NODEV && Key(dev, sector) in disk
      modifies `holder, bufs`busy, bufs`valid, bufs`dirty, bufs`dev, bufs`sector
      ensures Valid() && (old(Agrees()) ==> Agrees())
      ensures r.Got? ==>
                && r.b in bufs && r.b.busy && !old(r.b.busy) && r.b.Id() == Key(dev, sector)
                && (if old(Cached(Key(dev, sector))) then
                      old(r.b.Id()) == r.b.Id() && !old(r.b.busy) && r.b.valid == old(r.b.valid)
                          && r.b.dirty == old(r.b.dirty)
                    else
                      old(LeastRecent(r.b)) && !r.b.valid && !r.b.dirty)
                && forall c :: c in bufs && c != r.b ==>
                     c.busy == old(c.busy) && c.valid == old(c.valid) && c.dirty == old(c.dirty)
                         && c.Id() == old(c.Id())
      ensures !r.Got? ==> forall c :: c in bufs ==> unchanged(c)
      ensures r.Sleeps? ==> r.on in bufs && r.on.busy && r.on.Id() == Key(dev, sector)
      ensures r.Sleeps? <==> old(Locked(Key(dev, sector)))
      ensures r.NoBuffers? <==> !old(Locked(Key(dev, sector))) && old(AllBusy())
      ensures r.NoBuffers? ==> !Cached(Key(dev, sector))
    {
      hide Listed, Ordered, LeastRecent, Cached, Locked, InSync, KeysOk, Agrees;
      var b := Find(dev, sector);
      if b != null {
        LockedIfBusy(b);
        IsCached(b);
        if !b.busy {
          Claim(b);
          return Got(b);
        }
        return Sleeps(b);
      }
      OnlyIfCached(Key(dev, sector));
      b := LastIdle();
      if b != null {
        Recycle(b, dev, sector);
        return Got(b);
      }
      return NoBuffers;
    }

    /** One transfer between `b` and the disk; false for a panic. */
    method Iderw(b: Buf) returns (ok: bool)
      requires Listed() && Ordered() && KeysOk() && b in bufs && forall c :: c in bufs && c != b ==> !c.dirty
      modifies `disk, b`data, b`valid, b`dirty
      ensures Listed() && Ordered() && KeysOk()
      ensures ok == (old(b.busy) && !(old(b.valid) && !old(b.dirty)))
      ensures !ok ==> unchanged(this) && unchanged(b)
      ensures ok ==> b.valid && !b.dirty && InSync(b)
      ensures ok && old(b.dirty) ==> b.data == old(b.data) && disk == old(disk)[b.Id() := b.data]
      ensures ok && !old(b.dirty) ==> disk == old(disk)
      ensures forall c :: c in bufs && c != b ==> InSync(c) == old(InSync(c))
    {
      hide Listed, Ordered;
      if !b.busy {
        return false;
      }
      if b.valid && !b.dirty {
        return false;
      }
      if b.dirty {
        disk := disk[b.Id() := b.data];
      } else {
        b.data := disk[b.Id()];
      }
      b.valid, b.dirty := true, false;
      return true;
    }

    /** A buffer with the block the disk holds now. */
    method Bread(dev: nat, sector: nat) returns (r: Outcome)
      requires Valid() && dev < NODEV && Key(dev, sector) in disk
      modifies `disk, `holder, bufs`busy, bufs`valid, bufs`dirty, bufs`dev, bufs`sector, bufs`data
      ensures Valid() && (old(Agrees()) ==> Agrees())
      ensures r.Got? ==> r.b in bufs && r.b.busy && r.b.valid && r.b.Id() == Key(dev, sector)
      ensures disk == old(disk)
      ensures r.Got? ==> !old(r.b.busy) && (old(Agrees()) ==> r.b.data == disk[Key(dev, sector)])
      ensures r.Sleeps? <==> old(Locked(Key(dev, sector)))
      ensures r.NoBuffers? <==> !old(Locked(Key(dev, sector))) && old(AllBusy())
      ensures forall c :: c in bufs && (r.Got? ==> c != r.b) ==>
                c.busy == old(c.busy) && c.valid == old(c.valid) && c.data == old(c.data) && c.Id() == old(c.Id())
      ensures forall c :: c in bufs && (r.Got? ==> c != r.b) ==> InSync(c) == old(InSync(c))
    {
      hide Listed, Ordered, Cached, LeastRecent, Locked, AllBusy;
      r := Bget(dev, sector);
      if r.Got? && !r.b.valid {
        var ok := Iderw(r.b);
        assert ok;
      }
    }

    /** The user of `b` changes its contents. */
    method Modify(b: Buf, data: Block)
      requires Valid() && b in bufs && b.busy
      modifies b`data
      ensures Valid() && b.data == data && (old(Agrees()) ==> Agrees())
    {
      b.data := data;
    }

    /** Writes `b` to the disk; false for the panic on a buffer that is not busy. */
    method Bwrite(b: Buf) returns (ok: bool)
      requires Valid() && b in bufs
      modifies `disk, b`data, b`valid, b`dirty
      ensures Valid() && ok == b.busy && (old(Agrees()) ==> Agrees())
      ensures ok ==> b.valid && b.data == old(b.data) && InSync(b) && disk == old(disk)[b.Id() := b.data]
      ensures !ok ==> unchanged(this) && unchanged(b)
      ensures forall c :: c in bufs && c != b ==> InSync(c) == old(InSync(c))
    {
      if !b.busy {
        return false;
      }
      b.dirty := true;
      ok := Iderw(b);
    }

    /** What brelse does to the list. */
    method MoveToFront(b: Buf)
      requires Listed() && Ordered() && b in bufs
      modifies bufs`next, bufs`prev, head`next, head`prev, `order, `released, `clock
      ensures Listed() && Ordered()
      ensures order == ToFront(old(order), b) && released == old(released)[b := old(clock)] && clock == old(clock) + 1
    {
      hide Ring, Linked, NoRepeats, NewestFirst, Nth, Without;
      RingIsSimple(head, order);
      ghost var k :| 0 <= k < |order| && order[k] == b;
      WithoutAt(order, k);
      Moved(order, released, clock, k);
      ghost var rest := order[..k] + order[k + 1..];
      assert forall c :: c in order ==> c in bufs;
      Unlink(head, b, order, k);
      PushFront(head, b, rest);
      order := [b] + rest;
      released := released[b := clock];
      clock := clock + 1;
    }

    /** Gives `b` back, as the most recently released; false for the panic on a buffer that is
        not busy.  The cache agrees with the disk afterwards exactly if its user left `b` so. */
    method Brelse(b: Buf) returns (ok: bool)
      requires Valid() && b in bufs
      modifies b`busy, bufs`next, bufs`prev, head`next, head`prev, `order, `released, `clock
      ensures Valid() && ok == old(b.busy) && !b.busy
      ensures ok ==>
          order == ToFront(old(order), b) && released == old(released)[b := old(clock)] && clock == old(clock) + 1
      ensures ok ==> (Agrees() <==> old(Agrees()) && InSync(b))
      ensures !ok ==> unchanged(this) && forall c :: c in bufs + {head} ==> unchanged(c)
    {
      hide Listed, Ordered;
      if !b.busy {
        return false;
      }
      MoveToFront(b);
      b.busy := false;
      return true;
    }

    /** A client's whole use of a buffer: what it writes is then what the disk holds, and the
        cache agrees with the disk again. */
    method Update(dev: nat, sector: nat, data: Block) returns (r: Outcome)
      requires Valid() && Agrees() && dev < NODEV && Key(dev, sector) in disk
      modifies this, bufs, head
      ensures Valid() && Agrees()
      ensures disk == if r.Got? then old(disk)[Key(dev, sector) := data] else old(disk)
      ensures r.Got? ==> !r.b.busy && |order| > 0 && order[0] == r.b
      ensures forall c :: c in bufs && (r.Got? ==> c != r.b) ==>
                c.busy == old(c.busy) && c.data == old(c.data) && c.Id() == old(c.Id()) && InSync(c) == old(InSync(c))
    {
      hide Listed, Ordered;
      r := Bread(dev, sector);
      if r.Got? {
        Modify(r.b, data);
        var written := Bwrite(r.b);
        var released := Brelse(r.b);
        assert written && released;
      }
    }

    /** The cache shows its clients the locked disk `s`; `held` has their buffers. */
    ghost predicate Shows(held: map<nat, Buf>, s: LockedDisk)
      reads this`disk, bufs`dev, bufs`sector, bufs`busy, bufs`valid, bufs`dirty, bufs`data
    {
      && disk == s.disk && held.Keys == s.held.Keys && Apart(held)
      && (forall h :: h in held ==>
            && held[h] in bufs && held[h].busy && held[h].valid
            && s.held[h] == Hold(held[h].Id(), held[h].data))
      && (forall b :: b in bufs && b.busy ==> InHands(held, b))
    }

    lemma NoneLeft(held: map<nat, Buf>, s: LockedDisk)
      requires Listed() && Shows(held, s)
      ensures AllBusy() <==> |s.held| == NBUF
    {
      SetOfOrder(order);
      assert bufs == set b | b in order;
      HeldBuffers(held);
      assert |held| == |held.Keys| && |s.held| == |s.held.Keys|;
      if AllBusy() {
        assert held.Values == bufs;
      } else if |s.held| == NBUF {
        SameSize(held.Values, bufs);
      }
    }

    lemma TakenIsLocked(held: map<nat, Buf>, s: LockedDisk, key: Key)
      requires Shows(held, s)
      ensures Locked(key) <==> Taken(s.held, key)
    {
      if Taken(s.held, key) {
        var h :| h in s.held && s.held[h].key == key;
        assert held[h].busy;
      }
    }

    method ReadBy(h: nat, key: Key, held: map<nat, Buf>, ghost s: LockedDisk)
        returns (held': map<nat, Buf>, halted: bool)
      requires Valid() && Agrees() && Shows(held, s) && !s.halted
      modifies `disk, `holder, bufs`busy, bufs`valid, bufs`dirty, bufs`dev, bufs`sector, bufs`data
      ensures Valid() && Agrees() && Shows(held', After(s, Read(h, key))) && halted == After(s, Read(h, key)).halted
    {
      hide Listed, Ordered, Locked, AllBusy, Taken, NewestFirst, KeysOk, InHands, InSync;
      held', halted := held, false;
      if h in held || key !in disk || key.dev >= NODEV {
        return;
      }
      NoneLeft(held, s);
      TakenIsLocked(held, s, key);
      var r := Bread(key.dev, key.sector);
      if r.Got? {
        held' := held[h := r.b];
        forall b | b in bufs
          ensures InHands(held', b) <==> InHands(held, b) || b == r.b
        {
          OneMoreInHands(held, h, r.b, b);
        }
      }
      halted := r.NoBuffers?;
    }

    method ChangeBy(h: nat, data: Block, held: map<nat, Buf>, ghost s: LockedDisk)
      requires Valid() && Agrees() && Shows(held, s) && !s.halted && h in held
      modifies bufs`data
      ensures Valid() && Agrees() && Shows(held, After(s, Change(h, data)))
    {
      hide Listed, Ordered, KeysOk;
      Modify(held[h], data);
    }

    method WriteBy(h: nat, held: map<nat, Buf>, ghost s: LockedDisk)
      requires Valid() && Agrees() && Shows(held, s) && !s.halted && h in held
      modifies this, bufs
      ensures Valid() && Agrees() && Shows(held, After(s, Write(h)))
    {
      hide Listed, Ordered;
      var b := held[h];
      var ok := Bwrite(b);
    }

    lemma BusyIsOnDisk(b: Buf)
      requires KeysOk() && b in bufs && b.busy
      ensures b.Id() in disk && (b.data == disk[b.Id()] && !b.dirty ==> InSync(b))
    {
    }

    method ReleaseBy(h: nat, held: map<nat, Buf>, ghost s: LockedDisk) returns (held': map<nat, Buf>)
      requires Valid() && Agrees() && Shows(held, s) && !s.halted && h in held
      modifies this, bufs, head
      ensures Valid() && Agrees() && Shows(held', After(s, Release(h)))
    {
      hide Listed, Ordered, KeysOk, InSync, InHands;
      var b := held[h];
      held' := held;
      BusyIsOnDisk(b);
      if b.data == disk[b.Id()] {
        var ok := Brelse(b);
        held' := held - {h};
        forall c | c in bufs
          ensures InHands(held', c) <==> InHands(held, c) && c != b
        {
          OneLessInHands(held, h, c);
        }
      }
    }

    /** One event, by whichever client. */
    method Step(e: Event, held: map<nat, Buf>, ghost s: LockedDisk) returns (held': map<nat, Buf>, halted: bool)
      requires Valid() && Agrees() && Shows(held, s) && !s.halted
      modifies this, bufs, head
      ensures Valid() && Agrees() && Shows(held', After(s, e)) && halted == After(s, e).halted
    {
      hide Listed, Ordered, KeysOk, InSync, Agrees;
      held', halted := held, false;
      if e.Read? {
        held', halted := ReadBy(e.handle, e.key, held, s);
      } else if e.handle in held {
        match e
        case Change(h, data) => ChangeBy(h, data, held, s);
        case Write(h) => WriteBy(h, held, s);
        case Release(h) => held' := ReleaseBy(h, held, s);
      }
    }

    /** Any clients, in any interleaving: the cache cannot be told from the disk with locks.  In
        particular every read returns the disk's current block, at every point of every run. */
    method Run(events: seq<Event>, held: map<nat, Buf>, ghost s: LockedDisk)
        returns (held': map<nat, Buf>, halted: bool)
      requires Valid() && Agrees() && Shows(held, s) && !s.halted
      modifies this, bufs, head
      ensures Valid() && Agrees() && Shows(held', Plays(s, events)) && halted == Plays(s, events).halted
    {
      hide Listed, Ordered, KeysOk, Agrees, Shows, After;
      held', halted := held, false;
      var k := 0;
      while k < |events|
        invariant 0 <= k <= |events|
        invariant Valid() && Agrees() && Shows(held', Plays(s, events[..k])) && halted == Plays(s, events[..k]).halted
      {
        assert events[..k + 1][..k] == events[..k];
        if halted {
          HaltedStays(Plays(s, events[..k]), events[k]);
        } else {
          held', halted := Step(events[k], held', Plays(s, events[..k]));
        }
        k := k + 1;
      }
      assert events[..k] == events;
    }

    /** Before any client comes, the cache shows the bare disk. */
    lemma NobodyHolds()
      requires forall b :: b in bufs ==> !b.busy
      ensures Shows(map[], LockedDisk(disk, map[], false)) && Exclusive(LockedDisk(disk, map[], false))
    {
    }
  }

  /** From boot: the cache of a disk, and any run of any clients. */
  method Boot(disk: map<Key, Block>, events: seq<Event>) returns (cache: Cache, held: map<nat, Buf>, halted: bool)
    ensures fresh(cache) && cache.Valid() && cache.Agrees()
    ensures cache.Shows(held, Plays(LockedDisk(disk, map[], false), events))
    ensures halted == Plays(LockedDisk(disk, map[], false), events).halted
  {
    cache := new Cache(disk);
    cache.NobodyHolds();
    held, halted := cache.Run(events, map[], LockedDisk(disk, map[], false));
  }
}
