/** Pages and page tables: kernel/kalloc.c and kernel/vm.c.

    Physical memory is a map from the address of each page that kalloc manages to its
    1024 words.  The ghost map `role` says what every page is used for; it makes the
    pages of all address spaces, and the free pages, distinct. */
module Vm {

  const PGSIZE := 0x1000
  const NENTRIES := 1024            // words in a page, entries in a directory or table
  const USERTOP := 0xA0000
  const USERPAGES := USERTOP / PGSIZE
  const PHYSTOP := 0x100_0000
  const DEVSPACE := 0xFE00_0000
  const TWO_32 := 0x1_0000_0000
  const PTE_P := 1
  const PTE_W := 2
  const PTE_U := 4

  type Page = p: seq<int> | |p| == NENTRIES witness seq(NENTRIES, _ => 0)

  const JUNK := 0x0101_0101         // memset(v, 1, PGSIZE)

  function Filled(w: int): Page {
    seq(NENTRIES, _ => w)
  }

  /** What a page is used for; Held pages were handed out by kalloc and are in no space. */
  datatype Role = Free | Held | Dir(space: int) | Table(space: int, index: nat) | User(space: int, vpn: nat)

  function RoundUp(a: nat): nat {
    (a + PGSIZE - 1) / PGSIZE * PGSIZE
  }

  function RoundDown(a: nat): nat {
    a / PGSIZE * PGSIZE
  }

  lemma Rounded(a: nat)
    ensures RoundDown(a) == a / PGSIZE * PGSIZE && RoundUp(a) == Pages(a) * PGSIZE
  {
  }

  predicate Present(w: int) {
    w % 2 == 1
  }

  function PteAddr(w: int): int {
    w / PGSIZE * PGSIZE
  }

  /** The page table in slot `i` of directory `d`, 0 if there is none. */
  function TableOf(mem: map<int, Page>, d: int, i: nat): int
    requires d in mem && i < NENTRIES
  {
    if Present(mem[d][i]) then PteAddr(mem[d][i]) else 0
  }

  /** The page-table entry for virtual page `v`; 0 when there is no table for it. */
  function Pte(mem: map<int, Page>, d: int, v: nat): int
    requires d in mem && v < NENTRIES * NENTRIES
  {
    if TableOf(mem, d, v / NENTRIES) != 0 && TableOf(mem, d, v / NENTRIES) in mem
    then mem[TableOf(mem, d, v / NENTRIES)][v % NENTRIES] else 0
  }

  predicate NoRepeats(s: seq<int>) {
    forall i, j :: 0 <= i < j < |s| ==> s[i] != s[j]
  }

  /** Frames are page-aligned addresses that kfree accepts; 0 is none of them. */
  ghost predicate FramesOk(mem: map<int, Page>, end: int) {
    0 < end && forall f :: f in mem ==> f % PGSIZE == 0 && end <= f < PHYSTOP
  }

  ghost predicate FreeListOk(mem: map<int, Page>, freelist: seq<int>, role: map<int, Role>) {
    && role.Keys == mem.Keys
    && NoRepeats(freelist)
    && (forall i :: 0 <= i < |freelist| ==> freelist[i] in mem && role[freelist[i]] == Free)
    && (forall f :: f in mem && role[f] == Free ==> f in freelist)
  }

  ghost predicate IsDir(mem: map<int, Page>, role: map<int, Role>, d: int) {
    d in mem && d in role && role[d] == Dir(d)
  }

  /** What slot `i` of directory `d` refers to is the table for that slot. */
  ghost predicate SlotOk(mem: map<int, Page>, role: map<int, Role>, d: int, i: int)
    requires IsDir(mem, role, d) && 0 <= i < NENTRIES
  {
    Present(mem[d][i]) ==>
      TableOf(mem, d, i) != 0 && TableOf(mem, d, i) in mem && TableOf(mem, d, i) in role
          && role[TableOf(mem, d, i)] == Table(d, i)
  }

  /** What user page `v` of space `d` is mapped to is the page for that place. */
  ghost predicate MappingOk(mem: map<int, Page>, role: map<int, Role>, d: int, v: int)
    requires IsDir(mem, role, d) && 0 <= v < USERPAGES
  {
    var w := Pte(mem, d, v);
    Present(w) ==> PteAddr(w) in mem && PteAddr(w) in role && role[PteAddr(w)] == User(d, v)
  }

  /** Page `f` is where its role says. */
  ghost predicate HolderOk(mem: map<int, Page>, role: map<int, Role>, f: int)
    requires f in role
  {
    match role[f]
    case Dir(d) => d == f
    case Table(d, i) => IsDir(mem, role, d) && i < NENTRIES && TableOf(mem, d, i) == f
    case User(d, v) => IsDir(mem, role, d) && v < USERPAGES && Present(Pte(mem, d, v)) && PteAddr(Pte(mem, d, v)) == f
    case _ => true
  }

  ghost predicate SlotsOk(mem: map<int, Page>, role: map<int, Role>) {
    forall d, i :: IsDir(mem, role, d) && 0 <= i < NENTRIES ==> SlotOk(mem, role, d, i)
  }

  ghost predicate MappingsOk(mem: map<int, Page>, role: map<int, Role>) {
    forall d, v :: IsDir(mem, role, d) && 0 <= v < USERPAGES ==> MappingOk(mem, role, d, v)
  }

  ghost predicate HoldersOk(mem: map<int, Page>, role: map<int, Role>) {
    forall f :: f in role ==> HolderOk(mem, role, f)
  }

  /** Tables sit in the directories they serve, and every user page is mapped once, where
      its role says; so no two address spaces share a page. */
  ghost predicate MachineOk(mem: map<int, Page>, freelist: seq<int>, role: map<int, Role>, end: int) {
    && FramesOk(mem, end) && FreeListOk(mem, freelist, role)
    && SlotsOk(mem, role) && MappingsOk(mem, role) && HoldersOk(mem, role)
  }

  ghost predicate InSpace(r: Role, d: int) {
    match r
    case Dir(s) => s == d
    case Table(s, _) => s == d
    case User(s, _) => s == d
    case _ => false
  }

  /** The only change of roles is that free pages came to belong to space `d`. */
  ghost predicate TakenBy(role: map<int, Role>, role': map<int, Role>, d: int) {
    && role'.Keys == role.Keys
    && forall f :: f in role && role'[f] != role[f] ==> role[f].Free? && InSpace(role'[f], d)
  }

  /** The only change of roles is that free pages became user pages [lo, hi) of `d`. */
  ghost predicate UsersGrew(role: map<int, Role>, role': map<int, Role>, d: int, lo: int, hi: int) {
    && role'.Keys == role.Keys
    && forall f :: f in role && role'[f] != role[f] ==>
         role[f].Free? && role'[f].User? && role'[f].space == d && lo <= role'[f].vpn < hi
  }

  /** The roles once the user pages [lo, hi) of `d` are freed. */
  ghost function UsersFreed(role: map<int, Role>, d: int, lo: int, hi: int): map<int, Role> {
    map f | f in role :: if role[f].User? && role[f].space == d && lo <= role[f].vpn < hi then Free else role[f]
  }

  /** The roles once space `d` is gone. */
  ghost function SpaceFreed(role: map<int, Role>, d: int): map<int, Role> {
    map f | f in role :: if InSpace(role[f], d) then Free else role[f]
  }

  /** Pages that hold data, or belong to other spaces, and were not freed, are as they were. */
  ghost predicate DataKept(mem: map<int, Page>, role: map<int, Role>, mem': map<int, Page>, role': map<int, Role>,
      d: int) {
    && mem'.Keys == mem.Keys == role.Keys == role'.Keys
    && forall f :: f in mem && role'[f] == role[f] && (role[f].Held? || role[f].User? || !FreeOrOf(role[f], d)) ==>
       mem'[f] == mem[f]
  }

  /** Only free pages changed, and those in use again belong to space `d`. */
  ghost predicate SpaceGrew(mem: map<int, Page>, role: map<int, Role>, mem': map<int, Page>, role': map<int, Role>,
      d: int) {
    && mem'.Keys == mem.Keys == role.Keys == role'.Keys
    && (forall f :: f in role && role'[f] != role[f] ==> role[f].Free? && InSpace(role'[f], d))
    && forall f :: f in mem && !role[f].Free? ==> mem'[f] == mem[f]
  }

  ghost predicate FreeOrOf(r: Role, d: int) {
    r.Free? || InSpace(r, d)
  }

  /** No translation changes but those of the virtual pages [lo, hi) of space `d`. */
  ghost predicate PtesKept(mem: map<int, Page>, mem': map<int, Page>, role: map<int, Role>, d: int, lo: int, hi: int) {
    && mem'.Keys == mem.Keys
    && forall d', v' :: IsDir(mem, role, d') && 0 <= v' < NENTRIES * NENTRIES && !(d' == d && lo <= v' < hi) ==>
         Pte(mem', d', v') == Pte(mem, d', v')
  }

  /** How many of the slots [i, j) of directory `d` have no table. */
  ghost function Missing(mem: map<int, Page>, d: int, i: nat, j: nat): nat
    requires d in mem && i <= j <= NENTRIES
  {
    if i == j then 0 else Missing(mem, d, i, j - 1) + if TableOf(mem, d, j - 1) == 0 then 1 else 0
  }

  lemma {:induction false} MissingSame(mem: map<int, Page>, mem': map<int, Page>, d: int, i: nat, j: nat)
    requires d in mem && d in mem' && i <= j <= NENTRIES
    requires forall k :: i <= k < j ==> (TableOf(mem', d, k) == 0 <==> TableOf(mem, d, k) == 0)
    ensures Missing(mem', d, i, j) == Missing(mem, d, i, j)
  {
    if i < j {
      MissingSame(mem, mem', d, i, j - 1);
    }
  }

  /** Adding the table of slot `s` leaves one fewer missing. */
  lemma {:induction false} MissingDrops(mem: map<int, Page>, mem': map<int, Page>, d: int, i: nat, j: nat, s: nat)
    requires d in mem && d in mem' && i <= s < j <= NENTRIES && TableOf(mem, d, s) == 0 != TableOf(mem', d, s)
    requires forall k :: i <= k < j && k != s ==> TableOf(mem', d, k) == TableOf(mem, d, k)
    ensures Missing(mem', d, i, j) == Missing(mem, d, i, j) - 1
  {
    if s == j - 1 {
      MissingSame(mem, mem', d, i, j - 1);
    } else {
      MissingDrops(mem, mem', d, i, j - 1, s);
    }
  }

  lemma {:induction false} MissingBounds(mem: map<int, Page>, d: int, i: nat, j: nat)
    requires d in mem && i <= j <= NENTRIES
    ensures (forall k :: i <= k < j ==> TableOf(mem, d, k) != 0) ==> Missing(mem, d, i, j) == 0
    ensures (forall k :: i <= k < j ==> TableOf(mem, d, k) == 0) ==> Missing(mem, d, i, j) == j - i
    ensures forall k :: i <= k < j && TableOf(mem, d, k) == 0 ==> Missing(mem, d, i, j) > 0
  {
    if i < j {
      MissingBounds(mem, d, i, j - 1);
    }
  }

  /** No page of user memory is mapped twice, in one address space or in two, and none is
      free or used by the kernel. */
  lemma NoSharing(mem: map<int, Page>, freelist: seq<int>, role: map<int, Role>, end: int, d: int, v: nat, d': int,
      v': nat)
    requires MachineOk(mem, freelist, role, end)
    requires IsDir(mem, role, d) && v < USERPAGES && Present(Pte(mem, d, v))
    requires IsDir(mem, role, d') && v' < USERPAGES && Present(Pte(mem, d', v'))
    ensures PteAddr(Pte(mem, d, v)) == PteAddr(Pte(mem, d', v')) ==> d == d' && v == v'
    ensures PteAddr(Pte(mem, d, v)) in mem && PteAddr(Pte(mem, d, v)) !in freelist
    ensures !IsDir(mem, role, PteAddr(Pte(mem, d, v)))
    ensures forall e, i :: IsDir(mem, role, e) && 0 <= i < NENTRIES ==> TableOf(mem, e, i) != PteAddr(Pte(mem, d, v))
  {
    hide Pte, PteAddr;
    assert MappingOk(mem, role, d, v) && MappingOk(mem, role, d', v');
    forall e, i | IsDir(mem, role, e) && 0 <= i < NENTRIES
      ensures TableOf(mem, e, i) != PteAddr(Pte(mem, d, v))
    {
      assert SlotOk(mem, role, e, i);
    }
  }

  // ----- single stores

  lemma AddressOf(pa: int, flags: nat)
    requires pa % PGSIZE == 0 && flags < PGSIZE
    ensures PteAddr(pa + flags) == pa && (Present(pa + flags) <==> flags % 2 == 1)
  {
    var q := pa / PGSIZE;
    assert pa == q * PGSIZE && (q * PGSIZE + flags) / PGSIZE == q;
    Parity(q * 2048, flags);
  }

  lemma Parity(h: int, flags: nat)
    ensures (h * 2 + flags) % 2 == flags % 2
  {
  }

  /** Entry `v` of the page tables of space `d` is set to `w`. */
  ghost predicate EntryStored(mem: map<int, Page>, mem': map<int, Page>, role: map<int, Role>, d: int, v: nat, w: int) {
    && IsDir(mem, role, d) && v < NENTRIES * NENTRIES
    && var t := TableOf(mem, d, v / NENTRIES);
    && t != 0 && t in mem && t in role && role[t] == Table(d, v / NENTRIES)
    && mem' == mem[t := mem[t][v % NENTRIES := w]]
  }

  /** That store changes no other entry of any space, and no directory. */
  lemma StoredPte(mem: map<int, Page>, mem': map<int, Page>, role: map<int, Role>, d: int, v: nat, w: int, d': int,
      v': nat)
    requires SlotsOk(mem, role) && EntryStored(mem, mem', role, d, v, w)
    requires IsDir(mem, role, d') && v' < NENTRIES * NENTRIES
    ensures mem'[d'] == mem[d'] && TableOf(mem', d', v' / NENTRIES) == TableOf(mem, d', v' / NENTRIES)
    ensures Pte(mem', d', v') == if d' == d && v' == v then w else Pte(mem, d', v')
  {
    assert SlotOk(mem, role, d', v' / NENTRIES) && SlotOk(mem, role, d, v / NENTRIES);
  }

  /** The same for all entries. */
  ghost predicate SamePtes(mem: map<int, Page>, mem': map<int, Page>, role: map<int, Role>, d: int, v: int, w: int) {
    && mem'.Keys == mem.Keys
    && (forall d' :: IsDir(mem, role, d') ==> mem'[d'] == mem[d'])
    && (forall d', i :: IsDir(mem, role, d') && 0 <= i < NENTRIES ==> TableOf(mem', d', i) == TableOf(mem, d', i))
    && forall d', v' :: IsDir(mem, role, d') && 0 <= v' < NENTRIES * NENTRIES ==>
         Pte(mem', d', v') == if d' == d && v' == v then w else Pte(mem, d', v')
  }

  lemma StoredView(mem: map<int, Page>, mem': map<int, Page>, role: map<int, Role>, d: int, v: nat, w: int)
    requires SlotsOk(mem, role) && EntryStored(mem, mem', role, d, v, w)
    ensures SamePtes(mem, mem', role, d, v, w) && SlotsOk(mem', role)
  {
    hide Pte, TableOf;
    hide SlotsOk;
    forall d' | IsDir(mem, role, d')
      ensures mem'[d'] == mem[d']
    {
      StoredPte(mem, mem', role, d, v, w, d', 0);
    }
    forall d', i | IsDir(mem, role, d') && 0 <= i < NENTRIES
      ensures TableOf(mem', d', i) == TableOf(mem, d', i)
    {
      StoredPte(mem, mem', role, d, v, w, d', i * NENTRIES);
    }
    forall d', v' | IsDir(mem, role, d') && 0 <= v' < NENTRIES * NENTRIES
      ensures Pte(mem', d', v') == if d' == d && v' == v then w else Pte(mem, d', v')
    {
      StoredPte(mem, mem', role, d, v, w, d', v');
    }
    SlotsKept(mem, mem', role, d, v, w);
  }

  lemma SlotsKept(mem: map<int, Page>, mem': map<int, Page>, role: map<int, Role>, d: int, v: int, w: int)
    requires SlotsOk(mem, role) && SamePtes(mem, mem', role, d, v, w)
    ensures SlotsOk(mem', role)
  {
    hide Pte, TableOf;
    forall d', i | IsDir(mem', role, d') && 0 <= i < NENTRIES
      ensures SlotOk(mem', role, d', i)
    {
      assert SlotOk(mem, role, d', i);
    }
  }

  /** An entry outside the user part is set. */
  lemma KernelMapped(mem: map<int, Page>, mem': map<int, Page>, freelist: seq<int>, role: map<int, Role>, end: int,
                     d: int, v: nat, w: int)
    requires MachineOk(mem, freelist, role, end) && EntryStored(mem, mem', role, d, v, w) && v >= USERPAGES
    ensures MachineOk(mem', freelist, role, end)
    ensures SamePtes(mem, mem', role, d, v, w)
  {
    hide Pte, TableOf;
    StoredView(mem, mem', role, d, v, w);
    forall d', v' | IsDir(mem', role, d') && 0 <= v' < USERPAGES
      ensures MappingOk(mem', role, d', v')
    {
      assert MappingOk(mem, role, d', v');
    }
    forall f | f in role
      ensures HolderOk(mem', role, f)
    {
      assert HolderOk(mem, role, f);
    }
  }

  /** A held page is mapped at an unused user address. */
  lemma UserMapped(mem: map<int, Page>, mem': map<int, Page>, freelist: seq<int>, role: map<int, Role>, end: int,
                   d: int, v: nat, pa: int, flags: nat)
    requires MachineOk(mem, freelist, role, end) && EntryStored(mem, mem', role, d, v, pa + flags) && v < USERPAGES
    requires pa in mem && role[pa] == Held && flags < PGSIZE && flags % 2 == 1 && !Present(Pte(mem, d, v))
    ensures MachineOk(mem', freelist, role[pa := User(d, v)], end)
    ensures SamePtes(mem, mem', role, d, v, pa + flags)
  {
    hide Pte, TableOf, Present, PteAddr;
    var role' := role[pa := User(d, v)];
    StoredView(mem, mem', role, d, v, pa + flags);
    AddressOf(pa, flags);
    forall d' | IsDir(mem', role', d')
      ensures IsDir(mem, role, d')
    {
    }
    forall d', i | IsDir(mem', role', d') && 0 <= i < NENTRIES
      ensures SlotOk(mem', role', d', i)
    {
      assert SlotOk(mem', role, d', i);
    }
    forall d', v' | IsDir(mem', role', d') && 0 <= v' < USERPAGES
      ensures MappingOk(mem', role', d', v')
    {
      assert MappingOk(mem, role, d', v');
    }
    forall f | f in role'
      ensures HolderOk(mem', role', f)
    {
      assert HolderOk(mem, role, f);
    }
  }

  /** A user page is unmapped and freed. */
  lemma UserFreed(mem: map<int, Page>, mem': map<int, Page>, freelist: seq<int>, role: map<int, Role>, end: int,
                  d: int, v: nat, f: int)
    requires MachineOk(mem, freelist, role, end) && v < USERPAGES && f in mem && role[f] == User(d, v)
    requires EntryStored(mem[f := Filled(JUNK)], mem', role, d, v, 0)
    ensures MachineOk(mem', [f] + freelist, role[f := Free], end)
    ensures SamePtes(mem, mem', role, d, v, 0)
  {
    var mem1, role' := mem[f := Filled(JUNK)], role[f := Free];
    DataWritten(mem, mem1, role, f);
    hide Pte, TableOf, Present, PteAddr;
    StoredView(mem1, mem', role, d, v, 0);
    assert HolderOk(mem, role, f);
    forall d' | IsDir(mem', role', d')
      ensures IsDir(mem, role, d')
    {
    }
    forall d', i | IsDir(mem', role', d') && 0 <= i < NENTRIES
      ensures SlotOk(mem', role', d', i)
    {
      assert SlotOk(mem', role, d', i);
    }
    forall d', v' | IsDir(mem', role', d') && 0 <= v' < USERPAGES
      ensures MappingOk(mem', role', d', v')
    {
      assert MappingOk(mem, role, d', v');
      ZeroIsAbsent();
    }
    forall g | g in role'
      ensures HolderOk(mem', role', g)
    {
      assert HolderOk(mem, role, g);
    }
    assert FreeListOk(mem', [f] + freelist, role');
  }

  lemma ZeroIsAbsent()
    ensures !Present(0)
  {
  }

  /** Writing a page that is neither a directory nor a table changes no translation. */
  lemma DataWritten(mem: map<int, Page>, mem': map<int, Page>, role: map<int, Role>, f: int)
    requires SlotsOk(mem, role) && f in mem && f in role && !role[f].Dir? && !role[f].Table?
    requires mem'.Keys == mem.Keys && forall g :: g in mem && g != f ==> mem'[g] == mem[g]
    ensures SamePtes(mem, mem', role, 0, -1, 0) && SlotsOk(mem', role)
  {
    forall d', v' | IsDir(mem, role, d') && 0 <= v' < NENTRIES * NENTRIES
      ensures Pte(mem', d', v') == Pte(mem, d', v')
    {
      assert SlotOk(mem, role, d', v' / NENTRIES);
    }
    SlotsKept(mem, mem', role, 0, -1, 0);
  }

  /** A free page becomes a table of directory `d`; every translation stays. */
  lemma TableAdded(mem: map<int, Page>, mem': map<int, Page>, freelist: seq<int>, role: map<int, Role>, end: int,
      d: int, i: nat)
    requires MachineOk(mem, freelist, role, end) && IsDir(mem, role, d) && i < NENTRIES
    requires !Present(mem[d][i]) && |freelist| > 0
    requires mem' == mem[freelist[0] := Filled(0)][d := mem[d][i := freelist[0] + PTE_P + PTE_W + PTE_U]]
    ensures MachineOk(mem', freelist[1..], role[freelist[0] := Table(d, i)], end)
    ensures TableOf(mem', d, i) == freelist[0] != d
    ensures forall j :: 0 <= j < NENTRIES && j != i ==> TableOf(mem', d, j) == TableOf(mem, d, j)
    ensures forall d', v :: IsDir(mem, role, d') && 0 <= v < NENTRIES * NENTRIES ==> Pte(mem', d', v) == Pte(mem, d', v)
  {
    var t := freelist[0];
    var role' := role[t := Table(d, i)];
    AddressOf(t, 7);
    assert t in mem && role[t] == Free;
    forall d', j | IsDir(mem, role, d') && 0 <= j < NENTRIES && !(d' == d && j == i)
      ensures TableOf(mem', d', j) == TableOf(mem, d', j)
    {
    }
    forall d', v | IsDir(mem, role, d') && 0 <= v < NENTRIES * NENTRIES
      ensures Pte(mem', d', v) == Pte(mem, d', v)
    {
      ZeroIsAbsent();
      assert SlotOk(mem, role, d', v / NENTRIES);
    }
    assert FreeListOk(mem', freelist[1..], role');
    hide Pte, TableOf, Present, PteAddr;
    forall d', j | IsDir(mem', role', d') && 0 <= j < NENTRIES
      ensures SlotOk(mem', role', d', j)
    {
      assert SlotOk(mem, role, d', j);
    }
    forall d', v' | IsDir(mem', role', d') && 0 <= v' < USERPAGES
      ensures MappingOk(mem', role', d', v')
    {
      assert MappingOk(mem, role, d', v');
    }
    forall g | g in role'
      ensures HolderOk(mem', role', g)
    {
      assert HolderOk(mem, role, g);
    }
  }

  /** A free page becomes an empty directory. */
  lemma DirAdded(mem: map<int, Page>, mem': map<int, Page>, freelist: seq<int>, role: map<int, Role>, end: int)
    requires MachineOk(mem, freelist, role, end) && |freelist| > 0 && mem' == mem[freelist[0] := Filled(0)]
    ensures MachineOk(mem', freelist[1..], role[freelist[0] := Dir(freelist[0])], end)
    ensures forall d', v :: IsDir(mem, role, d') && 0 <= v < NENTRIES * NENTRIES ==> Pte(mem', d', v) == Pte(mem, d', v)
    ensures forall i :: 0 <= i < NENTRIES ==> TableOf(mem', freelist[0], i) == 0
    ensures forall v :: 0 <= v < NENTRIES * NENTRIES ==> Pte(mem', freelist[0], v) == 0
  {
    var t := freelist[0];
    var role' := role[t := Dir(t)];
    assert t in mem && role[t] == Free;
    DataWritten(mem, mem', role, t);
    ZeroIsAbsent();
    assert FreeListOk(mem', freelist[1..], role');
    forall i | 0 <= i < NENTRIES
      ensures TableOf(mem', t, i) == 0
    {
    }
    forall v | 0 <= v < NENTRIES * NENTRIES
      ensures Pte(mem', t, v) == 0
    {
      assert TableOf(mem', t, v / NENTRIES) == 0;
    }
    hide Pte, TableOf, Present, PteAddr;
    forall d', j | IsDir(mem', role', d') && 0 <= j < NENTRIES
      ensures SlotOk(mem', role', d', j)
    {
      if d' != t {
        assert SlotOk(mem, role, d', j);
      }
    }
    forall d', v' | IsDir(mem', role', d') && 0 <= v' < USERPAGES
      ensures MappingOk(mem', role', d', v')
    {
      if d' != t {
        assert MappingOk(mem, role, d', v');
      }
    }
    forall g | g in role'
      ensures HolderOk(mem', role', g)
    {
      assert HolderOk(mem, role, g);
    }
  }

  /** The page-aligned addresses from `e` up to the end of memory. */
  ghost function Frames(e: int): set<int> {
    set f | e <= f < PHYSTOP && f % PGSIZE == 0
  }

  lemma FramesBelow(e: int, p: int)
    requires e <= p && p % PGSIZE == 0
    ensures p < PHYSTOP <==> p + PGSIZE <= PHYSTOP
    ensures p in Frames(e) <==> p < PHYSTOP
    ensures forall f :: f in Frames(e) ==> f < PHYSTOP
    ensures forall f :: f in Frames(e) && f < p + PGSIZE <==> (f in Frames(e) && f < p) || (f == p && p < PHYSTOP)
  {
  }

  /** The virtual pages from the one of address `la` to the one of the last of `size` bytes. */
  function FirstPage(la: nat): nat {
    la / PGSIZE
  }

  function EndPage(la: nat, size: nat): (hi: nat)
    requires size > 0
    ensures FirstPage(la) < hi && (la + size <= TWO_32 ==> hi <= NENTRIES * NENTRIES)
  {
    (la + size - 1) / PGSIZE + 1
  }

  /** How many tables the virtual pages [lo, hi) still need. */
  ghost function TablesNeeded(mem: map<int, Page>, d: int, lo: nat, hi: nat): nat
    requires d in mem && lo < hi <= NENTRIES * NENTRIES
  {
    Missing(mem, d, lo / NENTRIES, (hi - 1) / NENTRIES + 1)
  }

  /** The virtual pages [lo, hi) of space `d` are mapped to consecutive pages from `pa`. */
  ghost predicate MappedTo(mem: map<int, Page>, d: int, lo: nat, hi: nat, pa: int, flags: int)
    requires d in mem && hi <= NENTRIES * NENTRIES
  {
    forall v :: lo <= v < hi ==> Pte(mem, d, v) == pa + (v - lo) * PGSIZE + flags
  }

  ghost predicate Unmapped(mem: map<int, Page>, d: int, lo: nat, hi: nat)
    requires d in mem && hi <= NENTRIES * NENTRIES
  {
    forall v :: lo <= v < hi ==> !Present(Pte(mem, d, v))
  }

  /** The only change of roles is that free pages became tables of `d`. */
  ghost predicate TablesGrew(role: map<int, Role>, role': map<int, Role>, d: int) {
    && role'.Keys == role.Keys
    && forall f :: f in role && role'[f] != role[f] ==> role[f].Free? && role'[f].Table? && role'[f].space == d
  }

  /** Only tables and the directory of `d`, and free pages, were written. */
  ghost predicate OnlyTablesWritten(mem: map<int, Page>, role: map<int, Role>, mem': map<int, Page>, d: int) {
    && mem'.Keys == mem.Keys == role.Keys
    && forall f :: f in mem && (role[f].Held? || role[f].User? || !FreeOrOf(role[f], d)) ==> mem'[f] == mem[f]
  }

  /** The slots [i, j) of directory `d` are the only ones that changed, and no table went. */
  ghost predicate SlotsGrew(mem: map<int, Page>, mem': map<int, Page>, d: int, i: int, j: int)
    requires d in mem && d in mem'
  {
    forall k :: 0 <= k < NENTRIES && (TableOf(mem, d, k) != 0 || !(i <= k < j)) ==>
        TableOf(mem', d, k) == TableOf(mem, d, k)
  }

  /** Of the pages [lo, hi), those below `v` are mapped, with their tables. */
  ghost predicate MappedSoFar(mem0: map<int, Page>, mem: map<int, Page>, role: map<int, Role>, d: int, lo: nat, v: nat,
      hi: nat, pa: int, flags: int) {
    && IsDir(mem0, role, d) && mem.Keys == mem0.Keys && lo <= v <= hi <= NENTRIES * NENTRIES && lo < hi
    && Unmapped(mem, d, v, hi) && MappedTo(mem, d, lo, v, pa, flags)
    && PtesKept(mem0, mem, role, d, lo, v)
    && SlotsGrew(mem0, mem, d, lo / NENTRIES, (hi - 1) / NENTRIES + 1)
    && forall k :: lo / NENTRIES <= k < (hi - 1) / NENTRIES + 1 && v > lo && k * NENTRIES < v ==>
       TableOf(mem, d, k) != 0
  }

  lemma MappingStarts(mem: map<int, Page>, role: map<int, Role>, d: int, lo: nat, hi: nat, pa: int, flags: int)
    requires IsDir(mem, role, d) && lo < hi <= NENTRIES * NENTRIES && Unmapped(mem, d, lo, hi) && role.Keys == mem.Keys
    ensures MappedSoFar(mem, mem, role, d, lo, lo, hi, pa, flags)
    ensures TablesGrew(role, role, d) && OnlyTablesWritten(mem, role, mem, d)
  {
  }

  lemma MappingReady(mem0: map<int, Page>, mem: map<int, Page>, role0: map<int, Role>, role: map<int, Role>,
                     d: int, lo: nat, v: nat, hi: nat, pa: int, flags: int)
    requires MappedSoFar(mem0, mem, role0, d, lo, v, hi, pa, flags) && v < hi && TablesGrew(role0, role, d)
    ensures !Present(Pte(mem, d, v))
    ensures pa in mem0 && pa in role0 && role0[pa] == Held ==> pa in mem && pa in role && role[pa] == Held
  {
  }

  lemma MappingStops(mem0: map<int, Page>, mem: map<int, Page>, role0: map<int, Role>, d: int, lo: nat, v: nat, hi: nat,
      pa: int, flags: int)
    requires MappedSoFar(mem0, mem, role0, d, lo, v, hi, pa, flags) && v < hi && TableOf(mem, d, v / NENTRIES) == 0
    ensures PtesKept(mem0, mem, role0, d, lo, hi) && SlotsGrew(mem0, mem, d, lo / NENTRIES, (hi - 1) / NENTRIES + 1)
    ensures TablesNeeded(mem, d, lo, hi) > 0
  {
    MissingBounds(mem, d, lo / NENTRIES, (hi - 1) / NENTRIES + 1);
  }

  lemma MappingDone(mem0: map<int, Page>, mem: map<int, Page>, role0: map<int, Role>, d: int, lo: nat, hi: nat, pa: int,
      flags: int)
    requires MappedSoFar(mem0, mem, role0, d, lo, hi, hi, pa, flags)
    ensures MappedTo(mem, d, lo, hi, pa, flags) && TablesNeeded(mem, d, lo, hi) == 0
    ensures PtesKept(mem0, mem, role0, d, lo, hi) && SlotsGrew(mem0, mem, d, lo / NENTRIES, (hi - 1) / NENTRIES + 1)
  {
    MissingBounds(mem, d, lo / NENTRIES, (hi - 1) / NENTRIES + 1);
  }

  lemma GrewMore(mem0: map<int, Page>, mem1: map<int, Page>, mem2: map<int, Page>,
                 role0: map<int, Role>, role1: map<int, Role>, role2: map<int, Role>, d: int, v: nat, pa: int)
    requires TablesGrew(role0, role1, d) && OnlyTablesWritten(mem0, role0, mem1, d)
        && OnlyTablesWritten(mem1, role1, mem2, d)
    requires v < USERPAGES ==> pa in role0 && role0[pa] == Held
    requires TablesGrew(if v < USERPAGES then role1[pa := User(d, v)] else role1, role2, d)
    ensures TablesGrew(if v < USERPAGES then role0[pa := User(d, v)] else role0, role2, d)
    ensures OnlyTablesWritten(mem0, role0, mem2, d)
  {
  }

  /** Mapping page `v` adds it to those mapped. */
  lemma PageAdded(mem0: map<int, Page>, mem: map<int, Page>, mem': map<int, Page>, role0: map<int, Role>,
                  role: map<int, Role>, d: int, lo: nat, v: nat, hi: nat, pa: int, flags: int)
    requires MappedSoFar(mem0, mem, role0, d, lo, v, hi, pa, flags) && v < hi
    requires TablesGrew(role0, role, d) && role.Keys == mem.Keys
    requires PtesKept(mem, mem', role, d, v, v + 1) && SlotsGrew(mem, mem', d, v / NENTRIES, v / NENTRIES + 1)
    requires Pte(mem', d, v) == pa + (v - lo) * PGSIZE + flags && TableOf(mem', d, v / NENTRIES) != 0
    ensures MappedSoFar(mem0, mem', role0, d, lo, v + 1, hi, pa, flags)
    ensures var s0, s1 := lo / NENTRIES, (hi - 1) / NENTRIES + 1;
            Missing(mem', d, s0, s1) == Missing(mem, d, s0, s1) - if TableOf(mem, d, v / NENTRIES) == 0 then 1 else 0
  {
    hide Pte, TableOf, Present;
    var s0, s1 := lo / NENTRIES, (hi - 1) / NENTRIES + 1;
    if TableOf(mem, d, v / NENTRIES) == 0 {
      MissingDrops(mem, mem', d, s0, s1, v / NENTRIES);
    } else {
      MissingSame(mem, mem', d, s0, s1);
    }
  }

  // ----- the kernel part

  /** One line of kmap: addresses from `p` up to `e`, which wraps around to 0. */
  datatype Kmap = Kmap(p: nat, e: nat, perm: nat) {
    function Size(): int {
      (e - p) % TWO_32
    }
  }

  function KernelMap(data: nat): (ks: seq<Kmap>)
    ensures |ks| == 4
  {
    [Kmap(USERTOP, 0x10_0000, PTE_W), Kmap(0x10_0000, data, 0), Kmap(data, PHYSTOP, PTE_W), Kmap(DEVSPACE, 0, PTE_W)]
  }

  predicate DataOk(data: int) {
    0x10_0000 < data < PHYSTOP && data % PGSIZE == 0
  }

  /** The entry that every address space has for virtual page `v` before it has user pages:
      the kernel sees each address at itself, and may not write its own text. */
  function KernelEntry(data: nat, v: nat): int {
    if v < USERPAGES || PHYSTOP / PGSIZE <= v < DEVSPACE / PGSIZE then 0
    else if 0x10_0000 / PGSIZE <= v < data / PGSIZE then v * PGSIZE + PTE_P
    else v * PGSIZE + PTE_W + PTE_P
  }

  const KERNEL_PAGES := 13          // a directory, 4 tables for memory and 8 for devices

  /** The first `k` lines of kmap cover the pages below this one, with this many tables. */
  function KernelUpTo(data: nat, k: nat): nat
    requires k <= 4
  {
    [USERPAGES, 0x10_0000 / PGSIZE, data / PGSIZE, PHYSTOP / PGSIZE, NENTRIES * NENTRIES][k]
  }

  function KernelSlots(data: nat, k: nat): nat
    requires k <= 3
  {
    if k == 0 then 0 else (KernelUpTo(data, k) - 1) / NENTRIES + 1
  }

  lemma KmapLine(data: nat, k: nat)
    requires DataOk(data) && k < 4
    ensures var e := KernelMap(data)[k];
            && 0 < e.Size() && e.p + e.Size() <= TWO_32 && e.p % PGSIZE == 0 && e.perm in {0, PTE_W}
            && e.p == FirstPage(e.p) * PGSIZE
               && FirstPage(e.p) == (if k < 3 then KernelUpTo(data, k) else DEVSPACE / PGSIZE)
            && EndPage(e.p, e.Size()) == KernelUpTo(data, k + 1)
            && KernelUpTo(data, k) <= FirstPage(e.p) && USERPAGES <= FirstPage(e.p)
            && (forall v :: FirstPage(e.p) <= v < KernelUpTo(data, k + 1) ==>
               KernelEntry(data, v) == v * PGSIZE + e.perm + PTE_P)
            && (forall v :: KernelUpTo(data, k) <= v < FirstPage(e.p) ==> KernelEntry(data, v) == 0)
    ensures k < 3 ==> KernelSlots(data, k) <= KernelSlots(data, k + 1) <= 4
    ensures k == 3 ==> KernelSlots(data, 3) == 4 && DEVSPACE / PGSIZE / NENTRIES == 1016
  {
    assert data == data / PGSIZE * PGSIZE;
  }

  ghost predicate KernelSoFar(mem: map<int, Page>, d: int, data: nat, k: nat) {
    && d in mem && k <= 4
    && (forall v :: 0 <= v < NENTRIES * NENTRIES ==>
       Pte(mem, d, v) == if v < KernelUpTo(data, k) then KernelEntry(data, v) else 0)
    && (k <= 3 ==> forall i :: 0 <= i < NENTRIES ==> (TableOf(mem, d, i) != 0 <==> i < KernelSlots(data, k)))
    && (k > 0 ==> TableOf(mem, d, 0) != 0)
  }

  lemma {:induction false} MissingFrom(mem: map<int, Page>, d: int, i: nat, m: nat, j: nat)
    requires d in mem && i <= m <= j <= NENTRIES
    requires forall k :: i <= k < j ==> (TableOf(mem, d, k) == 0 <==> k >= m)
    ensures Missing(mem, d, i, j) == j - m
  {
    if i < j {
      MissingFrom(mem, d, i, if m == j then m - 1 else m, j - 1);
    }
  }

  lemma NothingMapped(mem: map<int, Page>, d: int, data: nat)
    requires d in mem && forall i :: 0 <= i < NENTRIES ==> TableOf(mem, d, i) == 0
    ensures KernelSoFar(mem, d, data, 0)
  {
  }

  /** What line `k` of kmap needs. */
  lemma KernelNeeds(mem: map<int, Page>, d: int, data: nat, k: nat)
    requires DataOk(data) && k < 4 && KernelSoFar(mem, d, data, k)
    ensures var e := KernelMap(data)[k];
            && 0 < e.Size() && e.p + e.Size() <= TWO_32
            && Unmapped(mem, d, FirstPage(e.p), EndPage(e.p, e.Size()))
            && TablesNeeded(mem, d, FirstPage(e.p), EndPage(e.p, e.Size()))
               == if k < 3 then KernelSlots(data, k + 1) - KernelSlots(data, k) else 8
  {
    hide Pte, TableOf, KernelMap, Unmapped;
    KmapLine(data, k);
    var e := KernelMap(data)[k];
    var lo, hi := FirstPage(e.p), EndPage(e.p, e.Size());
    assert Unmapped(mem, d, lo, hi) by { NothingBeyond(mem, d, data, k, lo, hi); }
    if k < 3 {
      MissingFrom(mem, d, lo / NENTRIES, KernelSlots(data, k), (hi - 1) / NENTRIES + 1);
    } else {
      MissingFrom(mem, d, lo / NENTRIES, lo / NENTRIES, (hi - 1) / NENTRIES + 1);
    }
  }

  lemma NothingBeyond(mem: map<int, Page>, d: int, data: nat, k: nat, lo: nat, hi: nat)
    requires KernelSoFar(mem, d, data, k) && KernelUpTo(data, k) <= lo <= hi <= NENTRIES * NENTRIES
    ensures Unmapped(mem, d, lo, hi)
  {
  }

  /** Mapping line `k` of kmap. */
  lemma KernelStep(mem: map<int, Page>, mem': map<int, Page>, role: map<int, Role>, d: int, data: nat, k: nat)
    requires DataOk(data) && k < 4 && KernelSoFar(mem, d, data, k) && IsDir(mem, role, d)
    requires var e := KernelMap(data)[k];
             && 0 < e.Size() && e.p + e.Size() <= TWO_32
             && var lo, hi := FirstPage(e.p), EndPage(e.p, e.Size());
             && d in mem' && hi <= NENTRIES * NENTRIES
             && MappedTo(mem', d, lo, hi, e.p, e.perm + PTE_P) && TablesNeeded(mem', d, lo, hi) == 0
             && PtesKept(mem, mem', role, d, lo, hi) && SlotsGrew(mem, mem', d, lo / NENTRIES, (hi - 1) / NENTRIES + 1)
    ensures KernelSoFar(mem', d, data, k + 1)
  {
    hide Pte, TableOf, KernelMap, KernelEntry;
    KmapLine(data, k);
    var e := KernelMap(data)[k];
    var lo, hi := FirstPage(e.p), EndPage(e.p, e.Size());
    MissingBounds(mem', d, lo / NENTRIES, (hi - 1) / NENTRIES + 1);
    forall v | 0 <= v < NENTRIES * NENTRIES
      ensures Pte(mem', d, v) == if v < KernelUpTo(data, k + 1) then KernelEntry(data, v) else 0
    {
      if lo <= v < hi {
        assert Pte(mem', d, v) == e.p + (v - lo) * PGSIZE + (e.perm + PTE_P);
      } else {
        assert Pte(mem', d, v) == Pte(mem, d, v);
      }
    }
  }

  /** No page belongs to space `d`. */
  ghost predicate Fresh(role: map<int, Role>, d: int) {
    forall f :: f in role ==> !InSpace(role[f], d)
  }

  lemma FreePageIsFresh(mem: map<int, Page>, freelist: seq<int>, role: map<int, Role>, end: int)
    requires MachineOk(mem, freelist, role, end) && |freelist| > 0
    ensures freelist[0] in mem && freelist[0] in role && role[freelist[0]] == Free && Fresh(role, freelist[0])
        && freelist[0] != 0
    ensures freelist[0] !in freelist[1..]
  {
  }

  /** Mapping into a space that came from free pages takes only free pages. */
  lemma SpaceGrewMore(mem: map<int, Page>, role: map<int, Role>, mem1: map<int, Page>, role1: map<int, Role>,
                      mem2: map<int, Page>, role2: map<int, Role>, d: int, lo: nat, hi: nat)
    requires SpaceGrew(mem, role, mem1, role1, d) && PtesKept(mem, mem1, role, 0, 0, 0)
    requires TakenBy(role1, role2, d) && OnlyTablesWritten(mem1, role1, mem2, d)
    requires PtesKept(mem1, mem2, role1, d, lo, hi) && d in role && role[d] == Free
    requires Fresh(role, d)
    ensures SpaceGrew(mem, role, mem2, role2, d) && PtesKept(mem, mem2, role, 0, 0, 0)
  {
  }

  lemma TablesTaken(role: map<int, Role>, role': map<int, Role>, d: int)
    requires TablesGrew(role, role', d)
    ensures TakenBy(role, role', d)
  {
  }

  // ----- the user part

  /** The number of pages that `sz` bytes reach into. */
  function Pages(sz: nat): nat {
    (sz + PGSIZE - 1) / PGSIZE
  }

  lemma PageStarts(v: nat, sz: nat)
    ensures v * PGSIZE < sz <==> v < Pages(sz)
    ensures v * PGSIZE % PGSIZE == 0 && v * PGSIZE / PGSIZE == v
  {
  }

  lemma PagesOrdered(a: nat, b: nat)
    requires a <= b
    ensures Pages(a) <= Pages(b)
  {
  }

  lemma PagesFit(sz: nat)
    requires sz <= USERTOP
    ensures Pages(sz) <= USERPAGES
  {
  }

  /** No table of `d` came or went. */
  ghost predicate SameTables(mem: map<int, Page>, mem': map<int, Page>, d: int) {
    d in mem && d in mem' && forall i :: 0 <= i < NENTRIES ==> TableOf(mem', d, i) == TableOf(mem, d, i)
  }

  /** Reading the entry through its table. */
  lemma EntryRead(mem: map<int, Page>, d: int, v: nat)
    requires d in mem && v < NENTRIES * NENTRIES
    ensures var t := TableOf(mem, d, v / NENTRIES);
            t != 0 && t in mem ==> Pte(mem, d, v) == mem[t][v % NENTRIES]
    ensures TableOf(mem, d, v / NENTRIES) == 0 ==> !Present(Pte(mem, d, v))
  {
  }

  lemma ZeroIsNoFrame(mem: map<int, Page>, end: int)
    requires FramesOk(mem, end)
    ensures 0 !in mem
  {
  }

  /** Mapping more pages leaves the contents of user page `v` of `p`. */
  lemma UserPageKept(mem: map<int, Page>, role: map<int, Role>, mem': map<int, Page>, d: int, p: int, v: nat,
      contents: Page)
    requires MappingsOk(mem, role) && IsDir(mem, role, p) && v < USERPAGES && UserPage(mem, p, v, contents)
    requires OnlyTablesWritten(mem, role, mem', d) && p in mem' && Pte(mem', p, v) == Pte(mem, p, v)
    ensures UserPage(mem', p, v, contents)
  {
    hide Pte;
    assert MappingOk(mem, role, p, v);
  }

  lemma MoreFilled(mem: map<int, Page>, role: map<int, Role>, mem': map<int, Page>, d: int, lo: nat, v: nat,
      contents: Page)
    requires MappingsOk(mem, role) && IsDir(mem, role, d) && lo <= v < USERPAGES && FilledWith(mem, d, lo, v, contents)
    requires OnlyTablesWritten(mem, role, mem', d) && PtesKept(mem, mem', role, d, v, v + 1)
    requires UserPage(mem', d, v, contents)
    ensures FilledWith(mem', d, lo, v + 1, contents)
  {
    hide Pte, UserPage;
    forall u | lo <= u < v
      ensures UserPage(mem', d, u, contents)
    {
      UserPageKept(mem, role, mem', d, d, u, contents);
    }
  }

  /** The contents of virtual page `v` of `d`. */
  ghost function PageAt(mem: map<int, Page>, d: int, v: nat): Page
    requires d in mem && v < NENTRIES * NENTRIES
  {
    if PteAddr(Pte(mem, d, v)) in mem then mem[PteAddr(Pte(mem, d, v))] else Filled(0)
  }

  ghost predicate Mapped(mem: map<int, Page>, d: int, lo: nat, hi: nat)
    requires d in mem && hi <= NENTRIES * NENTRIES
  {
    forall v :: lo <= v < hi ==> Present(Pte(mem, d, v))
  }

  /** The user pages [lo, hi) of `d` hold what those of `p` hold. */
  ghost predicate Copied(mem: map<int, Page>, p: int, d: int, lo: nat, hi: nat)
    requires p in mem && d in mem && hi <= NENTRIES * NENTRIES
  {
    forall v :: lo <= v < hi ==> UserPage(mem, d, v, PageAt(mem, p, v))
  }

  lemma PageAtKept(mem: map<int, Page>, role: map<int, Role>, mem': map<int, Page>, d: int, p: int, v: nat)
    requires MappingsOk(mem, role) && IsDir(mem, role, p) && v < USERPAGES && Present(Pte(mem, p, v))
    requires OnlyTablesWritten(mem, role, mem', d) && p in mem' && Pte(mem', p, v) == Pte(mem, p, v)
    ensures PageAt(mem', p, v) == PageAt(mem, p, v)
  {
    hide Pte;
    assert MappingOk(mem, role, p, v);
  }

  lemma UserPageMade(mem: map<int, Page>, d: int, v: nat, f: int, contents: Page)
    requires d in mem && v < NENTRIES * NENTRIES && f % PGSIZE == 0 && f in mem && mem[f] == contents
    requires Pte(mem, d, v) == f + PTE_U + PTE_W + PTE_P
    ensures UserPage(mem, d, v, contents)
  {
    hide Pte, Present, PteAddr;
    AddressOf(f, PTE_U + PTE_W + PTE_P);
  }

  lemma PageThere(mem: map<int, Page>, role: map<int, Role>, p: int, v: nat)
    requires MappingsOk(mem, role) && IsDir(mem, role, p) && v < USERPAGES && Present(Pte(mem, p, v))
    ensures PteAddr(Pte(mem, p, v)) in mem && PageAt(mem, p, v) == mem[PteAddr(Pte(mem, p, v))]
  {
    assert MappingOk(mem, role, p, v);
  }

  lemma MoreCopied(mem: map<int, Page>, role: map<int, Role>, mem': map<int, Page>, p: int, d: int, lo: nat, v: nat)
    requires MappingsOk(mem, role) && IsDir(mem, role, d) && IsDir(mem, role, p) && p != d && lo <= v < USERPAGES
    requires Mapped(mem, p, lo, v + 1) && Copied(mem, p, d, lo, v)
    requires OnlyTablesWritten(mem, role, mem', d) && PtesKept(mem, mem', role, d, v, v + 1)
    requires UserPage(mem', d, v, PageAt(mem, p, v))
    ensures Copied(mem', p, d, lo, v + 1)
  {
    hide Pte, UserPage, PageAt;
    forall u | lo <= u <= v
      ensures UserPage(mem', d, u, PageAt(mem', p, u))
    {
      PageAtKept(mem, role, mem', d, p, u);
      if u < v {
        UserPageKept(mem, role, mem', d, d, u, PageAt(mem, p, u));
      }
    }
  }

  /** User pages taken one after the other. */
  lemma PageInRange(mem: map<int, Page>, p: int, d: int, lo: nat, v: nat, hi: nat)
    requires p in mem && d in mem && lo <= v < hi <= NENTRIES * NENTRIES && Mapped(mem, p, lo, hi)
        && Unmapped(mem, d, v, hi)
    ensures Present(Pte(mem, p, v)) && !Present(Pte(mem, d, v)) && Mapped(mem, p, lo, v + 1)
  {
    hide Pte;
  }

  /** The pages still to be copied are as they were once page `v` of `d` is there. */
  lemma RangeGoesOn(mem: map<int, Page>, role: map<int, Role>, mem': map<int, Page>, p: int, d: int, lo: nat, v: nat,
      hi: nat)
    requires IsDir(mem, role, p) && IsDir(mem, role, d) && p != d && lo <= v < hi <= NENTRIES * NENTRIES
    requires Mapped(mem, p, lo, hi) && Unmapped(mem, d, v, hi) && PtesKept(mem, mem', role, d, v, v + 1)
    requires TableOf(mem, d, 0) != 0 && d in mem' && SameTables(mem, mem', d)
    ensures Mapped(mem', p, lo, hi) && Unmapped(mem', d, v + 1, hi) && TableOf(mem', d, 0) != 0
  {
    hide Pte;
  }

  /** What was done up to page `v` was done within the range. */
  lemma RangeEnds(mem: map<int, Page>, role: map<int, Role>, mem': map<int, Page>, role': map<int, Role>, p: int,
                  d: int, lo: nat, v: nat, hi: nat)
    requires p in mem' && d in mem' && v <= NENTRIES * NENTRIES && hi <= NENTRIES * NENTRIES && (v <= hi || v == lo)
    requires UsersGrew(role, role', d, lo, v) && PtesKept(mem, mem', role, d, lo, v) && Copied(mem', p, d, lo, v)
    ensures UsersGrew(role, role', d, lo, hi) && PtesKept(mem, mem', role, d, lo, hi)
    ensures v >= hi ==> Copied(mem', p, d, lo, hi)
  {
    hide Pte, UserPage, PageAt;
  }

  lemma PageMissing(mem: map<int, Page>, d: int, v: nat, hi: nat)
    requires d in mem && v < hi <= NENTRIES * NENTRIES && Unmapped(mem, d, v, hi)
    ensures !Present(Pte(mem, d, v))
  {
    hide Pte;
  }

  lemma RestUnmapped(mem: map<int, Page>, role: map<int, Role>, mem': map<int, Page>, d: int, v: nat, hi: nat)
    requires IsDir(mem, role, d) && v < hi <= NENTRIES * NENTRIES && Unmapped(mem, d, v, hi)
    requires PtesKept(mem, mem', role, d, v, v + 1) && TableOf(mem, d, 0) != 0 && SameTables(mem, mem', d)
    ensures Unmapped(mem', d, v + 1, hi) && TableOf(mem', d, 0) != 0
  {
    hide Pte;
  }

  /** Where a range of pages is to be filled, nothing is done yet. */
  lemma DirsMatch(mem: map<int, Page>, role: map<int, Role>, d: int, lo: nat, hi: nat)
    requires d in mem && mem.Keys == role.Keys
    ensures lo <= NENTRIES * NENTRIES ==> FilledWith(mem, d, lo, lo, Filled(0))
    ensures UsersGrew(role, role, d, lo, lo) && OnlyTablesWritten(mem, role, mem, d)
    ensures PtesKept(mem, mem, role, d, lo, lo) && SameTables(mem, mem, d) && PtesKept(mem, mem, role, d, lo, hi)
  {
  }

  lemma OneUser(role: map<int, Role>, role': map<int, Role>, d: int, v: nat, f: int)
    requires f in role && role[f] == Free && role' == role[f := User(d, v)]
    ensures UsersGrew(role, role', d, v, v + 1)
  {
  }

  lemma UsersGrewMore(mem: map<int, Page>, role: map<int, Role>, mem1: map<int, Page>, role1: map<int, Role>,
                      mem2: map<int, Page>, role2: map<int, Role>, d: int, lo: nat, v: nat)
    requires UsersGrew(role, role1, d, lo, v) && UsersGrew(role1, role2, d, v, v + 1) && lo <= v
    requires OnlyTablesWritten(mem, role, mem1, d) && OnlyTablesWritten(mem1, role1, mem2, d)
    requires PtesKept(mem, mem1, role, d, lo, v) && PtesKept(mem1, mem2, role1, d, v, v + 1)
    requires SameTables(mem, mem1, d) && SameTables(mem1, mem2, d) && role.Keys == mem.Keys
    ensures UsersGrew(role, role2, d, lo, v + 1) && OnlyTablesWritten(mem, role, mem2, d)
    ensures PtesKept(mem, mem2, role, d, lo, v + 1) && SameTables(mem, mem2, d)
  {
  }

  /** User pages dropped one after the other. */
  lemma DroppedMore(mem: map<int, Page>, role: map<int, Role>, mem1: map<int, Page>, role1: map<int, Role>,
                    mem2: map<int, Page>, role2: map<int, Role>, d: int, lo: nat, v: nat)
    requires Dropped(mem, role, mem1, role1, d, lo, v) && lo <= v < NENTRIES * NENTRIES && IsDir(mem1, role1, d)
        && d in mem2
    requires role2 == UsersFreed(role1, d, v, v + 1) && !Present(Pte(mem2, d, v))
    requires PtesKept(mem1, mem2, role1, d, v, v + 1) && DataKept(mem1, role1, mem2, role2, d)
        && SameTables(mem1, mem2, d)
    ensures Dropped(mem, role, mem2, role2, d, lo, v + 1)
  {
    hide Pte, TableOf, Present, PteAddr;
    assert role2 == UsersFreed(role, d, lo, v + 1);
  }

  /** The user pages [lo, v) of `d` have been unmapped and freed. */
  ghost predicate Dropped(mem: map<int, Page>, role: map<int, Role>, mem': map<int, Page>, role': map<int, Role>,
      d: int, lo: nat, v: nat) {
    && d in mem' && v <= NENTRIES * NENTRIES && Unmapped(mem', d, lo, v)
    && role' == UsersFreed(role, d, lo, v)
    && PtesKept(mem, mem', role, d, lo, v) && DataKept(mem, role, mem', role', d) && SameTables(mem, mem', d)
  }

  lemma DroppedAll(mem: map<int, Page>, role: map<int, Role>, mem': map<int, Page>, role': map<int, Role>, d: int,
      lo: nat, v: nat)
    requires Dropped(mem, role, mem', role', d, lo, v)
    ensures d in mem' && v <= NENTRIES * NENTRIES && Unmapped(mem', d, lo, v) && role' == UsersFreed(role, d, lo, v)
    ensures PtesKept(mem, mem', role, d, lo, v) && DataKept(mem, role, mem', role', d) && SameTables(mem, mem', d)
  {
  }

  lemma NothingDropped(mem: map<int, Page>, role: map<int, Role>, d: int, lo: nat)
    requires IsDir(mem, role, d) && role.Keys == mem.Keys && lo <= NENTRIES * NENTRIES
    ensures Dropped(mem, role, mem, role, d, lo, lo)
  {
    NothingToDrop(mem, role, d, lo, lo);
  }

  lemma NothingToDrop(mem: map<int, Page>, role: map<int, Role>, d: int, lo: nat, hi: nat)
    requires IsDir(mem, role, d) && role.Keys == mem.Keys && hi <= lo
    ensures role == UsersFreed(role, d, lo, hi)
    ensures PtesKept(mem, mem, role, d, lo, hi) && DataKept(mem, role, mem, role, d) && SameTables(mem, mem, d)
  {
  }

  /** Freeing the pages that were just taken undoes taking them. */
  lemma AllocUndone(mem: map<int, Page>, role: map<int, Role>, mem1: map<int, Page>, role1: map<int, Role>,
                    mem2: map<int, Page>, role2: map<int, Role>, d: int, lo: nat, v: nat, hi: nat)
    requires HoldersOk(mem, role) && role.Keys == mem.Keys && lo <= v <= hi <= USERPAGES && IsDir(mem, role, d)
    requires Unmapped(mem, d, lo, hi)
    requires UsersGrew(role, role1, d, lo, v) && role2 == UsersFreed(role1, d, lo, hi)
    requires OnlyTablesWritten(mem, role, mem1, d) && DataKept(mem1, role1, mem2, role2, d)
    requires PtesKept(mem, mem1, role, d, lo, v) && PtesKept(mem1, mem2, role1, d, lo, hi)
    requires SameTables(mem, mem1, d) && SameTables(mem1, mem2, d)
    ensures role2 == role && OnlyTablesWritten(mem, role, mem2, d)
    ensures PtesKept(mem, mem2, role, d, lo, hi) && SameTables(mem, mem2, d)
  {
    hide Pte, TableOf, Present, PteAddr;
    forall f | f in role
      ensures role2[f] == role[f]
    {
      assert HolderOk(mem, role, f);
    }
  }

  /** A space that came from free pages, once freed, leaves the roles as they were. */
  lemma SpaceUndone(mem: map<int, Page>, role: map<int, Role>, mem1: map<int, Page>, role1: map<int, Role>,
                    mem2: map<int, Page>, role2: map<int, Role>, d: int)
    requires SpaceGrew(mem, role, mem1, role1, d) && Fresh(role, d) && role2 == SpaceFreed(role1, d)
    requires DataKept(mem1, role1, mem2, role2, d)
    requires PtesKept(mem, mem1, role, 0, 0, 0) && PtesKept(mem1, mem2, role1, d, 0, NENTRIES * NENTRIES)
    ensures role2 == role && SpaceGrew(mem, role, mem2, role2, d) && PtesKept(mem, mem2, role, 0, 0, 0)
  {
    hide Pte;
    forall f | f in role
      ensures role2[f] == role[f]
    {
    }
  }

  lemma UsersTaken(role: map<int, Role>, role': map<int, Role>, d: int, lo: int, hi: int)
    requires UsersGrew(role, role', d, lo, hi)
    ensures TakenBy(role, role', d)
  {
  }

  /** Page `f` is one of the first `i` tables of `d`. */
  ghost predicate IsTable(role: map<int, Role>, f: int, d: int, i: int) {
    f in role && role[f].Table? && role[f].space == d && role[f].index < i
  }

  /** A space with nothing but its kernel part. */
  lemma KernelOnly(mem: map<int, Page>, d: int, data: nat)
    requires KernelSoFar(mem, d, data, 4)
    ensures TableOf(mem, d, 0) != 0 && Unmapped(mem, d, 0, USERPAGES)
    ensures forall v :: 0 <= v < NENTRIES * NENTRIES ==> Pte(mem, d, v) == KernelEntry(data, v)
  {
  }

  /** The entries after setupkvm, in numbers: the I/O space, the text of the kernel, its data
      with all of memory above it, and the devices are mapped at themselves; nothing else is.
      Only the text has no write permission and none of them has user permission. */
  lemma KernelLayout(mem: map<int, Page>, d: int, data: nat)
    requires DataOk(data) && KernelSoFar(mem, d, data, 4)
    ensures forall v :: 0 <= v < 0xA0 || 0x1000 <= v < 0xF_E000 ==> Pte(mem, d, v) == 0
    ensures forall v :: 0xA0 <= v < 0x100 ==> Pte(mem, d, v) == v * 0x1000 + 3
    ensures forall v :: 0x100 <= v < data / 0x1000 ==> Pte(mem, d, v) == v * 0x1000 + 1
    ensures forall v :: data / 0x1000 <= v < 0x1000 ==> Pte(mem, d, v) == v * 0x1000 + 3
    ensures forall v :: 0xF_E000 <= v < 0x10_0000 ==> Pte(mem, d, v) == v * 0x1000 + 3
  {
    hide Pte;
    KernelOnly(mem, d, data);
  }

  /** So no kernel entry has the user bit (4), and an entry has the write bit (2) exactly if it
      is present and not for the text of the kernel. */
  lemma KernelProtection(mem: map<int, Page>, d: int, data: nat, v: nat)
    requires DataOk(data) && KernelSoFar(mem, d, data, 4) && v < 0x10_0000
    ensures Pte(mem, d, v) / 4 % 2 == 0
    ensures Pte(mem, d, v) / 2 % 2 == 1 <==> Present(Pte(mem, d, v)) && !(0x100 <= v < data / 0x1000)
  {
    hide Pte, KernelSoFar;
    KernelLayout(mem, d, data);
    assert (v * 0x1000 + 3) / 2 == v * 0x800 + 1 && (v * 0x1000 + 3) / 4 == v * 0x400;
    assert (v * 0x1000 + 1) / 2 == v * 0x800 && (v * 0x1000 + 1) / 4 == v * 0x400;
  }

  lemma MappedKept(mem: map<int, Page>, mem': map<int, Page>, role: map<int, Role>, p: int, lo: nat, hi: nat)
    requires IsDir(mem, role, p) && hi <= NENTRIES * NENTRIES && Mapped(mem, p, lo, hi)
        && PtesKept(mem, mem', role, 0, 0, 0)
    ensures p in mem' && Mapped(mem', p, lo, hi)
  {
  }

  /** Where freevm stands after freeing the first `i` tables: `mem` and `role` are from before. */
  ghost predicate TablesFreed(mem: map<int, Page>, role: map<int, Role>, mem': map<int, Page>, freelist': seq<int>,
      d: int, i: int) {
    && mem'.Keys == mem.Keys == role.Keys
    && (forall f :: f in mem && !IsTable(role, f, d, i) ==> mem'[f] == mem[f])
    && NoRepeats(freelist')
    && forall f :: f in freelist' <==> f in mem && (role[f].Free? || IsTable(role, f, d, i))
  }

  lemma NothingFreed(mem: map<int, Page>, freelist: seq<int>, role: map<int, Role>, d: int)
    requires FreeListOk(mem, freelist, role)
    ensures TablesFreed(mem, role, mem, freelist, d, 0)
  {
  }

  lemma NextTable(mem: map<int, Page>, role: map<int, Role>, d: int, i: nat)
    requires SlotsOk(mem, role) && HoldersOk(mem, role) && IsDir(mem, role, d) && i < NENTRIES && 0 !in mem
        && role.Keys == mem.Keys
    ensures Present(mem[d][i]) ==>
              && PteAddr(mem[d][i]) in mem && PteAddr(mem[d][i]) in role && !IsTable(role, PteAddr(mem[d][i]), d, i)
              && !role[PteAddr(mem[d][i])].Free? && PteAddr(mem[d][i]) != d
    ensures forall f :: IsTable(role, f, d, i + 1) <==>
        IsTable(role, f, d, i) || (Present(mem[d][i]) && f == PteAddr(mem[d][i]))
  {
    assert SlotOk(mem, role, d, i);
    forall f | IsTable(role, f, d, i + 1) && !IsTable(role, f, d, i)
      ensures Present(mem[d][i]) && f == PteAddr(mem[d][i])
    {
      assert HolderOk(mem, role, f);
    }
  }

  lemma DirectoryStays(mem: map<int, Page>, role: map<int, Role>, mem1: map<int, Page>, freelist1: seq<int>, d: int,
      i: nat)
    requires SlotsOk(mem, role) && HoldersOk(mem, role) && IsDir(mem, role, d) && i < NENTRIES && 0 !in mem
        && role.Keys == mem.Keys
    requires TablesFreed(mem, role, mem1, freelist1, d, i)
    ensures d in mem1 && (Present(mem1[d][i]) ==> PteAddr(mem1[d][i]) in mem1)
  {
    NextTable(mem, role, d, i);
    assert mem1[d] == mem[d];
  }

  lemma NextFreed(mem: map<int, Page>, role: map<int, Role>, mem1: map<int, Page>, freelist1: seq<int>,
                  mem2: map<int, Page>, freelist2: seq<int>, d: int, i: nat)
    requires SlotsOk(mem, role) && HoldersOk(mem, role) && IsDir(mem, role, d) && i < NENTRIES && 0 !in mem
        && role.Keys == mem.Keys
    requires TablesFreed(mem, role, mem1, freelist1, d, i)
    requires if Present(mem1[d][i]) then
               mem2 == mem1[PteAddr(mem1[d][i]) := Filled(JUNK)] && freelist2 == [PteAddr(mem1[d][i])] + freelist1
             else
               mem2 == mem1 && freelist2 == freelist1
    requires Present(mem1[d][i]) ==> PteAddr(mem1[d][i]) in mem
    ensures TablesFreed(mem, role, mem2, freelist2, d, i + 1)
  {
    NextTable(mem, role, d, i);
    assert mem1[d] == mem[d];
    hide SlotsOk, HoldersOk, Present, PteAddr, IsTable;
  }

  lemma FreedList(mem: map<int, Page>, role: map<int, Role>, mem1: map<int, Page>, freelist1: seq<int>,
      mem': map<int, Page>, d: int)
    requires TablesFreed(mem, role, mem1, freelist1, d, NENTRIES) && mem'.Keys == mem.Keys && d in mem
        && role[d] == Dir(d)
    requires forall f :: f in role ==> (InSpace(role[f], d) <==> f == d || IsTable(role, f, d, NENTRIES))
    ensures FreeListOk(mem', [d] + freelist1, SpaceFreed(role, d))
  {
  }

  /** Once its tables and itself are free, nothing is left of space `d`. */
  lemma SpaceGone(mem: map<int, Page>, freelist: seq<int>, role: map<int, Role>, end: int, d: int,
                  mem1: map<int, Page>, freelist1: seq<int>, mem': map<int, Page>)
    requires MachineOk(mem, freelist, role, end) && IsDir(mem, role, d)
    requires forall f :: f in role && role[f].User? ==> role[f].space != d
    requires TablesFreed(mem, role, mem1, freelist1, d, NENTRIES)
    requires mem'.Keys == mem.Keys && forall f :: f in mem && f != d ==> mem'[f] == mem1[f]
    ensures MachineOk(mem', [d] + freelist1, SpaceFreed(role, d), end) && SpaceFreed(role, d).Keys == mem'.Keys
    ensures PtesKept(mem, mem', role, d, 0, NENTRIES * NENTRIES)
    ensures DataKept(mem, role, mem', SpaceFreed(role, d), d)
  {
    var role' := SpaceFreed(role, d);
    forall f | f in role
      ensures role[f].Table? ==> role[f].index < NENTRIES
      ensures role[f].Dir? ==> role[f].space == f
      ensures InSpace(role[f], d) <==> f == d || IsTable(role, f, d, NENTRIES)
    {
      assert HolderOk(mem, role, f);
    }
    FreedList(mem, role, mem1, freelist1, mem', d);
    forall d' | IsDir(mem, role, d') && d' != d
      ensures mem'[d'] == mem[d']
    {
    }
    forall d', v | IsDir(mem, role, d') && d' != d && 0 <= v < NENTRIES * NENTRIES
      ensures Pte(mem', d', v) == Pte(mem, d', v)
    {
      assert SlotOk(mem, role, d', v / NENTRIES);
    }
    forall d', i | IsDir(mem, role, d') && d' != d && 0 <= i < NENTRIES
      ensures TableOf(mem', d', i) == TableOf(mem, d', i)
    {
    }
    hide Pte, TableOf, Present, PteAddr;
    forall d', j | IsDir(mem', role', d') && 0 <= j < NENTRIES
      ensures SlotOk(mem', role', d', j)
    {
      assert SlotOk(mem, role, d', j);
    }
    forall d', v' | IsDir(mem', role', d') && 0 <= v' < USERPAGES
      ensures MappingOk(mem', role', d', v')
    {
      assert MappingOk(mem, role, d', v');
    }
    forall g | g in role'
      ensures HolderOk(mem', role', g)
    {
      assert HolderOk(mem, role, g);
    }
  }

  /** After deallocuvm of everything, then the tables. */
  lemma FreedAll(mem: map<int, Page>, freelist: seq<int>, end: int, role: map<int, Role>, mem1: map<int, Page>,
      role1: map<int, Role>, mem2: map<int, Page>, d: int)
    requires MachineOk(mem, freelist, role, end)
    requires role1 == UsersFreed(role, d, 0, USERPAGES)
    requires DataKept(mem, role, mem1, role1, d) && DataKept(mem1, role1, mem2, SpaceFreed(role1, d), d)
    requires PtesKept(mem, mem1, role, d, 0, USERPAGES) && PtesKept(mem1, mem2, role1, d, 0, NENTRIES * NENTRIES)
    ensures SpaceFreed(role1, d) == SpaceFreed(role, d)
    ensures DataKept(mem, role, mem2, SpaceFreed(role, d), d) && PtesKept(mem, mem2, role, d, 0, NENTRIES * NENTRIES)
  {
    hide Pte, TableOf, Present, PteAddr;
    forall f | f in role
      ensures SpaceFreed(role1, d)[f] == SpaceFreed(role, d)[f]
    {
      assert HolderOk(mem, role, f);
    }
  }

  /** The whole of freevm: pages [0, USERPAGES) freed, then the tables, then the directory. */
  lemma AllGone(mem: map<int, Page>, freelist: seq<int>, role: map<int, Role>, end: int, d: int,
                mem1: map<int, Page>, freelist1: seq<int>, role1: map<int, Role>,
                mem2: map<int, Page>, freelist2: seq<int>, mem': map<int, Page>)
    requires MachineOk(mem, freelist, role, end) && MachineOk(mem1, freelist1, role1, end) && IsDir(mem1, role1, d)
    requires role1 == UsersFreed(role, d, 0, USERPAGES)
    requires DataKept(mem, role, mem1, role1, d) && PtesKept(mem, mem1, role, d, 0, USERPAGES)
    requires TablesFreed(mem1, role1, mem2, freelist2, d, NENTRIES) && d in mem2 && mem' == mem2[d := Filled(JUNK)]
    ensures SpaceFreed(role1, d) == SpaceFreed(role, d)
    ensures MachineOk(mem', [d] + freelist2, SpaceFreed(role, d), end) && SpaceFreed(role, d).Keys == mem'.Keys
    ensures PtesKept(mem, mem', role, d, 0, NENTRIES * NENTRIES)
    ensures DataKept(mem, role, mem', SpaceFreed(role, d), d)
  {
    NoUsersLeft(mem, role, d);
    assert mem'.Keys == mem1.Keys;
    hide MachineOk, PtesKept, DataKept, UsersFreed, SpaceFreed, TablesFreed;
    SpaceGone(mem1, freelist1, role1, end, d, mem2, freelist2, mem');
    FreedAll(mem, freelist, end, role, mem1, role1, mem', d);
  }

  lemma NoUsersLeft(mem: map<int, Page>, role: map<int, Role>, d: int)
    requires HoldersOk(mem, role)
    ensures forall f :: f in role && UsersFreed(role, d, 0, USERPAGES)[f].User? ==>
        UsersFreed(role, d, 0, USERPAGES)[f].space != d
  {
  }

  /** A page comes off the free list. */
  lemma FreePageIsFrame(mem: map<int, Page>, freelist: seq<int>, role: map<int, Role>, end: int)
    requires MachineOk(mem, freelist, role, end) && |freelist| > 0
    ensures freelist[0] % PGSIZE == 0
  {
  }

  lemma NothingWritten(mem: map<int, Page>, role: map<int, Role>, d: int, v: nat)
    requires d in mem && mem.Keys == role.Keys
    ensures PtesKept(mem, mem, role, d, v, v + 1) && OnlyTablesWritten(mem, role, mem, d) && SameTables(mem, mem, d)
  {
  }

  /** Once a page was taken nothing else has changed for the space. */
  lemma ReadyToMap(mem: map<int, Page>, mem1: map<int, Page>, role: map<int, Role>, d: int, v: nat)
    requires IsDir(mem, role, d) && SamePtes(mem, mem1, role, 0, -1, 0) && v < USERPAGES
    requires TableOf(mem, d, 0) != 0 && !Present(Pte(mem, d, v))
    ensures d in mem1 && TablesNeeded(mem1, d, v, v + 1) == 0 && Unmapped(mem1, d, v, v + 1)
  {
    MissingBounds(mem1, d, 0, 1);
  }

  lemma TakenThenMapped(mem: map<int, Page>, role: map<int, Role>, mem1: map<int, Page>, role1: map<int, Role>,
                        mem2: map<int, Page>, d: int, v: nat, f: int, contents: Page)
    requires IsDir(mem, role, d) && f in mem && f in role && role[f] == Free && mem.Keys == role.Keys
    requires mem1 == mem[f := contents] && role1 == role[f := Held] && SamePtes(mem, mem1, role, 0, -1, 0)
    requires d in mem2 && PtesKept(mem1, mem2, role1, d, v, v + 1) && OnlyTablesWritten(mem1, role1, mem2, d)
    requires v < USERPAGES && TableOf(mem, d, 0) != 0 && SlotsGrew(mem1, mem2, d, v / NENTRIES, v / NENTRIES + 1)
    ensures PtesKept(mem, mem2, role, d, v, v + 1) && OnlyTablesWritten(mem, role, mem2, d) && SameTables(mem, mem2, d)
    ensures mem2[f] == contents
  {
    hide Pte, TableOf;
    assert v / NENTRIES == 0;
  }

  lemma PageTaken(mem: map<int, Page>, mem': map<int, Page>, freelist: seq<int>, role: map<int, Role>, end: int,
      contents: Page)
    requires MachineOk(mem, freelist, role, end) && |freelist| > 0 && mem' == mem[freelist[0] := contents]
    ensures MachineOk(mem', freelist[1..], role[freelist[0] := Held], end)
    ensures SamePtes(mem, mem', role, 0, -1, 0)
  {
    var t := freelist[0];
    var role' := role[t := Held];
    assert t in mem && role[t] == Free;
    DataWritten(mem, mem', role, t);
    assert FreeListOk(mem', freelist[1..], role');
    hide Pte, TableOf, Present, PteAddr;
    forall d', j | IsDir(mem', role', d') && 0 <= j < NENTRIES
      ensures SlotOk(mem', role', d', j)
    {
      assert SlotOk(mem, role, d', j);
    }
    forall d', v' | IsDir(mem', role', d') && 0 <= v' < USERPAGES
      ensures MappingOk(mem', role', d', v')
    {
      assert MappingOk(mem, role, d', v');
    }
    forall g | g in role'
      ensures HolderOk(mem', role', g)
    {
      assert HolderOk(mem, role, g);
    }
  }

  /** Equal free sets make free lists of equal length. */
  lemma {:induction false} SameLength(s: seq<int>, t: seq<int>)
    requires NoRepeats(s) && NoRepeats(t) && forall f :: f in s <==> f in t
    ensures |s| == |t|
  {
    Distinct(s);
    Distinct(t);
    assert (set f | f in s) == (set f | f in t);
  }

  lemma {:induction false} Distinct(s: seq<int>)
    requires NoRepeats(s)
    ensures |set f | f in s| == |s|
  {
    if |s| > 0 {
      var r := s[..|s| - 1];
      Distinct(r);
      assert (set f | f in s) == (set f | f in r) + {s[|s| - 1]};
      assert s[|s| - 1] !in r;
    }
  }

  lemma SameFreeCount(mem: map<int, Page>, freelist: seq<int>, mem': map<int, Page>, freelist': seq<int>,
      role: map<int, Role>)
    requires FreeListOk(mem, freelist, role) && FreeListOk(mem', freelist', role)
    ensures |freelist'| == |freelist|
  {
    SameLength(freelist, freelist');
  }

  /** Virtual page `v` of `d` is a user page that holds `contents`. */
  ghost predicate UserPage(mem: map<int, Page>, d: int, v: nat, contents: Page)
    requires d in mem && v < NENTRIES * NENTRIES
  {
    && Pte(mem, d, v) == PteAddr(Pte(mem, d, v)) + PTE_U + PTE_W + PTE_P && Present(Pte(mem, d, v))
    && PteAddr(Pte(mem, d, v)) in mem && mem[PteAddr(Pte(mem, d, v))] == contents
  }

  /** The virtual pages [lo, hi) of `d` are user pages that all hold `contents`. */
  ghost predicate FilledWith(mem: map<int, Page>, d: int, lo: nat, hi: nat, contents: Page)
    requires d in mem && hi <= NENTRIES * NENTRIES
  {
    forall v :: lo <= v < hi ==> UserPage(mem, d, v, contents)
  }

  lemma AllFree(mem: map<int, Page>, freelist: seq<int>, role: map<int, Role>, end: int)
    requires FramesOk(mem, end) && role.Keys == mem.Keys && (forall f :: f in mem ==> role[f] == Free)
    requires NoRepeats(freelist) && forall f :: f in freelist <==> f in mem
    ensures MachineOk(mem, freelist, role, end)
  {
    hide FramesOk, Pte, TableOf;
    forall d
      ensures !IsDir(mem, role, d)
    {
    }
    forall f | f in role
      ensures HolderOk(mem, role, f)
    {
      assert role[f] == Free;
    }
    forall i | 0 <= i < |freelist|
      ensures freelist[i] in mem && role[freelist[i]] == Free
    {
      var f := freelist[i];
      assert f in freelist;
      assert f in mem;
      assert role[f] == Free;
    }
    assert FreeListOk(mem, freelist, role);
  }

  class Machine {
    const end: int                    // first address after the kernel
    const data: int                   // start of the kernel's data, page-aligned by the linker
    var mem: map<int, Page>
    var freelist: seq<int>
    ghost var role: map<int, Role>

    ghost predicate Valid()
      reads this
    {
      && MachineOk(mem, freelist, role, end) && role.Keys == mem.Keys
      && 0x10_0000 < data < PHYSTOP && data % PGSIZE == 0
    }

    /** kinit: every page from `e` up goes on the free list. */
    constructor (e: int, d: int, initial: map<int, Page>)
      requires 0 < e < PHYSTOP && 0x10_0000 < d < PHYSTOP && d % PGSIZE == 0
      requires initial.Keys == Frames(e)
      ensures Valid() && end == e && data == d && mem.Keys == initial.Keys
      ensures forall f :: f in mem ==> role[f] == Free
    {
      end := e;
      data := d;
      mem := initial;
      freelist := [];
      role := map f | f in initial :: Free;
      new;
      assert FramesOk(mem, end);
      var p := RoundUp(e);
      hide FramesOk, Frames, RoundUp, MachineOk;
      while p + PGSIZE <= PHYSTOP
        invariant e <= p && p % PGSIZE == 0 && FramesOk(mem, end) && mem.Keys == Frames(e) && end == e && data == d
        invariant NoRepeats(freelist) && forall f :: f in freelist <==> f in Frames(e) && f < p
        invariant role.Keys == mem.Keys && forall f :: f in mem ==> role[f] == Free
        decreases PHYSTOP - p
      {
        FramesBelow(e, p);
        Kfree(p);
        p := p + PGSIZE;
      }
      FramesBelow(e, p);
      AllFree(mem, freelist, role, end);
    }

    /** Takes the first free page; 0 if there is none. */
    method Kalloc() returns (r: int)
      modifies this`freelist
      ensures old(freelist) == [] ==> r == 0 && freelist == []
      ensures old(freelist) != [] ==> r == old(freelist)[0] && freelist == old(freelist)[1..]
    {
      if freelist == [] {
        return 0;
      }
      r := freelist[0];
      freelist := freelist[1..];
    }

    /** Fills a page with junk and puts it first on the free list. */
    method Kfree(v: int)
      requires v in mem && FramesOk(mem, end)
      modifies this`mem, this`freelist
      ensures FramesOk(mem, end)
      ensures mem == old(mem)[v := Filled(JUNK)] && freelist == [v] + old(freelist)
    {
      if v % PGSIZE != 0 || v < end || v >= PHYSTOP {
        assert false;             // "kfree"
      }
      mem := mem[v := Filled(JUNK)];
      freelist := [v] + freelist;
    }

    /** Directory `dir` of an address space. */
    ghost predicate Space(dir: int)
      reads this
    {
      IsDir(mem, role, dir)
    }

    /** The table behind virtual page `v`, created on demand; 0 if there is none. */
    method Walkpgdir(d: int, v: nat, create: bool) returns (t: int)
      requires Valid() && Space(d) && v < NENTRIES * NENTRIES
      modifies this
      ensures Valid() && Space(d)
      ensures t == TableOf(mem, d, v / NENTRIES)
      ensures t != 0 ==> t in mem && t in role && role[t] == Table(d, v / NENTRIES)
      ensures TableOf(old(mem), d, v / NENTRIES) != 0 || !create || old(freelist) == [] ==> unchanged(this)
      ensures TableOf(old(mem), d, v / NENTRIES) == 0 && create && old(freelist) != [] ==>
                && t == old(freelist)[0] && freelist == old(freelist)[1..]
                && role == old(role)[t := Table(d, v / NENTRIES)]
                && forall f :: f in mem && f != t && f != d ==> mem[f] == old(mem)[f]
      ensures t == 0 ==> unchanged(this) && (create ==> freelist == [])
      ensures PtesKept(old(mem), mem, old(role), d, 0, 0)
      ensures forall i :: 0 <= i < NENTRIES && i != v / NENTRIES ==> TableOf(mem, d, i) == TableOf(old(mem), d, i)
    {
      assert SlotOk(mem, role, d, v / NENTRIES);
      assert 0 !in mem;
      assert |freelist| > 0 ==> freelist[0] in mem && role[freelist[0]] == Free;
      var pde := mem[d][v / NENTRIES];
      if Present(pde) {
        t := PteAddr(pde);
        return;
      }
      if !create {
        return 0;
      }
      t := Kalloc();
      if t == 0 {
        return;
      }
      role := role[t := Table(d, v / NENTRIES)];
      mem := mem[t := Filled(0)];
      mem := mem[d := mem[d][v / NENTRIES := t + PTE_P + PTE_W + PTE_U]];
      TableAdded(old(mem), mem, old(freelist), old(role), end, d, v / NENTRIES);
    }

    /** Puts `pa | flags` in the unused entry for virtual page `v`. */
    method Store(d: int, v: nat, pa: int, flags: nat)
      requires Valid() && Space(d) && v < NENTRIES * NENTRIES && TableOf(mem, d, v / NENTRIES) != 0
      requires !Present(Pte(mem, d, v)) && flags < PGSIZE && flags % 2 == 1
      requires v >= USERPAGES || (pa in mem && role[pa] == Held)
      modifies this`mem, this`role
      ensures Valid() && Space(d)
      ensures role == if v < USERPAGES then old(role)[pa := User(d, v)] else old(role)
      ensures SamePtes(old(mem), mem, old(role), d, v, pa + flags)
      ensures forall f :: f in mem && !InSpace(old(role)[f], d) ==> mem[f] == old(mem)[f]
      ensures forall f :: f in mem && !old(role)[f].Table? ==> mem[f] == old(mem)[f]
    {
      var t := TableOf(mem, d, v / NENTRIES);
      assert SlotOk(mem, role, d, v / NENTRIES);
      mem := mem[t := mem[t][v % NENTRIES := pa + flags]];
      if v < USERPAGES {
        role := role[pa := User(d, v)];
        UserMapped(old(mem), mem, freelist, old(role), end, d, v, pa, flags);
      } else {
        KernelMapped(old(mem), mem, freelist, role, end, d, v, pa + flags);
      }
    }

    /** Maps virtual page `v`: the body of the loop of mappages; -1 when its table cannot be had. */
    method MapPage(d: int, v: nat, pa: int, flags: nat) returns (r: int)
      requires Valid() && Space(d) && v < NENTRIES * NENTRIES && pa % PGSIZE == 0
      requires !Present(Pte(mem, d, v)) && flags < PGSIZE && flags % 2 == 1
      requires v >= USERPAGES || (pa in mem && role[pa] == Held)
      modifies this
      ensures Valid() && Space(d)
      ensures r == if TableOf(old(mem), d, v / NENTRIES) == 0 && old(freelist) == [] then -1 else 0
      ensures r == -1 ==> unchanged(this)
      ensures r == 0 ==> Pte(mem, d, v) == pa + flags && TableOf(mem, d, v / NENTRIES) != 0
      ensures PtesKept(old(mem), mem, old(role), d, v, v + 1)
      ensures SlotsGrew(old(mem), mem, d, v / NENTRIES, v / NENTRIES + 1)
      ensures TablesGrew(if v < USERPAGES && r == 0 then old(role)[pa := User(d, v)] else old(role), role, d)
      ensures OnlyTablesWritten(old(mem), old(role), mem, d)
      ensures |freelist| == |old(freelist)| - if TableOf(old(mem), d, v / NENTRIES) == 0 && r == 0 then 1 else 0
      ensures TableOf(old(mem), d, v / NENTRIES) != 0 ==>
                role == (if v < USERPAGES then old(role)[pa := User(d, v)] else old(role)) && freelist == old(freelist)
    {
      hide FramesOk, SlotsOk, MappingsOk, HoldersOk, Pte, TableOf, Present, PteAddr, RoundDown;
      var t := Walkpgdir(d, v, true);
      if t == 0 {
        return -1;
      }
      Store(d, v, pa, flags);
      return 0;
    }

    /** Maps the pages of [la, la + size) to those from `pa` on; -1 when a table cannot be had.
        "remap" cannot happen: the pages are unmapped.  User pages are mapped one at a time. */
    method Mappages(d: int, la: nat, size: nat, pa: int, perm: nat) returns (r: int)
      requires Valid() && Space(d) && 0 < size && la + size <= TWO_32 && pa % PGSIZE == 0
      requires perm in {0, PTE_W, PTE_U, PTE_W + PTE_U}
      requires Unmapped(mem, d, FirstPage(la), EndPage(la, size))
      requires FirstPage(la) >= USERPAGES || (EndPage(la, size) == FirstPage(la) + 1 && pa in mem && role[pa] == Held)
      modifies this
      ensures Valid() && Space(d)
      ensures r == if TablesNeeded(old(mem), d, FirstPage(la), EndPage(la, size)) <= |old(freelist)| then 0 else -1
      ensures r == 0 ==> |freelist| == |old(freelist)| - TablesNeeded(old(mem), d, FirstPage(la), EndPage(la, size))
      ensures r == -1 ==> freelist == []
      ensures r == 0 ==> MappedTo(mem, d, FirstPage(la), EndPage(la, size), pa, perm + PTE_P)
      ensures r == 0 ==> TablesNeeded(mem, d, FirstPage(la), EndPage(la, size)) == 0
      ensures PtesKept(old(mem), mem, old(role), d, FirstPage(la), EndPage(la, size))
      ensures SlotsGrew(old(mem), mem, d, FirstPage(la) / NENTRIES, (EndPage(la, size) - 1) / NENTRIES + 1)
      ensures TablesGrew(if FirstPage(la) < USERPAGES
          && r == 0 then old(role)[pa := User(d, FirstPage(la))] else old(role), role, d)
      ensures OnlyTablesWritten(old(mem), old(role), mem, d)
      ensures TablesNeeded(old(mem), d, FirstPage(la), EndPage(la, size)) == 0 ==>
                role == (if FirstPage(la) < USERPAGES then old(role)[pa := User(d, FirstPage(la))] else old(role))
                    && freelist == old(freelist)
    {
      hide MachineOk, Pte, TableOf, Present, PteAddr, RoundDown, MappedSoFar, TablesGrew, OnlyTablesWritten, Missing;
      ghost var lo, hi, flags := FirstPage(la), EndPage(la, size), perm + PTE_P;
      ghost var s0, s1 := lo / NENTRIES, (hi - 1) / NENTRIES + 1;
      ghost var v: nat := lo;
      var a, last, p := RoundDown(la), RoundDown(la + size - 1), pa;
      MappingStarts(mem, role, d, lo, hi, pa, flags);
      assert a == v * PGSIZE && last == (hi - 1) * PGSIZE by { Rounded(la); Rounded(la + size - 1); }
      while true
        invariant Valid() && Space(d) && lo <= v < hi && role.Keys == mem.Keys
        invariant a == v * PGSIZE && p == pa + (v - lo) * PGSIZE
        invariant v > lo ==> lo >= USERPAGES
        invariant MappedSoFar(old(mem), mem, old(role), d, lo, v, hi, pa, flags)
        invariant |freelist| - Missing(mem, d, s0, s1) == |old(freelist)| - Missing(old(mem), d, s0, s1)
        invariant TablesGrew(old(role), role, d) && OnlyTablesWritten(old(mem), old(role), mem, d)
        invariant Missing(old(mem), d, s0, s1) == 0 ==> role == old(role) && freelist == old(freelist)
        decreases hi - v
      {
        label Before:
        MappingReady(old(mem), mem, old(role), role, d, lo, v, hi, pa, flags);
        r := MapPage(d, a / PGSIZE, p, perm + PTE_P);
        if r < 0 {
          MappingStops(old(mem), mem, old(role), d, lo, v, hi, pa, flags);
          return;
        }
        PageAdded(old(mem), old@Before(mem), mem, old(role), old@Before(role), d, lo, v, hi, pa, flags);
        GrewMore(old(mem), old@Before(mem), mem, old(role), old@Before(role), role, d, v, p);
        if a == last {
          break;
        }
        a := a + PGSIZE;
        p := p + PGSIZE;
        v := v + 1;
      }
      MappingDone(old(mem), mem, old(role), d, lo, hi, pa, flags);
      return 0;
    }

    /** An empty directory in a free page; 0 if there is none. */
    method NewDirectory() returns (d: int)
      requires Valid()
      modifies this
      ensures Valid() && d == if old(freelist) == [] then 0 else old(freelist)[0]
      ensures old(freelist) == [] ==> unchanged(this)
      ensures d == 0 <==> old(freelist) == []
      ensures d != 0 ==>
                && freelist == old(freelist)[1..] && d !in freelist
                && d in role && d in old(role) && old(role)[d] == Free && Fresh(old(role), d)
                && Space(d) && KernelSoFar(mem, d, data, 0)
      ensures SpaceGrew(old(mem), old(role), mem, role, d) && PtesKept(old(mem), mem, old(role), 0, 0, 0)
    {
      if |freelist| > 0 {
        FreePageIsFresh(mem, freelist, role, end);
      }
      d := Kalloc();
      if d == 0 {
        return;
      }
      mem := mem[d := Filled(0)];
      role := role[d := Dir(d)];
      DirAdded(old(mem), mem, old(freelist), old(role), end);
      NothingMapped(mem, d, data);
    }

    /** A new address space with the kernel part only.  It takes 13 pages; with fewer to be had
        it returns 0 and all of them are lost. */
    method Setupkvm() returns (d: int)
      requires Valid()
      modifies this
      ensures Valid()
      ensures SpaceGrew(old(mem), old(role), mem, role, if old(freelist) == [] then 0 else old(freelist)[0])
      ensures PtesKept(old(mem), mem, old(role), 0, 0, 0)
      ensures d == if |old(freelist)| >= KERNEL_PAGES then old(freelist)[0] else 0
      ensures d != 0 <==> |old(freelist)| >= KERNEL_PAGES
      ensures d != 0 ==>
          Space(d) && d in old(role) && old(role)[d] == Free && Fresh(old(role), d)
              && |freelist| == |old(freelist)| - KERNEL_PAGES
      ensures d != 0 ==> KernelSoFar(mem, d, data, 4)
      ensures d != 0 ==>
                && (forall v :: 0 <= v < 0xA0 || 0x1000 <= v < 0xF_E000 ==> Pte(mem, d, v) == 0)
                && (forall v :: 0x100 <= v < data / 0x1000 ==> Pte(mem, d, v) == v * 0x1000 + 1)
                && (forall v :: 0xA0 <= v < 0x100 || data / 0x1000 <= v < 0x1000 || 0xF_E000 <= v < 0x10_0000 ==>
                   Pte(mem, d, v) == v * 0x1000 + 3)
      ensures |old(freelist)| < KERNEL_PAGES ==> freelist == []
    {
      hide MachineOk, Pte, TableOf, KernelSoFar, KernelMap, SpaceGrew, PtesKept, TablesGrew, TakenBy, OnlyTablesWritten,
          Fresh;
      hide MappedTo, Unmapped, TablesNeeded, SlotsGrew, KernelUpTo, FirstPage, EndPage, Kmap.Size;
      d := NewDirectory();
      if d == 0 {
        return;
      }
      assert KernelSlots(data, 0) == 0;
      hide KernelSlots;
      var kmap := KernelMap(data);
      var k := 0;
      while k < |kmap|
        invariant Valid() && Space(d) && 0 <= k <= 4 && KernelSoFar(mem, d, data, k)
        invariant |freelist| == |old(freelist)| - 1 - if k <= 3 then KernelSlots(data, k) else 12
        invariant SpaceGrew(old(mem), old(role), mem, role, d) && PtesKept(old(mem), mem, old(role), 0, 0, 0)
      {
        KmapLine(data, k);
        KernelNeeds(mem, d, data, k);
        var e := kmap[k];
        label Before:
        var r := Mappages(d, e.p, e.Size(), e.p, e.perm);
        TablesTaken(old@Before(role), role, d);
        SpaceGrewMore(old(mem), old(role), old@Before(mem), old@Before(role), mem, role, d, FirstPage(e.p),
            EndPage(e.p, e.Size()));
        if r < 0 {
          return 0;
        }
        KernelStep(old@Before(mem), mem, old@Before(role), d, data, k);
        k := k + 1;
      }
      KernelLayout(mem, d, data);
    }

    /** Takes a page, fills it and maps it at the unused user address `a`; 0 if there is none.
        This is what the loops of allocuvm and copyuvm do.  The address shares its table with
        all user addresses, so that mappages cannot fail. */
    method NewUserPage(d: int, a: nat, contents: Page) returns (f: int)
      requires Valid() && Space(d) && a % PGSIZE == 0 && a < USERTOP
      requires !Present(Pte(mem, d, a / PGSIZE)) && TableOf(mem, d, 0) != 0
      modifies this
      ensures Valid() && Space(d)
      ensures f == 0 <==> old(freelist) == []
      ensures f == 0 ==> unchanged(this)
      ensures f != 0 ==>
                && f == old(freelist)[0] && freelist == old(freelist)[1..]
                && f in old(role) && old(role)[f] == Free && role == old(role)[f := User(d, a / PGSIZE)]
                && Pte(mem, d, a / PGSIZE) == f + 7 && f % PGSIZE == 0
                && f in mem && mem[f] == contents
      ensures PtesKept(old(mem), mem, old(role), d, a / PGSIZE, a / PGSIZE + 1)
      ensures OnlyTablesWritten(old(mem), old(role), mem, d) && SameTables(old(mem), mem, d)
    {
      hide MachineOk, Pte, TableOf, Present, PteAddr, PtesKept, SlotsGrew, TablesGrew, OnlyTablesWritten, SameTables,
           SamePtes;
      if |freelist| > 0 {
        FreePageIsFresh(mem, freelist, role, end);
        FreePageIsFrame(mem, freelist, role, end);
      }
      NothingWritten(mem, role, d, a / PGSIZE);
      f := Kalloc();
      if f == 0 {
        return;
      }
      mem := mem[f := contents];
      role := role[f := Held];
      PageTaken(old(mem), mem, old(freelist), old(role), end, contents);
      ghost var m1, r1, v := mem, role, a / PGSIZE;
      ReadyToMap(old(mem), mem, old(role), d, v);
      var r := Mappages(d, a, PGSIZE, f, PTE_W + PTE_U);
      assert r == 0;
      assert Pte(mem, d, v) == f + (v - v) * PGSIZE + (PTE_W + PTE_U + PTE_P);
      TakenThenMapped(old(mem), old(role), m1, r1, mem, d, v, f, contents);
    }

    /** The body of the loop of deallocuvm. */
    method FreeUserPage(d: int, a: nat)
      requires Valid() && Space(d) && a % PGSIZE == 0 && a < USERTOP
      modifies this
      ensures Valid() && Space(d)
      ensures !Present(Pte(mem, d, a / PGSIZE))
      ensures role == UsersFreed(old(role), d, a / PGSIZE, a / PGSIZE + 1)
      ensures PtesKept(old(mem), mem, old(role), d, a / PGSIZE, a / PGSIZE + 1)
      ensures DataKept(old(mem), old(role), mem, role, d) && SameTables(old(mem), mem, d)
    {
      hide FramesOk, Pte, PteAddr;
      var v := a / PGSIZE;
      assert SlotOk(mem, role, d, v / NENTRIES) && MappingOk(mem, role, d, v);
      forall f | f in role && role[f] == User(d, v)
        ensures Present(Pte(mem, d, v)) && f == PteAddr(Pte(mem, d, v))
      {
        assert HolderOk(mem, role, f);
      }
      var t := Walkpgdir(d, v, false);
      EntryRead(mem, d, v);
      if t != 0 && Present(mem[t][v % NENTRIES]) {
        var pa := PteAddr(mem[t][v % NENTRIES]);
        ZeroIsNoFrame(mem, end);
        if pa == 0 {
          assert false;           // "kfree"
        }
        Kfree(pa);
        mem := mem[t := mem[t][v % NENTRIES := 0]];
        role := role[pa := Free];
        UserFreed(old(mem), mem, old(freelist), old(role), end, d, v, pa);
        ZeroIsAbsent();
      }
    }

    /** Unmaps and frees the user pages from `newsz` up to `oldsz`. */
    method Deallocuvm(d: int, oldsz: nat, newsz: nat) returns (r: nat)
      requires Valid() && Space(d) && oldsz <= USERTOP
      modifies this
      ensures Valid() && Space(d)
      ensures r == if newsz >= oldsz then oldsz else newsz
      ensures newsz >= oldsz ==> unchanged(this)
      ensures newsz < oldsz ==> Unmapped(mem, d, Pages(newsz), Pages(oldsz))
      ensures role == UsersFreed(old(role), d, Pages(newsz), Pages(oldsz))
      ensures PtesKept(old(mem), mem, old(role), d, Pages(newsz), Pages(oldsz))
      ensures DataKept(old(mem), old(role), mem, role, d) && SameTables(old(mem), mem, d)
    {
      hide MachineOk, Dropped, Pte, TableOf, PteAddr, Present, RoundUp, UsersFreed, DataKept, PtesKept, SameTables,
          Unmapped, Pages;
      ghost var lo, hi := Pages(newsz), Pages(oldsz);
      if newsz >= oldsz {
        PagesOrdered(oldsz, newsz);
        NothingToDrop(mem, role, d, lo, hi);
        return oldsz;
      }
      PagesOrdered(newsz, oldsz);
      PagesFit(oldsz);
      NothingDropped(mem, role, d, lo);
      var a := RoundUp(newsz);
      ghost var v: nat := lo;
      Rounded(newsz);
      while a < oldsz
        invariant Valid() && Space(d) && a == v * PGSIZE && lo <= v <= hi
        invariant Dropped(old(mem), old(role), mem, role, d, lo, v)
        decreases hi - v
      {
        label Before:
        PageStarts(v, oldsz);
        FreeUserPage(d, a);
        DroppedMore(old(mem), old(role), old@Before(mem), old@Before(role), mem, role, d, lo, v);
        a := a + PGSIZE;
        v := v + 1;
      }
      PageStarts(v, oldsz);
      DroppedAll(old(mem), old(role), mem, role, d, lo, hi);
      return newsz;
    }

    /** Gives a space its pages of zeroes from `oldsz` up to `newsz`; 0 when there are not enough,
        and then everything is as before but for the order of the free list. */
    method Allocuvm(d: int, oldsz: nat, newsz: nat) returns (r: nat)
      requires Valid() && Space(d) && TableOf(mem, d, 0) != 0
      requires oldsz <= newsz <= USERTOP ==> Unmapped(mem, d, Pages(oldsz), Pages(newsz))
      modifies this
      ensures Valid() && Space(d)
      ensures newsz > USERTOP ==> r == 0 && unchanged(this)
      ensures newsz < oldsz && newsz <= USERTOP ==> r == oldsz && unchanged(this)
      ensures oldsz <= newsz <= USERTOP ==>
                var n := Pages(newsz) - Pages(oldsz);
                if n <= |old(freelist)| then
                  && r == newsz && |freelist| == |old(freelist)| - n
                  && UsersGrew(old(role), role, d, Pages(oldsz), Pages(newsz))
                  && FilledWith(mem, d, Pages(oldsz), Pages(newsz), Filled(0))
                else
                  && r == 0 && role == old(role) && |freelist| == |old(freelist)|
                  && Unmapped(mem, d, Pages(oldsz), Pages(newsz))
      ensures PtesKept(old(mem), mem, old(role), d, Pages(oldsz), Pages(newsz))
      ensures OnlyTablesWritten(old(mem), old(role), mem, d) && SameTables(old(mem), mem, d)
    {
      hide Pte, TableOf, PteAddr, Present, RoundUp, FramesOk, SlotsOk, HoldersOk, FreeListOk, MappingsOk, PtesKept,
           SameTables, OnlyTablesWritten, FilledWith, UsersGrew, Unmapped, UserPage;
      DirsMatch(mem, role, d, Pages(oldsz), Pages(newsz));
      if newsz > USERTOP {
        return 0;
      }
      if newsz < oldsz {
        return oldsz;
      }
      ghost var lo, hi := Pages(oldsz), Pages(newsz);
      var a := RoundUp(oldsz);
      ghost var v: nat := lo;
      Rounded(oldsz);
      while a < newsz
        invariant Valid() && Space(d) && a == v * PGSIZE && lo <= v <= hi && TableOf(mem, d, 0) != 0
        invariant Unmapped(mem, d, v, hi) && FilledWith(mem, d, lo, v, Filled(0))
        invariant |freelist| == |old(freelist)| - (v - lo)
        invariant UsersGrew(old(role), role, d, lo, v) && OnlyTablesWritten(old(mem), old(role), mem, d)
        invariant PtesKept(old(mem), mem, old(role), d, lo, v) && SameTables(old(mem), mem, d)
        decreases hi - v
      {
        label Before:
        PageMissing(mem, d, v, hi);
        var f := NewUserPage(d, a, Filled(0));
        if f == 0 {
          var _ := Deallocuvm(d, newsz, oldsz);
          AllocUndone(old(mem), old(role), old@Before(mem), old@Before(role), mem, role, d, lo, v, hi);
          SameFreeCount(old(mem), old(freelist), mem, freelist, role);
          return 0;
        }
        AddressOf(f, PTE_U + PTE_W + PTE_P);
        UserPageMade(mem, d, v, f, Filled(0));
        OneUser(old@Before(role), role, d, v, f);
        RestUnmapped(old@Before(mem), old@Before(role), mem, d, v, hi);
        MoreFilled(old@Before(mem), old@Before(role), mem, d, lo, v, Filled(0));
        UsersGrewMore(old(mem), old(role), old@Before(mem), old@Before(role), mem, role, d, lo, v);
        a := a + PGSIZE;
        v := v + 1;
      }
      return newsz;
    }

    /** The loop of freevm: the tables of `d` are freed; the entries that refer to them stay. */
    method FreeTables(d: int)
      requires Valid() && Space(d)
      modifies this`mem, this`freelist
      ensures TablesFreed(old(mem), role, mem, freelist, d, NENTRIES) && FramesOk(mem, end) && mem.Keys == old(mem.Keys)
    {
      NothingFreed(mem, freelist, role, d);
      ZeroIsNoFrame(mem, end);
      hide FramesOk, MappingsOk, FreeListOk, SlotsOk, HoldersOk, Present, PteAddr, TablesFreed;
      ghost var mem1 := mem;
      var i := 0;
      while i < NENTRIES
        invariant 0 <= i <= NENTRIES && FramesOk(mem, end) && mem.Keys == mem1.Keys
        invariant TablesFreed(mem1, role, mem, freelist, d, i)
      {
        DirectoryStays(mem1, role, mem, freelist, d, i);
        label Before:
        if Present(mem[d][i]) {
          Kfree(PteAddr(mem[d][i]));
        }
        NextFreed(mem1, role, old@Before(mem), old@Before(freelist), mem, freelist, d, i);
        i := i + 1;
      }
    }

    /** Frees the user pages, the tables and the directory of a space. */
    method Freevm(d: int)
      requires Valid() && Space(d)
      modifies this
      ensures Valid() && role == SpaceFreed(old(role), d)
      ensures DataKept(old(mem), old(role), mem, role, d)
      ensures PtesKept(old(mem), mem, old(role), d, 0, NENTRIES * NENTRIES)
    {
      hide Pte, TableOf, MachineOk, TablesFreed, UsersFreed, SpaceFreed, DataKept, PtesKept, SameTables, Unmapped;
      var _ := Deallocuvm(d, USERTOP, 0);
      label Bare:
      FreeTables(d);
      label Tabled:
      Kfree(d);
      AllGone(old(mem), old(freelist), old(role), end, d,
              old@Bare(mem), old@Bare(freelist), role, old@Tabled(mem), old@Tabled(freelist), mem);
      role := SpaceFreed(role, d);
    }

    lemma RangeStarts(p: int, d: int, lo: nat)
      requires Valid() && Space(p) && Space(d) && lo <= NENTRIES * NENTRIES
      ensures Copied(mem, p, d, lo, lo) && UsersGrew(role, role, d, lo, lo) && OnlyTablesWritten(mem, role, mem, d)
      ensures PtesKept(mem, mem, role, d, lo, lo) && SameTables(mem, mem, d)
    {
    }

    /** One round of copyuvm: a page of `d` with what the parent `p` has at address `i`. */
    method CopyPage(p: int, d: int, i: nat) returns (f: int)
      requires Valid() && Space(p) && Space(d) && p != d && TableOf(mem, d, 0) != 0 && i % PGSIZE == 0 && i < USERTOP
      requires Present(Pte(mem, p, i / PGSIZE)) && !Present(Pte(mem, d, i / PGSIZE))
      modifies this
      ensures Valid() && Space(p) && Space(d)
      ensures f == 0 <==> old(freelist) == []
      ensures f == 0 ==> unchanged(this)
      ensures f != 0 ==>
                && freelist == old(freelist)[1..] && UserPage(mem, d, i / PGSIZE, PageAt(old(mem), p, i / PGSIZE))
                && f in old(role) && old(role)[f] == Free && role == old(role)[f := User(d, i / PGSIZE)]
                && Pte(mem, d, i / PGSIZE) == f + 7 && f % PGSIZE == 0
      ensures PtesKept(old(mem), mem, old(role), d, i / PGSIZE, i / PGSIZE + 1)
      ensures OnlyTablesWritten(old(mem), old(role), mem, d) && SameTables(old(mem), mem, d)
    {
      hide Pte, TableOf, PteAddr, Present, FramesOk, SlotsOk, HoldersOk, FreeListOk, MappingsOk, UserPage, PtesKept,
           SameTables, OnlyTablesWritten;
      ghost var v, contents := i / PGSIZE, PageAt(mem, p, i / PGSIZE);
      var t := Walkpgdir(p, i / PGSIZE, false);
      EntryRead(mem, p, v);
      PageThere(mem, role, p, v);
      if t == 0 {
        assert false;           // "copyuvm: pte should exist"
      }
      var pte := mem[t][i / PGSIZE % NENTRIES];
      if !Present(pte) {
        assert false;           // "copyuvm: page not present"
      }
      f := NewUserPage(d, i, mem[PteAddr(pte)]);
      if f != 0 {
        AddressOf(f, PTE_U + PTE_W + PTE_P);
        UserPageMade(mem, d, v, f, contents);
      }
    }

    /** The loop of copyuvm: the pages of `p` from `from` up to `to` are copied into `d`; -1 when
        there are not enough pages.  Neither panic can happen, since the pages of `p` are there. */
    method CopyRange(p: int, d: int, from: nat, to: nat) returns (r: int)
      requires Valid() && Space(p) && Space(d) && p != d && TableOf(mem, d, 0) != 0
      requires from % PGSIZE == 0 && from <= USERTOP && to <= USERTOP
      requires Mapped(mem, p, Pages(from), Pages(to)) && Unmapped(mem, d, Pages(from), Pages(to))
      modifies this
      ensures Valid() && Space(p) && Space(d)
      ensures r == if Pages(to) - Pages(from) <= |old(freelist)| then 0 else -1
      ensures r == 0 ==> Copied(mem, p, d, Pages(from), Pages(to))
      ensures r == 0 ==> |freelist| == |old(freelist)| - if from < to then Pages(to) - Pages(from) else 0
      ensures UsersGrew(old(role), role, d, Pages(from), Pages(to)) && OnlyTablesWritten(old(mem), old(role), mem, d)
      ensures PtesKept(old(mem), mem, old(role), d, Pages(from), Pages(to)) && SameTables(old(mem), mem, d)
    {
      hide Pte, TableOf, PteAddr, Present, FramesOk, SlotsOk, HoldersOk, FreeListOk, MappingsOk, UserPage, PtesKept,
           SameTables, OnlyTablesWritten, Copied, UsersGrew, Mapped, Unmapped;
      ghost var lo, hi := Pages(from), Pages(to);
      RangeStarts(p, d, lo);
      var i := from;
      assert from == lo * PGSIZE by { assert from == from / PGSIZE * PGSIZE; }
      ghost var v: nat := lo;
      while i < to
        invariant Valid() && Space(p) && Space(d) && i == v * PGSIZE && lo <= v && (v <= hi || v == lo)
        invariant Mapped(mem, p, lo, hi) && Unmapped(mem, d, v, hi) && Copied(mem, p, d, lo, v)
            && TableOf(mem, d, 0) != 0
        invariant |freelist| == |old(freelist)| - (v - lo)
        invariant UsersGrew(old(role), role, d, lo, v) && OnlyTablesWritten(old(mem), old(role), mem, d)
        invariant PtesKept(old(mem), mem, old(role), d, lo, v) && SameTables(old(mem), mem, d)
        decreases hi - v
      {
        label Before:
        PageInRange(mem, p, d, lo, v, hi);
        var f := CopyPage(p, d, i);
        if f == 0 {
          RangeEnds(old(mem), old(role), mem, role, p, d, lo, v, hi);
          return -1;
        }
        RangeGoesOn(old@Before(mem), old@Before(role), mem, p, d, lo, v, hi);
        OneUser(old@Before(role), role, d, v, f);
        MoreCopied(old@Before(mem), old@Before(role), mem, p, d, lo, v);
        UsersGrewMore(old(mem), old(role), old@Before(mem), old@Before(role), mem, role, d, lo, v);
        i := i + PGSIZE;
        v := v + 1;
      }
      RangeEnds(old(mem), old(role), mem, role, p, d, lo, v, hi);
      return 0;
    }

    /** Copies an address space of `sz` bytes; 0 when memory runs out. */
    method Copyuvm(p: int, sz: nat) returns (d: int)
      requires Valid() && Space(p) && sz <= USERTOP && Mapped(mem, p, 0, Pages(sz))
      modifies this
      ensures Valid() && Space(p)
      ensures d != 0 <==> |old(freelist)| >= KERNEL_PAGES + Pages(sz)
      ensures d != 0 ==>
                && Space(d) && d != p && Fresh(old(role), d) && Copied(mem, p, d, 0, Pages(sz))
                && |freelist| == |old(freelist)| - KERNEL_PAGES - Pages(sz)
                && TableOf(mem, d, 0) != 0
                && forall v :: Pages(sz) <= v < NENTRIES * NENTRIES ==> Pte(mem, d, v) == KernelEntry(data, v)
      ensures SpaceGrew(old(mem), old(role), mem, role, if old(freelist) == [] then 0 else old(freelist)[0])
      ensures PtesKept(old(mem), mem, old(role), 0, 0, 0)
      ensures d == 0 && |old(freelist)| >= KERNEL_PAGES ==> role == old(role)
      ensures |old(freelist)| < KERNEL_PAGES ==> freelist == []
    {
      hide Pte, TableOf, PteAddr, Present, MachineOk, UserPage;
      d := Setupkvm();
      if d == 0 {
        return;
      }
      KernelOnly(mem, d, data);
      label Made:
      MappedKept(old(mem), mem, old(role), p, 0, Pages(sz));
      var r := CopyRange(p, d, 0, sz);
      UsersTaken(old@Made(role), role, d, 0, Pages(sz));
      SpaceGrewMore(old(mem), old(role), old@Made(mem), old@Made(role), mem, role, d, 0, Pages(sz));
      if r < 0 {
        label Bad:
        Freevm(d);
        SpaceUndone(old(mem), old(role), old@Bad(mem), old@Bad(role), mem, role, d);
        return 0;
      }
    }

    /** Forking a space and freeing the child leaves every page what it was, in use or free. */
    method CopyAndFree(p: int, sz: nat) returns (copied: bool)
      requires Valid() && Space(p) && sz <= USERTOP && Mapped(mem, p, 0, Pages(sz)) && |freelist| >= KERNEL_PAGES
      modifies this
      ensures Valid() && role == old(role) && |freelist| == |old(freelist)|
      ensures copied <==> |old(freelist)| >= KERNEL_PAGES + Pages(sz)
      ensures forall f :: f in mem && role[f] != Free ==> mem[f] == old(mem)[f]
    {
      hide Pte, TableOf, PteAddr, Present, SlotsOk, MappingsOk, HoldersOk, FramesOk, UserPage;
      var d := Copyuvm(p, sz);
      copied := d != 0;
      if copied {
        label Forked:
        Freevm(d);
        SpaceUndone(old(mem), old(role), old@Forked(mem), old@Forked(role), mem, role, d);
      }
      SameFreeCount(old(mem), old(freelist), mem, freelist, role);
    }
  }
}
