/** The tree with the stack at the top of user memory: growproc, growstack and fork of its
    kernel/proc.c, the two-region copyuvm of its kernel/vm.c, and checkbounds, fetchint and argptr of
    its kernel/syscall.c. */
module StackHeap {
  import opened Vm

  const GUARD := 4 * PGSIZE
  const CODE := 2 * PGSIZE          // where the program starts

  /** Virtual page `v` belongs to the code and heap, or to the stack. */
  predicate InImage(v: int, sz: nat, stackHead: nat) {
    CODE / PGSIZE <= v < Pages(sz) || stackHead / PGSIZE <= v < USERPAGES
  }

  predicate Separated(sz: nat, stackHead: nat) {
    CODE <= sz && stackHead % PGSIZE == 0 && stackHead < USERTOP && stackHead - sz > GUARD
  }

  /** The user pages of `d` are those of the code, the heap and the stack, far enough apart. */
  ghost predicate Image(mem: map<int, Page>, d: int, sz: nat, stackHead: nat) {
    && d in mem && TableOf(mem, d, 0) != 0 && Separated(sz, stackHead)
    && forall v :: 0 <= v < USERPAGES ==> (Present(Pte(mem, d, v)) <==> InImage(v, sz, stackHead))
  }

  /** Conversion of a mathematical integer to a C int. */
  function ToInt(x: int): (i: int)
    ensures -0x8000_0000 <= i < 0x8000_0000
    ensures -0x8000_0000 <= x < 0x8000_0000 ==> i == x
  {
    (x + 0x8000_0000) % TWO_32 - 0x8000_0000
  }

  // ----- bounds of system call arguments

  function CheckBounds(sz: nat, stackHead: nat, addr: int, size: int): int {
    if addr > USERTOP || addr + size > USERTOP || addr < CODE || addr + size < CODE
       || (addr >= sz && addr < stackHead) || (addr + size > sz && addr + size < stackHead)
    then -1 else 0
  }

  predicate Inside(sz: nat, stackHead: nat, addr: int, size: int) {
    (CODE <= addr && addr + size <= sz) || (stackHead <= addr && addr + size <= USERTOP)
  }

  /** An access passes exactly when it lies in one region, or reaches over the whole gap. */
  lemma BoundsMeaning(sz: nat, stackHead: nat, addr: int, size: int)
    requires Separated(sz, stackHead) && size > 0
    ensures CheckBounds(sz, stackHead, addr, size) == 0 <==>
              Inside(sz, stackHead, addr, size) || (CODE <= addr < sz && stackHead <= addr + size <= USERTOP)
    ensures size <= GUARD ==> (CheckBounds(sz, stackHead, addr, size) == 0 <==> Inside(sz, stackHead, addr, size))
  {
  }

  ghost predicate ByteMapped(mem: map<int, Page>, d: int, b: int) {
    d in mem && 0 <= b / PGSIZE < USERPAGES && Present(Pte(mem, d, b / PGSIZE))
  }

  /** Every byte of a word that fetchint accepts is in a mapped page, and it accepts every such
      word of the two regions. */
  lemma FetchIsMapped(mem: map<int, Page>, d: int, sz: nat, stackHead: nat, addr: nat)
    requires Image(mem, d, sz, stackHead) && addr < TWO_32
    ensures CheckBounds(sz, stackHead, ToInt(addr), 4) == 0 <==> Inside(sz, stackHead, addr, 4)
    ensures CheckBounds(sz, stackHead, ToInt(addr), 4) == 0 ==>
              forall b :: addr <= b < addr + 4 ==> ByteMapped(mem, d, b)
  {
    hide Pte, Present;
    BoundsMeaning(sz, stackHead, ToInt(addr), 4);
    if CheckBounds(sz, stackHead, ToInt(addr), 4) == 0 {
      forall b | addr <= b < addr + 4
        ensures ByteMapped(mem, d, b)
      {
        PageInside(sz, stackHead, b);
      }
    }
  }

  lemma PageInside(sz: nat, stackHead: nat, b: nat)
    requires Separated(sz, stackHead) && (CODE <= b < sz || stackHead <= b < USERTOP)
    ensures b / PGSIZE < USERPAGES && InImage(b / PGSIZE, sz, stackHead)
  {
  }

  /** argptr for the `n`th argument, with `i` the word found there.  It does not use checkbounds
      on the block itself: the sums are unsigned and wrap. */
  function Argptr(sz: nat, stackHead: nat, esp: nat, n: nat, i: nat, size: int): int {
    var end := (i + size) % TWO_32;
    if CheckBounds(sz, stackHead, ToInt((esp + 4 + 4 * n) % TWO_32), 4) == -1 then -1
    else if (i >= sz && i < stackHead) || (end > sz && end < stackHead) then -1
    else if (i >= sz && i > USERTOP) || (end > sz && end > USERTOP) then -1
    else if i < CODE then -1
    else 0
  }

  /** A block that starts in the code or heap and ends in the stack. */
  predicate Crosses(sz: nat, stackHead: nat, addr: int, size: int) {
    CODE <= addr < sz && stackHead <= addr + size <= USERTOP
  }

  lemma FetchMeaning(sz: nat, stackHead: nat, addr: nat)
    requires Separated(sz, stackHead) && addr < TWO_32
    ensures CheckBounds(sz, stackHead, ToInt(addr), 4) == if Inside(sz, stackHead, addr, 4) then 0 else -1
  {
    BoundsMeaning(sz, stackHead, ToInt(addr), 4);
  }

  /** Exactly the blocks argptr accepts.  An empty block may start at any mapped byte or at the
      top; a block of at most four pages lies in one region; a longer one may also reach over the
      whole gap; and a negative size is accepted when the end it gives is at or below the heap's
      end or in the stack, even if that is below the program. */
  lemma ArgptrMeaning(sz: nat, stackHead: nat, esp: nat, n: nat, i: nat, size: int)
    requires Separated(sz, stackHead) && i < TWO_32 && -0x8000_0000 <= size < 0x8000_0000
    ensures Argptr(sz, stackHead, esp, n, i, size) == 0 <==>
              && Inside(sz, stackHead, (esp + 4 + 4 * n) % TWO_32, 4)
              && if size > 0 then Inside(sz, stackHead, i, size) || Crosses(sz, stackHead, i, size)
                 else (CODE <= i < sz || stackHead <= i <= USERTOP) && (0 <= i + size <= sz || stackHead <= i + size)
    ensures 0 < size <= GUARD ==>
              (Argptr(sz, stackHead, esp, n, i, size) == 0 <==>
                 Inside(sz, stackHead, (esp + 4 + 4 * n) % TWO_32, 4) && Inside(sz, stackHead, i, size))
  {
    hide CheckBounds, ToInt;
    FetchMeaning(sz, stackHead, (esp + 4 + 4 * n) % TWO_32);
    if i <= USERTOP {
      Unwrapped(i + size);
    }
  }

  lemma Unwrapped(x: int)
    requires -TWO_32 <= x < TWO_32
    ensures x % TWO_32 == if x >= 0 then x else x + TWO_32
  {
  }

  /** When what argptr accepts is a block of mapped memory: exactly unless it starts below the
      heap's end and ends above it. */
  lemma ArgptrIsMapped(mem: map<int, Page>, d: int, sz: nat, stackHead: nat, esp: nat, n: nat, i: nat, size: int)
    requires Image(mem, d, sz, stackHead) && i < TWO_32 && 0 < size < 0x8000_0000
    requires Argptr(sz, stackHead, esp, n, i, size) == 0
    ensures i < sz < i + size <==> exists b :: i <= b < i + size && !ByteMapped(mem, d, b)
  {
    hide Pte, Present, Argptr;
    ArgptrMeaning(sz, stackHead, esp, n, i, size);
    forall b | i <= b < i + size && (CODE <= b < sz || stackHead <= b < USERTOP)
      ensures ByteMapped(mem, d, b)
    {
      PageInside(sz, stackHead, b);
    }
    if i < sz < i + size {
      Gap(sz, stackHead);
      var b := Pages(sz) * PGSIZE;
      PageStarts(Pages(sz), sz);
      assert !ByteMapped(mem, d, b);
    }
  }

  /** A read or write of that many bytes passes although most of them are not mapped. */
  lemma GapCanBeCrossed(esp: nat, n: nat)
    requires esp + 8 + 4 * n <= USERTOP && USERTOP - PGSIZE <= esp
    ensures Separated(CODE + 1, USERTOP - PGSIZE)
    ensures Argptr(CODE + 1, USERTOP - PGSIZE, esp, n, CODE, USERTOP - PGSIZE - CODE) == 0
    ensures Crosses(CODE + 1, USERTOP - PGSIZE, CODE, USERTOP - PGSIZE - CODE)
    ensures !Inside(CODE + 1, USERTOP - PGSIZE, CODE, USERTOP - PGSIZE - CODE)
  {
    ArgptrMeaning(CODE + 1, USERTOP - PGSIZE, esp, n, CODE, USERTOP - PGSIZE - CODE);
  }

  // ----- growing and shrinking

  lemma Gap(sz: nat, stackHead: nat)
    requires Separated(sz, stackHead)
    ensures CODE / PGSIZE <= Pages(sz) && Pages(sz) + 4 <= stackHead / PGSIZE < USERPAGES
    ensures stackHead == stackHead / PGSIZE * PGSIZE && Pages(stackHead) == stackHead / PGSIZE
    ensures Pages(USERTOP) == USERPAGES && Pages(CODE) == CODE / PGSIZE && Pages(0) == 0
  {
  }

  lemma FilledIsMapped(mem: map<int, Page>, d: int, lo: nat, hi: nat, contents: Page)
    requires d in mem && hi <= NENTRIES * NENTRIES && FilledWith(mem, d, lo, hi, contents)
    ensures Mapped(mem, d, lo, hi)
  {
    hide Pte;
    forall v | lo <= v < hi
      ensures Present(Pte(mem, d, v))
    {
      assert UserPage(mem, d, v, contents);
    }
  }

  /** The pages between the two regions are free to be mapped. */
  lemma GapUnmapped(mem: map<int, Page>, d: int, sz: nat, stackHead: nat, lo: nat, hi: nat)
    requires Image(mem, d, sz, stackHead) && Pages(sz) <= lo && hi <= stackHead / PGSIZE
    ensures hi <= NENTRIES * NENTRIES && Unmapped(mem, d, lo, hi)
  {
  }

  /** Mapping the pages between the old and the new end of a region. */
  lemma ImageGrew(mem: map<int, Page>, mem': map<int, Page>, role: map<int, Role>, d: int, sz: nat, stackHead: nat,
                  sz': nat, stackHead': nat, lo: nat, hi: nat)
    requires Image(mem, d, sz, stackHead) && Separated(sz', stackHead') && IsDir(mem, role, d)
    requires (lo == Pages(sz) && hi == Pages(sz') && stackHead' == stackHead && sz <= sz')
          || (lo == stackHead' / PGSIZE && hi == stackHead / PGSIZE && sz' == sz && stackHead' <= stackHead)
    requires PtesKept(mem, mem', role, d, lo, hi) && SameTables(mem, mem', d) && Mapped(mem', d, lo, hi)
    ensures Image(mem', d, sz', stackHead')
  {
    hide Pte, Present;
    Gap(sz, stackHead);
    Gap(sz', stackHead');
    PagesOrdered(sz, sz');
  }

  /** A range of the gap that was not mapped after all. */
  lemma ImageStays(mem: map<int, Page>, mem': map<int, Page>, role: map<int, Role>, d: int, sz: nat, stackHead: nat,
      lo: nat, hi: nat)
    requires Image(mem, d, sz, stackHead) && IsDir(mem, role, d) && Pages(sz) <= lo && hi <= stackHead / PGSIZE
    requires PtesKept(mem, mem', role, d, lo, hi) && SameTables(mem, mem', d) && hi <= NENTRIES * NENTRIES
        && Unmapped(mem', d, lo, hi)
    ensures Image(mem', d, sz, stackHead)
  {
  }

  lemma ImageSpread(mem: map<int, Page>, d: int, sz: nat, stackHead: nat)
    requires Image(mem, d, sz, stackHead)
    ensures d in mem && TableOf(mem, d, 0) != 0 && Separated(sz, stackHead)
  {
  }

  lemma NothingDone(mem: map<int, Page>, role: map<int, Role>, d: int)
    requires role.Keys == mem.Keys
    ensures DataKept(mem, role, mem, role, d) && OnlyItsPages(role, role, d)
        && PtesKept(mem, mem, role, d, 0, USERPAGES)
  {
  }

  lemma PagesAdded(role: map<int, Role>, role': map<int, Role>, d: int, lo: nat, hi: nat)
    requires role' == role || UsersGrew(role, role', d, lo, hi)
    ensures OnlyItsPages(role, role', d)
  {
  }

  lemma PagesDropped(role: map<int, Role>, d: int, lo: nat, hi: nat)
    ensures OnlyItsPages(role, UsersFreed(role, d, lo, hi), d)
  {
  }

  lemma WithinUser(mem: map<int, Page>, mem': map<int, Page>, role: map<int, Role>, d: int, lo: nat, hi: nat)
    requires PtesKept(mem, mem', role, d, lo, hi) && hi <= USERPAGES
    ensures PtesKept(mem, mem', role, d, 0, USERPAGES)
  {
  }

  lemma NoneFreed(mem: map<int, Page>, role: map<int, Role>, mem': map<int, Page>, role': map<int, Role>, d: int)
    requires OnlyTablesWritten(mem, role, mem', d) && role'.Keys == mem.Keys
    ensures DataKept(mem, role, mem', role', d)
  {
  }

  /** Unmapping the pages past the new end of the heap. */
  lemma ImageShrank(mem: map<int, Page>, mem': map<int, Page>, role: map<int, Role>, d: int, sz: nat, stackHead: nat,
      sz': nat)
    requires Image(mem, d, sz, stackHead) && sz' <= sz && IsDir(mem, role, d)
    requires PtesKept(mem, mem', role, d, Pages(sz'), Pages(sz)) && SameTables(mem, mem', d)
    requires Pages(sz) <= NENTRIES * NENTRIES && Unmapped(mem', d, Pages(sz'), Pages(sz))
    ensures Image(mem', d, sz', stackHead) <==> CODE <= sz'
    ensures sz' == 0 ==> (Image(mem', d, sz, stackHead) <==> sz == CODE)
  {
    hide Pte, Present;
    Gap(sz, stackHead);
    PagesOrdered(sz', sz);
    if sz' == 0 && sz > CODE {
      assert !Present(Pte(mem', d, CODE / PGSIZE));
      assert InImage(CODE / PGSIZE, sz, stackHead);
    }
  }

  lemma ImageBuilt(mem: map<int, Page>, role: map<int, Role>, mem1: map<int, Page>, role1: map<int, Role>,
      mem2: map<int, Page>, d: int, sz: nat)
    requires IsDir(mem, role, d) && IsDir(mem1, role1, d) && TableOf(mem, d, 0) != 0 && Separated(sz, USERTOP - PGSIZE)
    requires Unmapped(mem, d, 0, USERPAGES)
    requires PtesKept(mem, mem1, role, d, CODE / PGSIZE, Pages(sz)) && SameTables(mem, mem1, d)
    requires Pages(sz) <= USERPAGES && Mapped(mem1, d, CODE / PGSIZE, Pages(sz))
    requires PtesKept(mem1, mem2, role1, d, USERPAGES - 1, USERPAGES) && SameTables(mem1, mem2, d)
    requires Mapped(mem2, d, USERPAGES - 1, USERPAGES)
    ensures Image(mem2, d, sz, USERTOP - PGSIZE)
  {
  }

  /** What growproc's check compares, in C's arithmetic. */
  function Room(sz: nat, stackHead: nat, n: int): int {
    ToInt(stackHead - sz - n)
  }

  /** The check refuses to leave less than five pages between heap and stack, and to shrink the
      heap by so much that the difference wraps around. */
  lemma RefusedExactly(sz: nat, stackHead: nat, n: int)
    requires Separated(sz, stackHead) && -0x8000_0000 <= n < 0x8000_0000
    ensures Room(sz, stackHead, n) < 5 * PGSIZE <==> sz + n + 0x5000 > stackHead || stackHead - sz - n >= 0x8000_0000
  {
  }

  /** The heap would shrink into the part below the code. */
  predicate ShrinksTooFar(sz: nat, n: int) {
    n < 0 && 0 <= sz + n < CODE
  }

  lemma RoomMeans(sz: nat, stackHead: nat, n: int)
    requires Separated(sz, stackHead) && -0x8000_0000 <= n < 0x8000_0000 && Room(sz, stackHead, n) >= 5 * PGSIZE
    ensures sz + n <= stackHead - 5 * PGSIZE && 0 < sz <= USERTOP && stackHead <= USERTOP && stackHead - sz > GUARD
    ensures n > 0 ==>
              && sz <= sz + n <= USERTOP && Separated(sz + n, stackHead)
              && Pages(sz) <= Pages(sz + n) <= stackHead / PGSIZE && Pages(sz + n) <= USERPAGES
    ensures n < 0 ==>
              && Pages(sz) <= USERPAGES
              && (sz + n) % TWO_32 == (if sz + n < 0 then sz + n + TWO_32 else sz + n)
              && ((sz + n) % TWO_32 >= sz <==> sz + n < 0)
              && (sz + n < 0 ==> Pages((sz + n) % TWO_32) >= Pages(sz))
  {
  }

  /** The faults that growstack answers by growing the stack. */
  predicate StackFault(sz: nat, stackHead: nat, fault: nat)
    requires stackHead >= PGSIZE
  {
    !(fault < CODE || fault >= USERTOP || fault < stackHead - PGSIZE || (fault < sz + 5 * PGSIZE && fault > sz))
  }

  /** What is left of those tests once heap and stack are apart: the fault is in the stack or the
      page below it, and five pages or more above the heap. */
  lemma StackFaultMeans(sz: nat, stackHead: nat, fault: nat)
    requires Separated(sz, stackHead)
    ensures StackFault(sz, stackHead, fault) <==> stackHead - 0x1000 <= fault < 0xA_0000 && sz + 0x5000 <= fault
  {
  }

  lemma StackRoom(sz: nat, stackHead: nat)
    requires Separated(sz, stackHead) && stackHead - sz > 5 * PGSIZE
    ensures Separated(sz, stackHead - PGSIZE) && stackHead - PGSIZE > 0
    ensures Pages(sz) <= Pages(stackHead - PGSIZE) == (stackHead - PGSIZE) / PGSIZE <= Pages(stackHead) ==
        stackHead / PGSIZE <= USERPAGES
    ensures Pages(stackHead) == Pages(stackHead - PGSIZE) + 1
  {
  }

  /** A fault in the stack's new page is cured. */
  lemma FaultCured(mem: map<int, Page>, d: int, sz: nat, stackHead: nat, fault: nat)
    requires Image(mem, d, sz, stackHead) && stackHead <= fault < USERTOP
    ensures fault / PGSIZE < USERPAGES && Present(Pte(mem, d, fault / PGSIZE))
  {
  }

  // ----- fork

  lemma CopiedKept(mem: map<int, Page>, role: map<int, Role>, mem': map<int, Page>, p: int, d: int, lo: nat, hi: nat,
      lo': nat, hi': nat)
    requires MappingsOk(mem, role) && IsDir(mem, role, d) && IsDir(mem, role, p) && p != d && hi <= USERPAGES
    requires Mapped(mem, p, lo, hi) && Copied(mem, p, d, lo, hi) && p in mem' && d in mem'
    requires OnlyTablesWritten(mem, role, mem', d) && PtesKept(mem, mem', role, d, lo', hi') && hi <= lo'
    ensures Copied(mem', p, d, lo, hi)
  {
    hide Pte, UserPage, PageAt;
    forall v | lo <= v < hi
      ensures UserPage(mem', d, v, PageAt(mem', p, v))
    {
      PageAtKept(mem, role, mem', d, p, v);
      UserPageKept(mem, role, mem', d, d, v, PageAt(mem, p, v));
    }
  }

  lemma CopiedIsMapped(mem: map<int, Page>, p: int, d: int, lo: nat, hi: nat)
    requires p in mem && d in mem && hi <= NENTRIES * NENTRIES && Copied(mem, p, d, lo, hi)
    ensures Mapped(mem, d, lo, hi)
  {
    hide Pte;
    forall v | lo <= v < hi
      ensures Present(Pte(mem, d, v))
    {
      assert UserPage(mem, d, v, PageAt(mem, p, v));
    }
  }

  /** The pages of an image of this shape. */
  function ImagePages(sz: nat, stackHead: nat): int {
    (Pages(sz) - CODE / PGSIZE) + (USERPAGES - stackHead / PGSIZE)
  }

  /** copyuvm of this tree: the code and heap, then the stack. */
  method Copyuvm(m: Machine, p: int, sz: nat, stackaddr: nat) returns (d: int)
    requires m.Valid() && m.Space(p) && Image(m.mem, p, sz, stackaddr)
    modifies m
    ensures m.Valid() && m.Space(p) && Image(m.mem, p, sz, stackaddr)
    ensures d != 0 <==> |old(m.freelist)| >= KERNEL_PAGES + ImagePages(sz, stackaddr)
    ensures d != 0 ==>
              && m.Space(d) && d != p && Fresh(old(m.role), d) && Image(m.mem, d, sz, stackaddr)
              && Copied(m.mem, p, d, CODE / PGSIZE, Pages(sz)) && Copied(m.mem, p, d, stackaddr / PGSIZE, USERPAGES)
              && |m.freelist| == |old(m.freelist)| - KERNEL_PAGES - ImagePages(sz, stackaddr)
    ensures SpaceGrew(old(m.mem), old(m.role), m.mem, m.role, if old(m.freelist) == [] then 0 else old(m.freelist)[0])
    ensures PtesKept(old(m.mem), m.mem, old(m.role), 0, 0, 0)
    ensures d == 0 && |old(m.freelist)| >= KERNEL_PAGES ==> m.role == old(m.role)
    ensures |old(m.freelist)| < KERNEL_PAGES ==> m.freelist == []
  {
    hide Pte, TableOf, PteAddr, Present, FramesOk, FreeListOk, SlotsOk, MappingsOk, HoldersOk, UserPage;
    Gap(sz, stackaddr);
    ghost var lo, hi := CODE / PGSIZE, Pages(sz);
    d := m.Setupkvm();
    ParentKept(old(m.mem), m.mem, old(m.role), m.role, p, sz, stackaddr);
    if d == 0 {
      return;
    }
    KernelOnly(m.mem, d, m.data);
    label Made:
    var r := m.CopyRange(p, d, CODE, sz);
    UsersTaken(old@Made(m.role), m.role, d, lo, hi);
    SpaceGrewMore(old(m.mem), old(m.role), old@Made(m.mem), old@Made(m.role), m.mem, m.role, d, lo, hi);
    ParentKept(old(m.mem), m.mem, old(m.role), m.role, p, sz, stackaddr);
    if r == 0 {
      label Half:
      r := m.CopyRange(p, d, stackaddr, USERTOP);
      UsersTaken(old@Half(m.role), m.role, d, stackaddr / PGSIZE, USERPAGES);
      SpaceGrewMore(old(m.mem), old(m.role), old@Half(m.mem), old@Half(m.role), m.mem, m.role, d, stackaddr / PGSIZE,
          USERPAGES);
      ParentKept(old(m.mem), m.mem, old(m.role), m.role, p, sz, stackaddr);
      if r == 0 {
        ChildBuilt(old@Made(m.mem), old@Made(m.role), old@Half(m.mem), old@Half(m.role), m.mem, p, d, sz, stackaddr);
        return;
      }
    }
    label Bad:
    m.Freevm(d);
    SpaceUndone(old(m.mem), old(m.role), old@Bad(m.mem), old@Bad(m.role), m.mem, m.role, d);
    ParentKept(old(m.mem), m.mem, old(m.role), m.role, p, sz, stackaddr);
    return 0;
  }

  /** Taking free pages leaves the parent's image. */
  lemma ParentKept(mem: map<int, Page>, mem': map<int, Page>, role: map<int, Role>, role': map<int, Role>, p: int,
      sz: nat, stackHead: nat)
    requires IsDir(mem, role, p) && Image(mem, p, sz, stackHead) && PtesKept(mem, mem', role, 0, 0, 0)
    requires exists d :: SpaceGrew(mem, role, mem', role', d)
    ensures IsDir(mem', role', p) && Image(mem', p, sz, stackHead)
    ensures Pages(sz) <= USERPAGES && Mapped(mem', p, CODE / PGSIZE, Pages(sz))
        && Mapped(mem', p, stackHead / PGSIZE, USERPAGES)
  {
  }

  lemma ChildBuilt(mem: map<int, Page>, role: map<int, Role>, mem1: map<int, Page>, role1: map<int, Role>,
                   mem2: map<int, Page>, p: int, d: int, sz: nat, stackHead: nat)
    requires IsDir(mem, role, d) && TableOf(mem, d, 0) != 0 && Separated(sz, stackHead)
        && Unmapped(mem, d, 0, USERPAGES)
    requires IsDir(mem1, role1, d) && IsDir(mem1, role1, p) && p != d && MappingsOk(mem1, role1) && d in mem2
        && p in mem2
    requires PtesKept(mem, mem1, role, d, CODE / PGSIZE, Pages(sz)) && SameTables(mem, mem1, d)
    requires PtesKept(mem1, mem2, role1, d, stackHead / PGSIZE, USERPAGES) && SameTables(mem1, mem2, d)
    requires OnlyTablesWritten(mem1, role1, mem2, d)
    requires Pages(sz) <= USERPAGES && Mapped(mem1, p, CODE / PGSIZE, Pages(sz))
        && Copied(mem1, p, d, CODE / PGSIZE, Pages(sz))
    requires Copied(mem2, p, d, stackHead / PGSIZE, USERPAGES)
    ensures Image(mem2, d, sz, stackHead) && Copied(mem2, p, d, CODE / PGSIZE, Pages(sz))
  {
    hide Pte, Present, UserPage, PageAt, MappingsOk, OnlyTablesWritten;
    Gap(sz, stackHead);
    CopiedIsMapped(mem1, p, d, CODE / PGSIZE, Pages(sz));
    CopiedIsMapped(mem2, p, d, stackHead / PGSIZE, USERPAGES);
    CopiedKept(mem1, role1, mem2, p, d, CODE / PGSIZE, Pages(sz), stackHead / PGSIZE, USERPAGES);
  }

  /** Only free pages and user pages of `d` change their roles. */
  ghost predicate OnlyItsPages(role: map<int, Role>, role': map<int, Role>, d: int) {
    && role'.Keys == role.Keys
    && forall f :: f in role && role'[f] != role[f] ==> FreeOrOf(role[f], d) && !role[f].Dir? && !role[f].Table?
  }

  /** The contents of the image are as they were, page by page. */
  ghost predicate SameContents(mem: map<int, Page>, mem': map<int, Page>, d: int, sz: nat, stackHead: nat) {
    && d in mem && d in mem'
    && forall v :: 0 <= v < USERPAGES && InImage(v, sz, stackHead) ==> PageAt(mem', d, v) == PageAt(mem, d, v)
  }

  /** What one process does to its memory leaves another one's image and its contents alone. */
  lemma Undisturbed(mem: map<int, Page>, freelist: seq<int>, role: map<int, Role>, end: int,
                    mem': map<int, Page>, role': map<int, Role>, d: int, e: int, sz: nat, stackHead: nat)
    requires MachineOk(mem, freelist, role, end) && IsDir(mem, role, e) && e != d && Image(mem, e, sz, stackHead)
    requires OnlyItsPages(role, role', d) && DataKept(mem, role, mem', role', d)
        && PtesKept(mem, mem', role, d, 0, USERPAGES)
    ensures IsDir(mem', role', e) && Image(mem', e, sz, stackHead)
    ensures SameContents(mem, mem', e, sz, stackHead)
  {
    assert mem'[e] == mem[e];
    assert TableOf(mem', e, 0) == TableOf(mem, e, 0);
    hide Pte, Present, TableOf, PteAddr;
    forall v | 0 <= v < USERPAGES && InImage(v, sz, stackHead)
      ensures PageAt(mem', e, v) == PageAt(mem, e, v)
    {
      assert MappingOk(mem, role, e, v);
    }
  }

  /** What fork does leaves every process that was there as it was. */
  lemma Bystander(mem: map<int, Page>, mem': map<int, Page>, role: map<int, Role>, role': map<int, Role>, e: int,
                  sz: nat, stackHead: nat)
    requires IsDir(mem, role, e) && Image(mem, e, sz, stackHead) && PtesKept(mem, mem', role, 0, 0, 0)
        && MappingsOk(mem, role)
    requires exists d :: SpaceGrew(mem, role, mem', role', d)
    ensures IsDir(mem', role', e) && Image(mem', e, sz, stackHead) && SameContents(mem, mem', e, sz, stackHead)
  {
    ParentKept(mem, mem', role, role', e, sz, stackHead);
    hide Pte, Present, PteAddr, MappingsOk, Mapped, Image;
    forall v | 0 <= v < USERPAGES && InImage(v, sz, stackHead)
      ensures PageAt(mem', e, v) == PageAt(mem, e, v)
    {
      EntryOk(mem, role, e, v, sz, stackHead);
    }
  }

  lemma EntryOk(mem: map<int, Page>, role: map<int, Role>, e: int, v: int, sz: nat, stackHead: nat)
    requires IsDir(mem, role, e) && Image(mem, e, sz, stackHead) && MappingsOk(mem, role)
    requires 0 <= v < USERPAGES && InImage(v, sz, stackHead)
    ensures PteAddr(Pte(mem, e, v)) in mem && PteAddr(Pte(mem, e, v)) in role
    ensures role[PteAddr(Pte(mem, e, v))] == User(e, v)
  {
    hide Pte, PteAddr;
    assert MappingOk(mem, role, e, v);
  }

  datatype Step = Growing(n: int) | Faulting(fault: nat) | Forking

  /** Where the heap of a process ends and its stack begins. */
  datatype Shape = Shape(sz: nat, stackHead: nat)

  /** What a step does to the shape of the process that takes it, with `free` pages to be had. */
  ghost predicate Stepped(a: Shape, step: Step, free: nat, b: Shape, forked: bool) {
    match step
    case Growing(n) =>
      && !forked && b.stackHead == a.stackHead
      && b.sz == if n < -0x8000_0000 || n >= 0x8000_0000 || a.sz + n < 0x2000 || a.sz + n + 0x5000 > a.stackHead
                   || (n > 0 && Pages(a.sz + n) - Pages(a.sz) > free) then a.sz else a.sz + n
    case Faulting(fault) =>
      && !forked && b.sz == a.sz
      && b.stackHead == if a.stackHead - 0x1000 <= fault < 0xA_0000 && a.sz + 0x5000 <= fault
                          && a.stackHead - a.sz > 0x5000 && free > 0 then a.stackHead - 0x1000 else a.stackHead
    case Forking => b == a && (forked <==> free >= KERNEL_PAGES + ImagePages(a.sz, a.stackHead))
  }

  class Process {
    const m: Machine
    var pgdir: int
    var sz: nat
    var stackHead: nat

    ghost predicate Valid()
      reads this, m
    {
      m.Valid() && m.Space(pgdir) && Image(m.mem, pgdir, sz, stackHead)
    }

    /** The image exec builds for a program of `size` bytes; memory may not suffice. */
    constructor (machine: Machine, size: nat)
      requires machine.Valid() && Separated(size, USERTOP - PGSIZE)
      requires |machine.freelist| >= KERNEL_PAGES + Pages(size) - CODE / PGSIZE + 1
      modifies machine
      ensures Valid() && m == machine && sz == size && stackHead == USERTOP - PGSIZE
    {
      m := machine;
      var d := machine.Setupkvm();
      KernelOnly(machine.mem, d, machine.data);
      hide Pte, Present, MachineOk, KernelSoFar;
      Gap(size, USERTOP - PGSIZE);
      ghost var mem0, role0 := machine.mem, machine.role;
      var s := machine.Allocuvm(d, CODE, size);
      ghost var mem1, role1 := machine.mem, machine.role;
      FilledIsMapped(mem1, d, CODE / PGSIZE, Pages(size), Filled(0));
      assert Unmapped(mem1, d, USERPAGES - 1, USERPAGES);
      var t := machine.Allocuvm(d, USERTOP - PGSIZE, USERTOP);
      FilledIsMapped(machine.mem, d, USERPAGES - 1, USERPAGES, Filled(0));
      ImageBuilt(mem0, role0, mem1, role1, machine.mem, d, size);
      pgdir := d;
      sz := s;
      stackHead := USERTOP - PGSIZE;
    }

    /** allocuvm on behalf of growproc. */
    method Enlarge(n: int) returns (size: nat)
      requires Valid() && 0 < n < 0x8000_0000 && Room(sz, stackHead, n) >= 5 * PGSIZE
      modifies m
      ensures m.Valid() && m.Space(pgdir)
      ensures if Pages(sz + n) - Pages(sz) <= |old(m.freelist)| then
                && size == sz + n && Image(m.mem, pgdir, size, stackHead)
                && FilledWith(m.mem, pgdir, Pages(sz), Pages(size), Filled(0))
                && UsersGrew(old(m.role), m.role, pgdir, Pages(sz), Pages(size))
              else
                size == 0 && m.role == old(m.role) && Image(m.mem, pgdir, sz, stackHead)
      ensures DataKept(old(m.mem), old(m.role), m.mem, m.role, pgdir) && OnlyItsPages(old(m.role), m.role, pgdir)
      ensures PtesKept(old(m.mem), m.mem, old(m.role), pgdir, 0, USERPAGES)
    {
      ImageSpread(m.mem, pgdir, sz, stackHead);
      RoomMeans(sz, stackHead, n);
      hide Pte, Present, TableOf, MachineOk, Image, PtesKept, SameTables, Unmapped, Mapped, FilledWith, UsersGrew,
           OnlyTablesWritten, DataKept, OnlyItsPages, Pages, Room, Separated;
      GapUnmapped(m.mem, pgdir, sz, stackHead, Pages(sz), Pages(sz + n));
      size := m.Allocuvm(pgdir, sz, sz + n);
      NoneFreed(old(m.mem), old(m.role), m.mem, m.role, pgdir);
      PagesAdded(old(m.role), m.role, pgdir, Pages(sz), Pages(sz + n));
      WithinUser(old(m.mem), m.mem, old(m.role), pgdir, Pages(sz), Pages(sz + n));
      if size == 0 {
        ImageStays(old(m.mem), m.mem, old(m.role), pgdir, sz, stackHead, Pages(sz), Pages(sz + n));
      } else {
        FilledIsMapped(m.mem, pgdir, Pages(sz), Pages(sz + n), Filled(0));
        ImageGrew(old(m.mem), m.mem, old(m.role), pgdir, sz, stackHead, size, stackHead, Pages(sz), Pages(size));
      }
    }

    /** deallocuvm on behalf of growproc; the new size wraps around below zero. */
    method Reduce(n: int) returns (size: nat)
      requires Valid() && -0x8000_0000 <= n < 0 && Room(sz, stackHead, n) >= 5 * PGSIZE
      modifies m
      ensures m.Valid() && m.Space(pgdir)
      ensures if sz + n < 0 then size == sz && unchanged(m)
              else
                && size == sz + n && m.role == UsersFreed(old(m.role), pgdir, Pages(size), Pages(sz))
                && (Image(m.mem, pgdir, size, stackHead) <==> CODE <= size)
                && (size == 0 ==> (Image(m.mem, pgdir, sz, stackHead) <==> sz == CODE))
      ensures DataKept(old(m.mem), old(m.role), m.mem, m.role, pgdir) && OnlyItsPages(old(m.role), m.role, pgdir)
      ensures PtesKept(old(m.mem), m.mem, old(m.role), pgdir, 0, USERPAGES)
    {
      ImageSpread(m.mem, pgdir, sz, stackHead);
      RoomMeans(sz, stackHead, n);
      hide Pte, Present, TableOf, MachineOk, Image, PtesKept, SameTables, Unmapped, DataKept, OnlyItsPages, UsersFreed,
           Pages, Room, Separated;
      var newsz := (sz + n) % TWO_32;
      size := m.Deallocuvm(pgdir, sz, newsz);
      PagesDropped(old(m.role), pgdir, Pages(newsz), Pages(sz));
      WithinUser(old(m.mem), m.mem, old(m.role), pgdir, Pages(newsz), Pages(sz));
      if sz + n >= 0 {
        ImageShrank(old(m.mem), m.mem, old(m.role), pgdir, sz, stackHead, newsz);
      }
    }

    /** Grows or shrinks the heap by `n` bytes.  The image stays one unless the heap is shrunk
        into the part below the code; the gap stays above four pages in every case. */
    method Growproc(n: int) returns (r: int)
      requires Valid() && -0x8000_0000 <= n < 0x8000_0000
      modifies this`sz, m
      ensures m.Valid() && m.Space(pgdir) && stackHead - sz > GUARD
      ensures Room(old(sz), stackHead, n) < 5 * PGSIZE <==>
                old(sz) + n + 0x5000 > stackHead || stackHead - old(sz) - n >= 0x8000_0000
      ensures Room(old(sz), stackHead, n) < 5 * PGSIZE ==> r == -1 && sz == old(sz) && unchanged(m)
      ensures Room(old(sz), stackHead, n) >= 5 * PGSIZE && n > 0 ==>
                if Pages(old(sz) + n) - Pages(old(sz)) <= |old(m.freelist)| then
                  && r == 0 && sz == old(sz) + n
                  && FilledWith(m.mem, pgdir, Pages(old(sz)), Pages(sz), Filled(0))
                  && UsersGrew(old(m.role), m.role, pgdir, Pages(old(sz)), Pages(sz))
                else
                  r == -1 && sz == old(sz) && m.role == old(m.role)
      ensures Room(old(sz), stackHead, n) >= 5 * PGSIZE && n <= 0 ==>
                if old(sz) + n < 0 || n == 0 then r == 0 && sz == old(sz) && unchanged(m)
                else
                  && m.role == UsersFreed(old(m.role), pgdir, Pages(old(sz) + n), Pages(old(sz)))
                  && (if old(sz) + n == 0 then r == -1 && sz == old(sz) else r == 0 && sz == old(sz) + n)
      ensures Valid() <==>
                Room(old(sz), stackHead, n) < 5 * PGSIZE || !ShrinksTooFar(old(sz), n) || old(sz) == CODE == -n
      ensures DataKept(old(m.mem), old(m.role), m.mem, m.role, pgdir) && OnlyItsPages(old(m.role), m.role, pgdir)
      ensures PtesKept(old(m.mem), m.mem, old(m.role), pgdir, 0, USERPAGES)
    {
      ImageSpread(m.mem, pgdir, sz, stackHead);
      NothingDone(m.mem, m.role, pgdir);
      RefusedExactly(sz, stackHead, n);
      hide MachineOk, Image, PtesKept, FilledWith, UsersGrew, DataKept, UsersFreed, OnlyItsPages;
      if Room(sz, stackHead, n) < 5 * PGSIZE {
        return -1;
      }
      RoomMeans(sz, stackHead, n);
      hide Pages, ToInt, Room, Separated;
      var size := sz;
      if n > 0 {
        size := Enlarge(n);
        if size == 0 {
          return -1;
        }
      } else if n < 0 {
        size := Reduce(n);
        if size == 0 {
          return -1;
        }
      }
      sz := size;
      return 0;
    }

    /** Grows the stack by a page after a fault at `fault`. */
    method Growstack(fault: nat) returns (r: int)
      requires Valid()
      modifies this`stackHead, m
      ensures Valid()
      ensures r == if StackFault(sz, old(stackHead), fault) && old(stackHead) - sz > 5 * PGSIZE
          && old(m.freelist) != [] then 0 else -1
      ensures r == 0 <==>
                && old(stackHead) - 0x1000 <= fault < 0xA_0000 && sz + 0x5000 <= fault
                && old(stackHead) - sz > 0x5000 && old(m.freelist) != []
      ensures r == 0 ==>
                && stackHead == old(stackHead) - PGSIZE
                && FilledWith(m.mem, pgdir, stackHead / PGSIZE, old(stackHead) / PGSIZE, Filled(0))
                && UsersGrew(old(m.role), m.role, pgdir, stackHead / PGSIZE, old(stackHead) / PGSIZE)
                && fault / PGSIZE < USERPAGES && Present(Pte(m.mem, pgdir, fault / PGSIZE))
      ensures r == -1 ==> stackHead == old(stackHead) && m.role == old(m.role)
      ensures DataKept(old(m.mem), old(m.role), m.mem, m.role, pgdir) && OnlyItsPages(old(m.role), m.role, pgdir)
      ensures PtesKept(old(m.mem), m.mem, old(m.role), pgdir, 0, USERPAGES)
    {
      ImageSpread(m.mem, pgdir, sz, stackHead);
      NothingDone(m.mem, m.role, pgdir);
      StackFaultMeans(sz, stackHead, fault);
      hide Pte, Present, TableOf, MachineOk, Image, PtesKept, SameTables, Unmapped, Mapped, FilledWith, UsersGrew,
           OnlyTablesWritten, DataKept, OnlyItsPages;
      if fault < CODE || fault >= USERTOP || fault < stackHead - PGSIZE || (fault < sz + 5 * PGSIZE && fault > sz) {
        return -1;
      }
      if stackHead - sz > 5 * PGSIZE {
        StackRoom(sz, stackHead);
        ghost var lo, hi := (stackHead - PGSIZE) / PGSIZE, stackHead / PGSIZE;
        GapUnmapped(m.mem, pgdir, sz, stackHead, lo, hi);
        var t := m.Allocuvm(pgdir, stackHead - PGSIZE, stackHead);
        NoneFreed(old(m.mem), old(m.role), m.mem, m.role, pgdir);
        PagesAdded(old(m.role), m.role, pgdir, lo, hi);
        WithinUser(old(m.mem), m.mem, old(m.role), pgdir, lo, hi);
        if t != 0 {
          FilledIsMapped(m.mem, pgdir, lo, hi, Filled(0));
          ImageGrew(old(m.mem), m.mem, old(m.role), pgdir, sz, stackHead, sz, stackHead - PGSIZE, lo, hi);
          stackHead := stackHead - PGSIZE;
          FaultCured(m.mem, pgdir, sz, stackHead, fault);
          return 0;
        }
        ImageStays(old(m.mem), m.mem, old(m.role), pgdir, sz, stackHead, lo, hi);
      }
      return -1;
    }

    /** The process fork makes of a copied space. */
    constructor Child(parent: Process, d: int)
      requires parent.m.Valid() && parent.m.Space(d) && Image(parent.m.mem, d, parent.sz, parent.stackHead)
      ensures Valid() && m == parent.m && pgdir == d && sz == parent.sz && stackHead == parent.stackHead
    {
      m := parent.m;
      pgdir := d;
      sz := parent.sz;
      stackHead := parent.stackHead;
    }

    /** The child has an image of the same shape with the same contents, in pages of its own. */
    method Fork() returns (child: Process?)
      requires Valid()
      modifies m
      ensures Valid()
      ensures child != null <==> |old(m.freelist)| >= KERNEL_PAGES + ImagePages(sz, stackHead)
      ensures child != null ==>
                && fresh(child) && child.Valid() && child.m == m && child.pgdir != pgdir
                && child.sz == sz && child.stackHead == stackHead
                && Copied(m.mem, pgdir, child.pgdir, CODE / PGSIZE, Pages(sz))
                && Copied(m.mem, pgdir, child.pgdir, stackHead / PGSIZE, USERPAGES)
                && Fresh(old(m.role), child.pgdir)
      ensures child == null && |old(m.freelist)| >= KERNEL_PAGES ==> m.role == old(m.role)
      ensures SpaceGrew(old(m.mem), old(m.role), m.mem, m.role, if old(m.freelist) == [] then 0 else old(m.freelist)[0])
      ensures PtesKept(old(m.mem), m.mem, old(m.role), 0, 0, 0)
    {
      hide MachineOk, Image, PtesKept, SpaceGrew, Copied;
      var d := Copyuvm(m, pgdir, sz, stackHead);
      if d == 0 {
        return null;
      }
      child := new Process.Child(this, d);
    }

    /** This process among others on the same machine. */
    ghost predicate Among(others: set<Process>)
      reads this, m, others
    {
      Valid() && forall c :: c in others ==> c != this && c.m == m && c.pgdir != pgdir && c.Valid()
    }

    /** One step of this process while the others stand by: their images and the contents of
        their memory stay as they are. */
    method Take(step: Step, ghost others: set<Process>) returns (child: Process?)
      requires Among(others)
      modifies this`sz, this`stackHead, m
      ensures Valid() && (child != null ==> child.m == m && child.Valid())
      ensures Stepped(old(Shape(sz, stackHead)), step, |old(m.freelist)|, Shape(sz, stackHead), child != null)
      // the heap grows or shrinks by n bytes unless growproc refuses, and its new pages are zero
      ensures step.Growing? && sz > old(sz) ==> FilledWith(m.mem, pgdir, Pages(old(sz)), Pages(sz), Filled(0))
      ensures step.Growing? && sz < old(sz) ==> m.role == UsersFreed(old(m.role), pgdir, Pages(sz), Pages(old(sz)))
      ensures step.Growing? && old(sz) + step.n >= 0x2000 && old(sz) + step.n + 0x5000 <= stackHead ==>
                (step.n <= 0 || Pages(old(sz) + step.n) - Pages(old(sz)) <= |old(m.freelist)|) ==>
                  sz == old(sz) + step.n
      // the stack grows by a page for a fault in the page below it
      ensures step.Faulting? && old(stackHead) - 0x1000 <= step.fault < 0xA_0000 && sz + 0x5000 <= step.fault ==>
                (old(stackHead) - sz > 0x5000 && old(m.freelist) != []) ==>
                  && stackHead == old(stackHead) - 0x1000
                  && FilledWith(m.mem, pgdir, stackHead / PGSIZE, old(stackHead) / PGSIZE, Filled(0))
      // fork copies both regions
      ensures step.Forking? && |old(m.freelist)| >= KERNEL_PAGES + ImagePages(sz, stackHead) ==> child != null
      ensures child != null ==>
                && child.sz == sz && child.stackHead == stackHead
                && Copied(m.mem, pgdir, child.pgdir, CODE / PGSIZE, Pages(sz))
                && Copied(m.mem, pgdir, child.pgdir, stackHead / PGSIZE, USERPAGES)
      ensures Among(others + if child == null then {} else {child})
      ensures child != null ==> step.Forking? && fresh(child) && forall c :: c in others ==> c.pgdir != child.pgdir
      ensures forall c :: c in others ==> SameContents(old(m.mem), m.mem, c.pgdir, c.sz, c.stackHead)
    {
      hide MachineOk, Image, DataKept, OnlyItsPages, PtesKept, SpaceGrew, Copied, SameContents, Fresh;
      ImageSpread(m.mem, pgdir, sz, stackHead);
      child := null;
      match step
      case Growing(n) =>
        if -0x8000_0000 <= n < 0x8000_0000 && !ShrinksTooFar(sz, n) {
          var _ := Growproc(n);
          forall c | c in others
            ensures c.Valid() && SameContents(old(m.mem), m.mem, c.pgdir, c.sz, c.stackHead)
          {
            Undisturbed(old(m.mem), old(m.freelist), old(m.role), m.end, m.mem, m.role, pgdir, c.pgdir, c.sz,
                c.stackHead);
          }
        } else {
          forall c | c in others
            ensures SameContents(m.mem, m.mem, c.pgdir, c.sz, c.stackHead)
          {
            Unmoved(m.mem, c.pgdir, c.sz, c.stackHead);
          }
        }
      case Faulting(fault) =>
        var _ := Growstack(fault);
        forall c | c in others
          ensures c.Valid() && SameContents(old(m.mem), m.mem, c.pgdir, c.sz, c.stackHead)
        {
          Undisturbed(old(m.mem), old(m.freelist), old(m.role), m.end, m.mem, m.role, pgdir, c.pgdir, c.sz,
              c.stackHead);
        }
      case Forking =>
        child := Fork();
        forall c | c in others
          ensures c.Valid() && SameContents(old(m.mem), m.mem, c.pgdir, c.sz, c.stackHead)
          ensures child != null ==> c.pgdir != child.pgdir
        {
          ParentsMappings(old(m.mem), old(m.freelist), old(m.role), m.end);
          Bystander(old(m.mem), m.mem, old(m.role), m.role, c.pgdir, c.sz, c.stackHead);
          if child != null {
            NewSpace(old(m.mem), old(m.role), c.pgdir, child.pgdir);
          }
        }
    }
  }

  lemma Unmoved(mem: map<int, Page>, d: int, sz: nat, stackHead: nat)
    requires d in mem
    ensures SameContents(mem, mem, d, sz, stackHead)
  {
  }

  lemma ParentsMappings(mem: map<int, Page>, freelist: seq<int>, role: map<int, Role>, end: int)
    requires MachineOk(mem, freelist, role, end)
    ensures MappingsOk(mem, role)
  {
  }

  lemma NewSpace(mem: map<int, Page>, role: map<int, Role>, e: int, d: int)
    requires IsDir(mem, role, e) && Fresh(role, d)
    ensures e != d
  {
  }

  /** Processes of one machine, each with its image and no two in the same space. */
  ghost predicate Family(m: Machine, procs: seq<Process>)
    reads m, procs
  {
    && (forall p :: p in procs ==> p.m == m && p.Valid())
    && (forall i, j :: 0 <= i < j < |procs| ==> procs[i] != procs[j] && procs[i].pgdir != procs[j].pgdir)
  }

  /** A step and the place of the process that takes it, in order of birth. */
  datatype Turn = Turn(who: nat, step: Step)

  ghost function Shapes(procs: seq<Process>): (shapes: seq<Shape>)
    ensures |shapes| == |procs|
    ensures forall i :: 0 <= i < |procs| ==> shapes[i] == Shape(procs[i].sz, procs[i].stackHead)
    reads procs
  {
    seq(|procs|, i requires 0 <= i < |procs| reads procs => Shape(procs[i].sz, procs[i].stackHead))
  }

  /** What a turn does to the shapes of all processes, with `free` pages to be had. */
  ghost predicate TurnTaken(a: seq<Shape>, turn: Turn, free: nat, b: seq<Shape>) {
    var who := turn.who;
    if who >= |a| then b == a
    else
      && |a| <= |b| <= |a| + 1 && Stepped(a[who], turn.step, free, b[who], |b| > |a|)
      && (forall i :: 0 <= i < |a| && i != who ==> b[i] == a[i])
      && (|b| > |a| ==> b[|a|] == b[who])
  }

  lemma AllUnmoved(m: Machine, procs: seq<Process>)
    requires Family(m, procs)
    ensures forall c :: c in procs ==> SameContents(m.mem, m.mem, c.pgdir, c.sz, c.stackHead)
  {
    hide Image, MachineOk, SameContents;
    forall c | c in procs
      ensures SameContents(m.mem, m.mem, c.pgdir, c.sz, c.stackHead)
    {
      Unmoved(m.mem, c.pgdir, c.sz, c.stackHead);
    }
  }

  lemma TurnIs(a: seq<Shape>, turn: Turn, free: nat, b: seq<Shape>)
    requires turn.who >= |a| ==> b == a
    requires turn.who < |a| ==>
               && |a| <= |b| <= |a| + 1 && Stepped(a[turn.who], turn.step, free, b[turn.who], |b| > |a|)
               && (forall i :: 0 <= i < |a| && i != turn.who ==> b[i] == a[i])
               && (|b| > |a| ==> b[|a|] == b[turn.who])
    ensures TurnTaken(a, turn, free, b)
  {
  }

  /** One turn: a process that is there takes a step, and what it forks joins the family. */
  method TakeTurn(m: Machine, procs: seq<Process>, turn: Turn) returns (procs': seq<Process>)
    requires Family(m, procs)
    modifies m, set p | p in procs
    ensures Family(m, procs') && procs <= procs' && forall p :: p in procs' ==> p in procs || fresh(p)
    ensures TurnTaken(old(Shapes(procs)), turn, |old(m.freelist)|, Shapes(procs'))
    ensures forall i :: 0 <= i < |procs| && i != turn.who ==>
              procs[i].sz == old(procs[i].sz) && procs[i].stackHead == old(procs[i].stackHead)
              && SameContents(old(m.mem), m.mem, procs[i].pgdir, procs[i].sz, procs[i].stackHead)
  {
    hide Process.Valid, SameContents, Stepped, TurnTaken, FilledWith, Copied, UsersFreed, ImagePages, Pages;
    procs' := procs;
    ghost var a, free := Shapes(procs), |m.freelist|;
    if turn.who < |procs| {
      var p := procs[turn.who];
      ghost var others := set c | c in procs && c != p;
      var child := p.Take(turn.step, others);
      forall i | 0 <= i < |procs| && i != turn.who
        ensures procs[i] in others
      {
        assert procs[i] != p;
      }
      if child != null {
        procs' := procs + [child];
      }
      TurnIs(a, turn, free, Shapes(procs'));
    } else {
      TurnIs(a, turn, free, a);
      AllUnmoved(m, procs);
    }
  }

  /** Any run in which any process that is there grows its heap or stack or forks, with any
      arguments, except that growproc is never asked to shrink a heap below the code: every
      process, however descended, keeps its image and its gap, and no two share a space.  So
      fork always finds every page it has to copy.  `shapes` are the shapes of the processes before
      and after each turn, and `free` the numbers of free pages before it. */
  method Run(first: Process, turns: seq<Turn>)
    returns (procs: seq<Process>, ghost shapes: seq<seq<Shape>>, ghost free: seq<nat>)
    requires first.Valid()
    modifies first, first.m
    ensures Family(first.m, procs) && |procs| > 0 && procs[0] == first
    ensures |shapes| == |turns| + 1 && shapes[0] == [old(Shape(first.sz, first.stackHead))]
    ensures shapes[|turns|] == Shapes(procs) && |free| == |turns|
    ensures forall k :: 0 <= k < |turns| ==> TurnTaken(shapes[k], turns[k], free[k], shapes[k + 1])
  {
    hide Image, TurnTaken, Stepped;
    procs, free := [first], [];
    shapes := [Shapes(procs)];
    for k := 0 to |turns|
      invariant Family(first.m, procs) && |procs| > 0 && procs[0] == first && forall p :: p in procs ==>
          p == first || fresh(p)
      invariant |shapes| == k + 1 && shapes[0] == [old(Shape(first.sz, first.stackHead))] && |free| == k
      invariant shapes[k] == Shapes(procs)
      invariant forall i :: 0 <= i < k ==> TurnTaken(shapes[i], turns[i], free[i], shapes[i + 1])
    {
      free := free + [|first.m.freelist|];
      procs := TakeTurn(first.m, procs, turns[k]);
      shapes := shapes + [Shapes(procs)];
    }
  }
}
