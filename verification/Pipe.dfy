/** Pipes: pipewrite, piperead and pipeclose of kernel/pipe.c over sleep, wakeup1 and kill of
    kernel/proc.c.

    A step is what one process does from acquiring the pipe's lock to releasing it, in a return
    or in sleep; sleep releases the lock and changes the state in one go.  Steps of the
    processes interleave in any order. */
module Pipe {

  const PIPESIZE := 512
  const NPROC := 64
  const TWO_32 := 0x1_0000_0000

  datatype State = Unused | Sleeping | Runnable | Running
  datatype Channel = NoChannel | NRead | NWrite

  /** What a process is doing with the pipe: writing `addr` from index `i` on, or reading. */
  datatype Call = Outside | Writing(addr: seq<char>, i: nat) | Reading(n: nat)

  datatype Proc = Proc(state: State, chan: Channel, killed: bool, call: Call)

  datatype Outcome = Returned(r: int) | Asleep

  // ----- the ring of bytes

  /** Counters modulo 2^32 over the bytes ever written and ever read. */
  ghost predicate RingOk(data: seq<char>, nread: nat, nwrite: nat, written: seq<char>, taken: seq<char>) {
    && |data| == PIPESIZE
    && nread == |taken| % TWO_32 && nwrite == |written| % TWO_32
    && taken <= written && |written| - |taken| <= PIPESIZE
    && forall k :: |taken| <= k < |written| ==> data[k % PIPESIZE] == written[k]
  }

  /** The tests on the counters tell full and empty, across their wrap-around. */
  lemma CountersTell(nread: nat, nwrite: nat, r: nat, w: nat)
    requires nread == r % TWO_32 && nwrite == w % TWO_32 && r <= w <= r + PIPESIZE
    ensures nwrite == (nread + PIPESIZE) % TWO_32 <==> w == r + PIPESIZE
    ensures nread == nwrite <==> w == r
    ensures nread % PIPESIZE == r % PIPESIZE && nwrite % PIPESIZE == w % PIPESIZE
    ensures (nwrite + 1) % TWO_32 == (w + 1) % TWO_32 && (nread + 1) % TWO_32 == (r + 1) % TWO_32
  {
    var qr, qw := r / TWO_32, w / TWO_32;
    assert r == qr * TWO_32 + nread && w == qw * TWO_32 + nwrite;
    assert qr <= qw <= qr + 1;
    Residue(r, qr, nread);
    Residue(w, qw, nwrite);
    Successor(w);
    Successor(r);
  }

  lemma Residue(x: nat, q: nat, m: nat)
    requires x == q * TWO_32 + m
    ensures x % PIPESIZE == m % PIPESIZE
  {
  }

  lemma Successor(x: nat)
    ensures (x % TWO_32 + 1) % TWO_32 == (x + 1) % TWO_32
  {
  }

  lemma Slots(a: nat, b: nat)
    requires a < b < a + PIPESIZE
    ensures a % PIPESIZE != b % PIPESIZE
  {
  }

  lemma RingCounts(data: seq<char>, nread: nat, nwrite: nat, written: seq<char>, taken: seq<char>)
    requires RingOk(data, nread, nwrite, written, taken)
    ensures taken <= written && |written| - |taken| <= PIPESIZE && |data| == PIPESIZE
    ensures nwrite == (nread + PIPESIZE) % TWO_32 <==> |written| == |taken| + PIPESIZE
    ensures nread == nwrite <==> |written| == |taken|
  {
    CountersTell(nread, nwrite, |taken|, |written|);
  }

  lemma BytePut(data: seq<char>, nread: nat, nwrite: nat, written: seq<char>, taken: seq<char>, c: char)
    requires RingOk(data, nread, nwrite, written, taken) && |written| < |taken| + PIPESIZE
    ensures RingOk(data[nwrite % PIPESIZE := c], nread, (nwrite + 1) % TWO_32, written + [c], taken)
  {
    CountersTell(nread, nwrite, |taken|, |written|);
    forall k | |taken| <= k < |written|
      ensures k % PIPESIZE != nwrite % PIPESIZE
    {
      Slots(k, |written|);
    }
  }

  lemma ByteGot(data: seq<char>, nread: nat, nwrite: nat, written: seq<char>, taken: seq<char>)
    requires RingOk(data, nread, nwrite, written, taken) && |taken| < |written|
    ensures data[nread % PIPESIZE] == written[|taken|]
    ensures RingOk(data, (nread + 1) % TWO_32, nwrite, written, taken + [written[|taken|]])
  {
    CountersTell(nread, nwrite, |taken|, |written|);
  }

  // ----- who sleeps

  predicate SleepsOn(p: Proc, chan: Channel) {
    p.state == Sleeping && p.chan == chan
  }

  ghost predicate SomeoneSleeps(procs: seq<Proc>, chan: Channel) {
    exists p :: 0 <= p < |procs| && SleepsOn(procs[p], chan)
  }

  lemma SameSleepers(a: seq<Proc>, b: seq<Proc>, chan: Channel)
    requires |a| == |b| && forall p :: 0 <= p < |a| ==> (SleepsOn(a[p], chan) <==> SleepsOn(b[p], chan))
    ensures SomeoneSleeps(a, chan) <==> SomeoneSleeps(b, chan)
  {
    forall p | 0 <= p < |a| && SleepsOn(a[p], chan)
      ensures SomeoneSleeps(b, chan)
    {
      assert SleepsOn(b[p], chan);
    }
  }

  function Woken(p: Proc, chan: Channel): Proc {
    if SleepsOn(p, chan) then p.(state := Runnable) else p
  }

  function Min(a: int, b: int): int {
    if a < b then a else b
  }

  // ----- what the events do

  datatype Event =
    | Dispatching(p: nat)
    | Calling(p: nat, call: Call)
    | Stepping(p: nat)
    | Closing(writable: bool)
    | Killing(p: nat)

  /** The streams, the two ends and the processes. */
  datatype View = View(written: seq<char>, taken: seq<char>, readopen: bool, writeopen: bool, procs: seq<Proc>)

  function AllWoken(procs: seq<Proc>, chan: Channel): (woken: seq<Proc>)
    ensures |woken| == |procs| && forall p :: 0 <= p < |procs| ==> woken[p] == Woken(procs[p], chan)
  {
    seq(|procs|, p requires 0 <= p < |procs| => Woken(procs[p], chan))
  }

  function AfterRead(v: View, me: nat): View
    requires me < |v.procs| && v.procs[me].call.Reading? && |v.taken| <= |v.written|
  {
    var x, m := v.procs[me], |v.taken|;
    if m == |v.written| && v.writeopen then
      v.(procs := v.procs[me := if x.killed then x.(chan := NoChannel, call := Outside)
                                else x.(chan := NRead, state := Sleeping)])
    else
      v.(taken := v.taken + v.written[m..m + Min(x.call.n, |v.written| - m)],
         procs := AllWoken(v.procs, NWrite)[me := x.(chan := NoChannel, call := Outside)])
  }

  function AfterWrite(v: View, me: nat): View
    requires me < |v.procs| && v.procs[me].call.Writing? && v.procs[me].call.i <= |v.procs[me].call.addr|
    requires |v.written| <= |v.taken| + PIPESIZE
  {
    var x := v.procs[me];
    var addr, i := x.call.addr, x.call.i;
    var k := Min(|addr| - i, PIPESIZE - (|v.written| - |v.taken|));
    var w := v.(written := v.written + addr[i..i + k]);
    if i + k < |addr| && (!v.readopen || x.killed) then
      w.(procs := v.procs[me := x.(chan := NoChannel, call := Outside)])
    else
      w.(procs := AllWoken(v.procs, NRead)[me :=
          if i + k == |addr| then x.(chan := NoChannel, call := Outside)
          else x.(chan := NWrite, state := Sleeping, call := Writing(addr, i + k))])
  }

  lemma IsAfterRead(v: View, me: nat, w: View, got: seq<char>, asleep: bool, gaveUp: bool)
    requires me < |v.procs| == |w.procs| && v.procs[me].call.Reading? && v.procs[me].state == Running
    requires v.taken <= v.written
    requires w.written == v.written && w.taken == v.taken + got && w.taken <= w.written
    requires w.readopen == v.readopen && w.writeopen == v.writeopen
    requires if |v.taken| == |v.written| && v.writeopen then
               got == [] && gaveUp == v.procs[me].killed && asleep == !gaveUp
             else
               !asleep && !gaveUp && |got| == Min(v.procs[me].call.n, |v.written| - |v.taken|)
    requires w.procs[me] == v.procs[me].(
               chan := if asleep then NRead else NoChannel, state := if asleep then Sleeping else Running,
               call := if asleep then v.procs[me].call else Outside)
    requires forall p :: 0 <= p < |v.procs| && p != me ==>
               w.procs[p] == if asleep || gaveUp then v.procs[p] else Woken(v.procs[p], NWrite)
    ensures w == AfterRead(v, me)
  {
    var m := |v.taken|;
    assert got == w.taken[m..] == v.written[m..m + |got|];
    assert w.procs == AfterRead(v, me).procs;
  }

  lemma IsAfterWrite(v: View, me: nat, w: View, k: nat, asleep: bool, gaveUp: bool)
    requires me < |v.procs| == |w.procs| && v.procs[me].call.Writing? && v.procs[me].state == Running
    requires v.procs[me].call.i <= |v.procs[me].call.addr| && |v.written| <= |v.taken| + PIPESIZE
    requires var addr, i := v.procs[me].call.addr, v.procs[me].call.i;
             && k == Min(|addr| - i, PIPESIZE - (|v.written| - |v.taken|)) && w.written == v.written + addr[i..i + k]
             && gaveUp == (i + k < |addr| && (!v.readopen || v.procs[me].killed))
             && asleep == (i + k < |addr| && !gaveUp)
             && w.procs[me] == v.procs[me].(
                  chan := if asleep then NWrite else NoChannel, state := if asleep then Sleeping else Running,
                  call := if asleep then Writing(addr, i + k) else Outside)
    requires w.taken == v.taken && w.readopen == v.readopen && w.writeopen == v.writeopen
    requires forall p :: 0 <= p < |v.procs| && p != me ==>
               w.procs[p] == if gaveUp then v.procs[p] else Woken(v.procs[p], NRead)
    ensures w == AfterWrite(v, me)
  {
    assert w.procs == AfterWrite(v, me).procs;
  }

  /** What an event makes of the pipe and the processes; nothing if it cannot happen. */
  function After(v: View, e: Event): View
    requires |v.taken| <= |v.written| <= |v.taken| + PIPESIZE
  {
    match e
    case Closing(writable) =>
      if writable then v.(writeopen := false, procs := AllWoken(v.procs, NRead))
      else v.(readopen := false, procs := AllWoken(v.procs, NWrite))
    case Killing(p) =>
      if p >= |v.procs| then v
      else
        var x := v.procs[p];
        v.(procs := v.procs[p := x.(killed := true, state := if x.state == Sleeping then Runnable else x.state)])
    case Dispatching(p) =>
      if p >= |v.procs| || v.procs[p].state != Runnable then v
      else v.(procs := v.procs[p := v.procs[p].(state := Running)])
    case Calling(p, call) =>
      if p >= |v.procs| || v.procs[p].state != Running || v.procs[p].call != Outside
        || (call.Writing? && call.i != 0) then v
      else v.(procs := v.procs[p := v.procs[p].(call := call)])
    case Stepping(p) =>
      if p >= |v.procs| || v.procs[p].state != Running then v
      else if v.procs[p].call.Reading? then AfterRead(v, p)
      else if v.procs[p].call.Writing? && v.procs[p].call.i <= |v.procs[p].call.addr| then AfterWrite(v, p)
      else v
  }

  /** A running reader's step takes the next bytes, as many as there are up to `n`, and wakes the
      writers; it sleeps only on an empty pipe with an open write end. */
  lemma ReaderTakes(v: View, p: nat, n: nat)
    requires v.taken <= v.written && |v.written| <= |v.taken| + PIPESIZE && p < |v.procs|
    requires v.procs[p].state == Running && v.procs[p].call == Reading(n)
    ensures var w := After(v, Stepping(p));
            && w.written == v.written && w.taken <= w.written && w.readopen == v.readopen && w.writeopen == v.writeopen
            && (|v.taken| < |v.written| || !v.writeopen ==>
                  && |w.taken| == (if |v.taken| + n <= |v.written| then |v.taken| + n else |v.written|)
                  && w.procs[p].state == Running && w.procs[p].call == Outside
                  && forall q :: 0 <= q < |v.procs| && q != p ==>
                       w.procs[q] == if v.procs[q].state == Sleeping && v.procs[q].chan == NWrite
                                     then v.procs[q].(state := Runnable) else v.procs[q])
            && (|v.taken| == |v.written| && v.writeopen ==>
                  && w.taken == v.taken && (forall q :: 0 <= q < |v.procs| && q != p ==> w.procs[q] == v.procs[q])
                  && if v.procs[p].killed then w.procs[p].state == Running && w.procs[p].call == Outside
                     else w.procs[p].state == Sleeping && w.procs[p].chan == NRead && w.procs[p].call == Reading(n))
  {
    assert v.taken + v.written[|v.taken|..] == v.written;
  }

  /** A running writer's step puts in what there is room for and, unless it gives up, wakes the
      readers; it sleeps only on a full pipe with an open read end. */
  lemma WriterPuts(v: View, p: nat, addr: seq<char>, i: nat)
    requires |v.taken| <= |v.written| <= |v.taken| + PIPESIZE && p < |v.procs| && i <= |addr|
    requires v.procs[p].state == Running && v.procs[p].call == Writing(addr, i)
    ensures var w, room := After(v, Stepping(p)), |v.taken| + 512 - |v.written|;
            && w.taken == v.taken && w.readopen == v.readopen && w.writeopen == v.writeopen
            && (|addr| - i <= room ==>
                  w.written == v.written + addr[i..] && w.procs[p].state == Running && w.procs[p].call == Outside)
            && (|addr| - i > room ==>
                  && w.written == v.written + addr[i..i + room]
                  && if !v.readopen || v.procs[p].killed then
                       w.procs[p].state == Running && w.procs[p].call == Outside
                     else
                       && w.procs[p].state == Sleeping && w.procs[p].chan == NWrite
                       && w.procs[p].call == Writing(addr, i + room))
            && (|addr| - i <= room || (v.readopen && !v.procs[p].killed) ==>
                  forall q :: 0 <= q < |v.procs| && q != p ==>
                    w.procs[q] == if v.procs[q].state == Sleeping && v.procs[q].chan == NRead
                                  then v.procs[q].(state := Runnable) else v.procs[q])
  {
  }

  /** No event loses a byte, makes one up or overfills the pipe. */
  lemma AfterKeeps(v: View, e: Event)
    requires v.taken <= v.written && |v.written| <= |v.taken| + PIPESIZE
    ensures var w := After(v, e);
            && w.taken <= w.written && |w.written| <= |w.taken| + PIPESIZE
            && v.written <= w.written && v.taken <= w.taken && |w.procs| == |v.procs|
  {
    if e.Stepping? && e.p < |v.procs| && v.procs[e.p].state == Running {
      match v.procs[e.p].call
      case Reading(n) =>
        ReaderTakes(v, e.p, n);
      case Writing(addr, i) =>
        if i <= |addr| {
          WriterPuts(v, e.p, addr, i);
        }
      case Outside =>
    }
  }

  /** The events one after the other. */
  function Ran(v: View, events: seq<Event>): (u: View)
    requires v.taken <= v.written && |v.written| <= |v.taken| + PIPESIZE
    ensures |u.procs| == |v.procs| && v.written <= u.written && v.taken <= u.taken <= u.written
    ensures |u.written| <= |u.taken| + PIPESIZE
    decreases |events|
  {
    if events == [] then v else
      AfterKeeps(v, events[0]);
      Ran(After(v, events[0]), events[1..])
  }

  lemma RanThree(v: View, e0: Event, e1: Event, e2: Event)
    requires v.taken <= v.written && |v.written| <= |v.taken| + PIPESIZE
    ensures Ran(v, [e0, e1, e2]) == Ran(After(v, e0), [e1, e2])
    ensures Ran(v, [e0, e1]) == Ran(After(v, e0), [e1]) && Ran(v, [e0]) == After(v, e0)
  {
    hide After;
    AfterKeeps(v, e0);
    assert [e0, e1, e2][1..] == [e1, e2] && [e0, e1][1..] == [e1] && [e0][1..] == [];
  }

  lemma CalledAndDispatched(v: View, p: nat, call: Call)
    requires |v.taken| <= |v.written| <= |v.taken| + PIPESIZE && p < |v.procs|
    ensures v.procs[p].state == Running && v.procs[p].call == Outside && (call.Writing? ==> call.i == 0) ==>
              After(v, Calling(p, call)) == v.(procs := v.procs[p := v.procs[p].(call := call)])
    ensures v.procs[p].state == Runnable ==>
              After(v, Dispatching(p)) == v.(procs := v.procs[p := v.procs[p].(state := Running)])
  {
  }

  /** A whole write into an empty pipe, in two events. */
  lemma WholeWrite(v: View, w: nat, addr: seq<char>)
    requires v.taken == v.written && w < |v.procs| && v.procs[w].state == Running && v.procs[w].call == Outside
    requires |addr| <= 512
    ensures var u := Ran(v, [Calling(w, Writing(addr, 0)), Stepping(w)]);
            && u.written == v.written + addr && u.taken == v.taken && u.writeopen == v.writeopen
            && u.procs[w].call == Outside && |u.written| <= |u.taken| + 512
            && forall q :: 0 <= q < |v.procs| && q != w ==>
                 u.procs[q] == if SleepsOn(v.procs[q], NRead) then v.procs[q].(state := Runnable) else v.procs[q]
  {
    hide After, Ran;
    var e0, e1 := Calling(w, Writing(addr, 0)), Stepping(w);
    CalledAndDispatched(v, w, Writing(addr, 0));
    var u := After(v, e0);
    WriterPuts(u, w, addr, 0);
    assert addr[0..] == addr;
    RanThree(v, e0, e1, e1);
    RanThree(u, e1, e1, e1);
  }

  /** A reader that sleeps on an empty pipe gets the bytes that somebody then writes. */
  lemma Handover(v: View, r: nat, w: nat, n: nat, addr: seq<char>)
    requires v.taken == v.written && v.writeopen && r < |v.procs| && w < |v.procs| && r != w
    requires SleepsOn(v.procs[r], NRead) && v.procs[r].call == Reading(n)
    requires v.procs[w].state == Running && v.procs[w].call == Outside && |addr| <= 512
    ensures var u := Ran(Ran(v, [Calling(w, Writing(addr, 0)), Stepping(w)]), [Dispatching(r), Stepping(r)]);
            && u.written == v.written + addr && u.taken == v.taken + addr[..if n < |addr| then n else |addr|]
            && (addr != [] ==> u.procs[r].call == Outside)
  {
    hide After, Ran;
    WholeWrite(v, w, addr);
    var v2 := Ran(v, [Calling(w, Writing(addr, 0)), Stepping(w)]);
    CalledAndDispatched(v2, r, Outside);
    var v3 := After(v2, Dispatching(r));
    ReaderTakes(v3, r, n);
    RanThree(v2, Dispatching(r), Stepping(r), Stepping(r));
    RanThree(v3, Stepping(r), Stepping(r), Stepping(r));
  }

  class Pipe {
    const data: array<char>
    const table: array<Proc>
    var nread: nat
    var nwrite: nat
    var readopen: bool
    var writeopen: bool
    ghost var written: seq<char>
    ghost var taken: seq<char>

    ghost predicate Ring()
      reads this, data
    {
      RingOk(data[..], nread, nwrite, written, taken)
    }

    ghost function Now(): View
      reads this, table
    {
      View(written, taken, readopen, writeopen, table[..])
    }

    ghost predicate ReaderAsleep()
      reads this, table
    {
      SomeoneSleeps(table[..], NRead)
    }

    /** A reader sleeps although there is something to read. */
    ghost predicate ReaderForgotten()
      reads this, table
    {
      readopen && |taken| < |written| && ReaderAsleep()
    }

    /** A reader sleeps only while a writer may come, a writer only while there is no room and
        a reader may come. */
    ghost predicate SleepersOk()
      reads this, table
    {
      forall p :: 0 <= p < table.Length ==>
        && (SleepsOn(table[p], NRead) ==> writeopen)
        && (SleepsOn(table[p], NWrite) ==> |written| == |taken| + PIPESIZE && readopen)
    }

    ghost predicate Valid()
      reads this, data, table
    {
      data.Length == PIPESIZE && table.Length == NPROC && Ring() && SleepersOk()
    }

    /** pipealloc, with a table of processes none of which sleeps on the pipe. */
    constructor (procs: seq<Proc>)
      requires |procs| == NPROC && forall p :: 0 <= p < NPROC ==> procs[p].state != Sleeping
      ensures Valid() && readopen && writeopen && written == [] == taken && !ReaderForgotten()
      ensures fresh(data) && fresh(table) && table[..] == procs
    {
      data := new char[PIPESIZE];
      table := new Proc[NPROC](i requires 0 <= i < NPROC => procs[i]);
      nread := 0;
      nwrite := 0;
      readopen := true;
      writeopen := true;
      written := [];
      taken := [];
    }

    /** wakeup1 */
    method Wakeup(chan: Channel)
      modifies table
      ensures forall p :: 0 <= p < table.Length ==>
                table[p] == if old(table[p].state) == Sleeping && old(table[p].chan) == chan
                            then old(table[p]).(state := Runnable) else old(table[p])
    {
      var i := 0;
      while i < table.Length
        invariant 0 <= i <= table.Length
        invariant forall p :: 0 <= p < table.Length ==>
                    table[p] == if p < i then Woken(old(table[p]), chan) else old(table[p])
      {
        if table[i].state == Sleeping && table[i].chan == chan {
          table[i] := table[i].(state := Runnable);
        }
        i := i + 1;
      }
    }

    /** One step of pipewrite: bytes go in while there is room.  If not all fit, the process
        sleeps, or gives up when there is no reader or it was killed. */
    method Pipewrite(me: nat) returns (out: Outcome)
      requires Valid() && me < NPROC && table[me].state == Running && table[me].call.Writing?
      requires table[me].call.i <= |table[me].call.addr|
      modifies this, data, table
      ensures Valid() && readopen == old(readopen) && writeopen == old(writeopen) && taken == old(taken)
      ensures var addr, i := old(table[me].call.addr), old(table[me].call.i);
              var k := Min(|addr| - i, PIPESIZE - (|old(written)| - |taken|));
              && 0 <= k && written == old(written) + addr[i..i + k]
              && out == (if i + k == |addr| then Returned(|addr|)
                         else if !readopen || old(table[me].killed) then Returned(-1) else Asleep)
              && table[me] == old(table[me]).(
                   chan := if out == Asleep then NWrite else NoChannel,
                   state := if out == Asleep then Sleeping else Running,
                   call := if out == Asleep then Writing(addr, i + k) else Outside)
      ensures ReaderForgotten() <==>
                && readopen && old(table[me].killed) && old(ReaderAsleep())
                && |old(table[me].call.addr)| - old(table[me].call.i) > PIPESIZE - (|old(written)| - |taken|)
      ensures forall p :: 0 <= p < NPROC && p != me ==>
                table[p] == if out == Returned(-1) then old(table[p]) else Woken(old(table[p]), NRead)
    {
      hide RingOk;
      var addr, i := table[me].call.addr, table[me].call.i;
      var killed := table[me].killed;
      table[me] := table[me].(chan := NoChannel);
      ghost var start := i;
      while i < |addr|
        invariant start <= i <= |addr| && data.Length == PIPESIZE && Ring()
        invariant written == old(written) + addr[start..i] && taken == old(taken)
        invariant readopen == old(readopen) && writeopen == old(writeopen)
        invariant table[..] == old(table[..])[me := table[me]] && table[me] == old(table[me]).(chan := NoChannel)
      {
        RingCounts(data[..], nread, nwrite, written, taken);
        if nwrite == (nread + PIPESIZE) % TWO_32 {
          if !readopen || killed {
            table[me] := table[me].(call := Outside);
            SameSleepers(old(table[..]), table[..], NRead);
            return Returned(-1);
          }
          Wakeup(NRead);
          table[me] := table[me].(chan := NWrite, state := Sleeping, call := Writing(addr, i));
          return Asleep;
        }
        BytePut(data[..], nread, nwrite, written, taken, addr[i]);
        data[nwrite % PIPESIZE] := addr[i];
        nwrite := (nwrite + 1) % TWO_32;
        written := written + [addr[i]];
        i := i + 1;
      }
      RingCounts(data[..], nread, nwrite, written, taken);
      Wakeup(NRead);
      table[me] := table[me].(call := Outside);
      return Returned(|addr|);
    }

    /** The copying loop of piperead: up to `n` bytes, as many as there are. */
    method TakeBytes(n: nat) returns (addr: seq<char>)
      requires data.Length == PIPESIZE && Ring()
      modifies `nread, `taken
      ensures Ring() && taken == old(taken) + addr && |addr| == Min(n, |written| - |old(taken)|)
    {
      hide RingOk;
      addr := [];
      RingCounts(data[..], nread, nwrite, written, taken);
      var i := 0;
      while i < n
        invariant 0 <= i <= n && |addr| == i && Ring() && taken == old(taken) + addr && |taken| <= |written|
      {
        RingCounts(data[..], nread, nwrite, written, taken);
        if nread == nwrite {
          break;
        }
        ByteGot(data[..], nread, nwrite, written, taken);
        addr := addr + [data[nread % PIPESIZE]];
        taken := taken + [data[nread % PIPESIZE]];
        nread := (nread + 1) % TWO_32;
        i := i + 1;
      }
      RingCounts(data[..], nread, nwrite, written, taken);
    }

    /** One step of piperead: it takes what there is, up to `n` bytes, or sleeps while there is
        nothing and a writer may come. */
    method Piperead(me: nat) returns (out: Outcome, addr: seq<char>)
      requires Valid() && me < NPROC && table[me].state == Running && table[me].call.Reading?
      modifies this, data, table
      ensures Valid() && readopen == old(readopen) && writeopen == old(writeopen)
      ensures written == old(written)
      ensures taken == old(taken) + addr
      ensures ReaderForgotten() <==> old(ReaderForgotten()) && |taken| < |written|
      ensures var n := old(table[me].call.n);
              if |old(taken)| == |written| && writeopen then
                addr == [] && out == if old(table[me].killed) then Returned(-1) else Asleep
              else
                |addr| == Min(n, |written| - |old(taken)|) && out == Returned(|addr|)
      ensures table[me] == old(table[me]).(
                chan := if out == Asleep then NRead else NoChannel,
                state := if out == Asleep then Sleeping else Running,
                call := if out == Asleep then old(table[me].call) else Outside)
      ensures forall p :: 0 <= p < NPROC && p != me ==>
                table[p] == if out == Asleep || out == Returned(-1) then old(table[p]) else Woken(old(table[p]), NWrite)
    {
      hide RingOk, SomeoneSleeps;
      addr := [];
      var n := table[me].call.n;
      table[me] := table[me].(chan := NoChannel);
      RingCounts(data[..], nread, nwrite, written, taken);
      if nread == nwrite && writeopen {
        if table[me].killed {
          table[me] := table[me].(call := Outside);
          return Returned(-1), [];
        }
        table[me] := table[me].(chan := NRead, state := Sleeping);
        return Asleep, [];
      }
      addr := TakeBytes(n);
      RingCounts(data[..], nread, nwrite, written, taken);
      Wakeup(NWrite);
      table[me] := table[me].(call := Outside);
      SameSleepers(old(table[..]), table[..], NRead);
      return Returned(|addr|), addr;
    }

    /** pipeclose */
    method Pipeclose(writable: bool)
      requires Valid()
      modifies this, table
      ensures Valid() && written == old(written) && taken == old(taken) && !ReaderForgotten()
      ensures writeopen == (old(writeopen) && !writable) && readopen == (old(readopen) && writable)
      ensures forall p :: 0 <= p < NPROC ==> table[p] == Woken(old(table[p]), if writable then NRead else NWrite)
    {
      if writable {
        writeopen := false;
        Wakeup(NRead);
      } else {
        readopen := false;
        Wakeup(NWrite);
      }
    }

    /** kill: the process runs again, whatever it slept for. */
    method Kill(p: nat)
      requires Valid() && p < NPROC
      modifies table
      ensures Valid() && (ReaderForgotten() ==> old(ReaderForgotten()))
      ensures table[p].killed && table[p].chan == old(table[p].chan) && table[p].call == old(table[p].call)
      ensures table[p].state == if old(table[p].state) == Sleeping then Runnable else old(table[p].state)
      ensures forall q :: 0 <= q < NPROC && q != p ==> table[q] == old(table[q])
    {
      table[p] := table[p].(killed := true);
      if table[p].state == Sleeping {
        table[p] := table[p].(state := Runnable);
      }
    }

    lemma NotBothAsleep(r: nat, w: nat)
      requires Valid() && !ReaderForgotten() && r < NPROC && w < NPROC
      ensures !(SleepsOn(table[r], NRead) && SleepsOn(table[w], NWrite))
    {
    }

    /** Any steps in any order.  What is read is what was written, in order, with nothing lost,
        repeated or made up; and as long as nobody is killed, nobody sleeps who could go on. */
    method Run(events: seq<Event>) returns (received: seq<char>)
      requires Valid()
      modifies this, data, table
      ensures Valid() && old(written) <= written && taken == old(taken) + received && taken <= written
      ensures |written| <= |taken| + PIPESIZE
      ensures old(taken <= written && |written| <= |taken| + PIPESIZE) && Now() == Ran(old(Now()), events)
      ensures !old(ReaderForgotten()) && NobodyKilled(old(table[..])) && (forall e :: e in events ==> !e.Killing?) ==>
                !ReaderForgotten()
    {
      hide RingOk, After, SomeoneSleeps;
      RingCounts(data[..], nread, nwrite, written, taken);
      received := [];
      var i := 0;
      assert events[0..] == events;
      while i < |events|
        invariant 0 <= i <= |events| && Valid() && old(written) <= written && taken == old(taken) + received
        invariant taken <= written && |written| <= |taken| + PIPESIZE
        invariant Ran(Now(), events[i..]) == Ran(old(Now()), events)
        invariant (!old(ReaderForgotten()) && NobodyKilled(old(table[..])) &&
                   forall e :: e in events ==> !e.Killing?) ==>
                    !ReaderForgotten() && NobodyKilled(table[..])
      {
        assert events[i..][0] == events[i] && events[i..][1..] == events[i + 1..];
        var got := Happen(events[i]);
        RingCounts(data[..], nread, nwrite, written, taken);
        received := received + got;
        i := i + 1;
      }
    }

    /** The one way to forget a reader: a killed writer with more bytes than fit into the pipe
        takes its step while the reader sleeps. */
    ghost predicate Deserts(e: Event)
      reads this, table
    {
      && e.Stepping? && e.p < table.Length && table[e.p].state == Running && table[e.p].killed
      && table[e.p].call.Writing? && |table[e.p].call.addr| - table[e.p].call.i > PIPESIZE
      && readopen && ReaderAsleep()
    }

    /** The step of a reader that is running: it gets the next bytes. */
    method ReadStep(p: nat) returns (got: seq<char>)
      requires Valid() && p < NPROC && table[p].state == Running && table[p].call.Reading?
      modifies this, data, table
      ensures Valid() && taken == old(taken) + got && Now() == After(old(Now()), Stepping(p))
      ensures readopen == old(readopen) && writeopen == old(writeopen)
      ensures NobodyKilled(old(table[..])) ==> NobodyKilled(table[..])
      ensures ReaderForgotten() ==> old(ReaderForgotten())
      ensures var n, m := old(table[p].call.n), |old(taken)|;
              && written == old(written) && |got| == (if m + n <= |written| then n else |written| - m)
              && if m == |written| && writeopen && !old(table[p].killed)
                 then table[p].state == Sleeping && table[p].chan == NRead
                 else table[p].state == Running && table[p].call == Outside
    {
      hide RingOk, SomeoneSleeps, AfterRead;
      ghost var v := Now();
      RingCounts(data[..], nread, nwrite, written, taken);
      var out, bytes := Piperead(p);
      got := bytes;
      RingCounts(data[..], nread, nwrite, written, taken);
      IsAfterRead(v, p, Now(), got, out == Asleep, out == Returned(-1));
    }

    /** The step of a writer that is running: it leaves what there is room for. */
    method WriteStep(p: nat)
      requires Valid() && p < NPROC && table[p].state == Running && table[p].call.Writing?
      requires table[p].call.i <= |table[p].call.addr|
      modifies this, data, table
      ensures Valid() && taken == old(taken) && Now() == After(old(Now()), Stepping(p))
      ensures readopen == old(readopen) && writeopen == old(writeopen)
      ensures NobodyKilled(old(table[..])) ==> NobodyKilled(table[..])
      ensures !old(ReaderForgotten()) ==> (ReaderForgotten() <==> old(Deserts(Stepping(p))))
      ensures var addr, i, room := old(table[p].call.addr), old(table[p].call.i), 512 - (|old(written)| - |taken|);
              && 0 <= room
              && if |addr| - i <= room then
                   written == old(written) + addr[i..] && table[p].state == Running && table[p].call == Outside
                 else
                   && written == old(written) + addr[i..i + room]
                   && if readopen && !old(table[p].killed)
                      then table[p].state == Sleeping && table[p].chan == NWrite
                          && table[p].call == Writing(addr, i + room)
                      else table[p].state == Running && table[p].call == Outside
    {
      hide RingOk, SomeoneSleeps, AfterWrite;
      ghost var v := Now();
      RingCounts(data[..], nread, nwrite, written, taken);
      var out := Pipewrite(p);
      IsAfterWrite(v, p, Now(), |written| - |v.written|, out == Asleep, out == Returned(-1));
    }

    /** An event that is no step, if it can happen. */
    method Arrange(e: Event)
      requires Valid() && !e.Stepping?
      modifies this, data, table
      ensures Valid() && written == old(written) && taken == old(taken) && old(taken) <= old(written)
      ensures |old(written)| <= |old(taken)| + PIPESIZE && Now() == After(old(Now()), e)
      ensures NobodyKilled(old(table[..])) && !e.Killing? ==> NobodyKilled(table[..])
      ensures e.Dispatching? ==>
                && readopen == old(readopen) && writeopen == old(writeopen)
                && forall q :: 0 <= q < NPROC ==>
                     table[q] == if q == e.p && old(table[q].state) == Runnable then old(table[q]).(state := Running)
                                 else old(table[q])
      ensures e.Calling? ==>
                && readopen == old(readopen) && writeopen == old(writeopen)
                && forall q :: 0 <= q < NPROC ==>
                     table[q] == if q == e.p && old(table[q].state) == Running && old(table[q].call) == Outside
                                     && (e.call.Writing? ==> e.call.i == 0)
                                 then old(table[q]).(call := e.call) else old(table[q])
      ensures e.Killing? ==>
                && readopen == old(readopen) && writeopen == old(writeopen)
                && forall q :: 0 <= q < NPROC ==>
                     table[q] == if q != e.p then old(table[q]) else if old(table[q].state) == Sleeping
                                 then old(table[q]).(killed := true, state := Runnable)
                                 else old(table[q]).(killed := true)
      ensures e.Closing? ==>
                && writeopen == (old(writeopen) && !e.writable) && readopen == (old(readopen) && e.writable)
                && forall q :: 0 <= q < NPROC ==>
                     table[q] == if old(table[q].state) == Sleeping
                                     && old(table[q].chan) == (if e.writable then NRead else NWrite)
                                 then old(table[q]).(state := Runnable) else old(table[q])
      ensures ReaderForgotten() ==> old(ReaderForgotten())
    {
      hide RingOk, AfterRead, AfterWrite;
      ghost var v := Now();
      RingCounts(data[..], nread, nwrite, written, taken);
      match e
      case Closing(writable) =>
        Pipeclose(writable);
        assert table[..] == After(v, e).procs;
      case Killing(p) =>
        if p < NPROC {
          Kill(p);
          assert table[..] == After(v, e).procs;
        }
      case Dispatching(p) =>
        if p < NPROC && table[p].state == Runnable {
          table[p] := table[p].(state := Running);
          assert table[..] == After(v, e).procs;
        }
      case Calling(p, call) =>
        if p < NPROC && table[p].state == Running && table[p].call == Outside && (call.Writing? ==> call.i == 0) {
          table[p] := table[p].(call := call);
          assert table[..] == After(v, e).procs;
        }
    }

    /** One event, if it can happen. */
    method Happen(e: Event) returns (got: seq<char>)
      requires Valid()
      modifies this, data, table
      ensures Valid() && old(written) <= written && taken == old(taken) + got
      ensures |old(taken)| <= |old(written)| <= |old(taken)| + PIPESIZE && Now() == After(old(Now()), e)
      // a reader gets the next bytes, a writer leaves what there is room for
      ensures e.Stepping? && e.p < NPROC && old(table[e.p].state) == Running && old(table[e.p].call.Reading?) ==>
                && var n, m := old(table[e.p].call.n), |old(taken)|;
                && written == old(written) && |got| == (if m + n <= |written| then n else |written| - m)
                && if m == |written| && writeopen && !old(table[e.p].killed)
                   then table[e.p].state == Sleeping && table[e.p].chan == NRead
                   else table[e.p].state == Running && table[e.p].call == Outside
      ensures (e.Stepping? && e.p < NPROC && old(table[e.p].state) == Running
               && old(table[e.p].call.Writing? && table[e.p].call.i <= |table[e.p].call.addr|)) ==>
                && var addr, i, room := old(table[e.p].call.addr), old(table[e.p].call.i),
                   512 - (|old(written)| - |taken|);
                && got == [] && 0 <= room
                && if |addr| - i <= room then
                     written == old(written) + addr[i..] && table[e.p].state == Running && table[e.p].call == Outside
                   else
                     && written == old(written) + addr[i..i + room]
                     && if readopen && !old(table[e.p].killed)
                        then table[e.p].state == Sleeping && table[e.p].chan == NWrite
                            && table[e.p].call == Writing(addr, i + room)
                        else table[e.p].state == Running && table[e.p].call == Outside
      // the other events change one slot of the table or one flag, and wake sleepers
      ensures !e.Stepping? ==> written == old(written) && got == []
      ensures e.Dispatching? ==>
                && readopen == old(readopen) && writeopen == old(writeopen)
                && forall q :: 0 <= q < NPROC ==>
                     table[q] == if q == e.p && old(table[q].state) == Runnable then old(table[q]).(state := Running)
                                 else old(table[q])
      ensures e.Calling? ==>
                && readopen == old(readopen) && writeopen == old(writeopen)
                && forall q :: 0 <= q < NPROC ==>
                     table[q] == if q == e.p && old(table[q].state) == Running && old(table[q].call) == Outside
                                     && (e.call.Writing? ==> e.call.i == 0)
                                 then old(table[q]).(call := e.call) else old(table[q])
      ensures e.Killing? ==>
                && readopen == old(readopen) && writeopen == old(writeopen)
                && forall q :: 0 <= q < NPROC ==>
                     table[q] == if q != e.p then old(table[q]) else if old(table[q].state) == Sleeping
                                 then old(table[q]).(killed := true, state := Runnable)
                                 else old(table[q]).(killed := true)
      ensures e.Closing? ==>
                && writeopen == (old(writeopen) && !e.writable) && readopen == (old(readopen) && e.writable)
                && forall q :: 0 <= q < NPROC ==>
                     table[q] == if old(table[q].state) == Sleeping
                                     && old(table[q].chan) == (if e.writable then NRead else NWrite)
                                 then old(table[q]).(state := Runnable) else old(table[q])
      ensures e.Stepping? ==> readopen == old(readopen) && writeopen == old(writeopen)
      ensures e.Stepping? && (e.p >= NPROC || old(table[e.p].state) != Running || old(table[e.p].call) == Outside) ==>
                written == old(written) && got == [] && forall q :: 0 <= q < NPROC ==> table[q] == old(table[q])
      ensures NobodyKilled(old(table[..])) && !e.Killing? ==> NobodyKilled(table[..])
      ensures !old(ReaderForgotten()) ==> (ReaderForgotten() <==> old(Deserts(e)))
    {
      hide RingOk, AfterRead, AfterWrite, SomeoneSleeps, NobodyKilled;
      got := [];
      RingCounts(data[..], nread, nwrite, written, taken);
      if !e.Stepping? {
        Arrange(e);
      } else if e.p < NPROC && table[e.p].state == Running {
        var call := table[e.p].call;
        if call.Reading? {
          got := ReadStep(e.p);
        } else if call.Writing? && call.i <= |call.addr| {
          WriteStep(e.p);
        }
      }
    }
  }

  predicate NobodyKilled(procs: seq<Proc>) {
    forall p :: 0 <= p < |procs| ==> !procs[p].killed
  }

  /** A killed writer leaves without waking anybody: here the pipe is full, its read end is
      open, and the reader sleeps on. */
  method ForgottenReader() returns (p: Pipe)
    ensures fresh(p) && p.Valid() && p.writeopen && p.ReaderForgotten()
    ensures SleepsOn(p.table[0], NRead) && |p.written| == |p.taken| + PIPESIZE
  {
    var reader := Proc(Running, NoChannel, false, Reading(1));
    var writer := Proc(Running, NoChannel, true, Writing(seq(PIPESIZE + 1, _ => 'x'), 0));
    var idle := Proc(Unused, NoChannel, false, Outside);
    p := new Pipe(seq(NPROC, i => if i == 0 then reader else if i == 1 then writer else idle));
    assert p.table[..][0] == reader && p.table[..][1] == writer;
    var _, _ := p.Piperead(0);
    var _ := p.Pipewrite(1);
  }
}
