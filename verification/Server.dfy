/** The bounded buffer of the threaded server, Project4-1/server.c: processRequest and the
    accept loop of main.

    A step is what one thread does from getting the mutex to giving it up, in an unlock or in a
    wait on a condition variable.  Threads may also stop waiting without a signal. */
module Server {

  datatype Worker = Running | Waiting | Woken

  /** The main thread; it has a connection in hand except while it accepts the next. */
  datatype Producer = Accepting | Ready(fd: int) | Blocked(fd: int) | Signalled(fd: int)

  /** How many workers are in state `st`. */
  ghost function Count(ws: seq<Worker>, st: Worker): (n: nat)
    ensures n <= |ws|
  {
    if ws == [] then 0 else Count(ws[..|ws| - 1], st) + if ws[|ws| - 1] == st then 1 else 0
  }

  lemma {:induction false} CountSet(ws: seq<Worker>, w: nat, to: Worker, st: Worker)
    requires w < |ws|
    ensures Count(ws[w := to], st) == Count(ws, st) - (if ws[w] == st then 1 else 0) + (if to == st then 1 else 0)
  {
    var n := |ws| - 1;
    if w == n {
      assert ws[w := to][..n] == ws[..n];
    } else {
      assert ws[w := to][..n] == ws[..n][w := to];
      CountSet(ws[..n], w, to, st);
    }
  }

  lemma {:induction false} CountAll(ws: seq<Worker>, st: Worker)
    ensures Count(ws, st) > 0 <==> st in ws
  {
    if ws != [] {
      var r := ws[..|ws| - 1];
      CountAll(r, st);
      assert ws == r + [ws[|ws| - 1]];
    }
  }

  /** Slot `k` after `front` in a circular buffer. */
  function Slot(front: nat, k: nat, n: nat): (s: nat)
    requires front < n && k <= n
    ensures s < n && s == (front + k) % n
  {
    Wrap(front + k, n);
    if front + k < n then front + k else front + k - n
  }

  lemma Wrap(x: int, n: int)
    requires 0 <= x < 2 * n
    ensures x % n == if x < n then x else x - n
  {
  }

  /** The slots from `front` on hold `queue`, and `rear` is the slot after them. */
  ghost predicate Holds(buffer: seq<int>, front: nat, rear: nat, queue: seq<int>) {
    && front < |buffer| && |queue| <= |buffer|
    && rear == Slot(front, |queue|, |buffer|)
    && forall k :: 0 <= k < |queue| ==> buffer[Slot(front, k, |buffer|)] == queue[k]
  }

  lemma Put(buffer: seq<int>, front: nat, rear: nat, queue: seq<int>, fd: int)
    requires Holds(buffer, front, rear, queue) && |queue| < |buffer|
    ensures Holds(buffer[rear := fd], front, (rear + 1) % |buffer|, queue + [fd])
  {
    Wrap(rear + 1, |buffer|);
  }

  lemma Take(buffer: seq<int>, front: nat, rear: nat, queue: seq<int>)
    requires Holds(buffer, front, rear, queue) && |queue| > 0
    ensures buffer[front] == queue[0] && Holds(buffer, (front + 1) % |buffer|, rear, queue[1..])
  {
    Wrap(front + 1, |buffer|);
    assert buffer[Slot(front, 0, |buffer|)] == queue[0];
    var next := (front + 1) % |buffer|;
    forall k | 0 <= k < |queue| - 1
      ensures Slot(next, k, |buffer|) == Slot(front, k + 1, |buffer|)
    {
    }
  }

  datatype Event =
    | Accept(fd: int)
    | ProducerRuns
    | WorkerRuns(w: nat)
    | SpuriousWorker(w: nat)
    | SpuriousProducer

  /** The connection the main thread has not yet put into the buffer. */
  function InHand(p: Producer): seq<int> {
    if p.Accepting? then [] else [p.fd]
  }

  /** The streams, the main thread and the workers, with the size of the buffer. */
  datatype View = View(accepted: seq<int>, taken: seq<int>, producer: Producer, workers: seq<Worker>, slots: nat)

  /** One waiting worker, if there is any, was signalled. */
  ghost predicate OneWoken(ws: seq<Worker>, ws': seq<Worker>) {
    if Waiting !in ws then ws' == ws
    else exists w: nat :: w < |ws| && ws[w] == Waiting && ws' == ws[w := Woken]
  }

  /** What an event makes of a view; nothing if it cannot happen. */
  ghost predicate Happened(a: View, e: Event, b: View) {
    && a.taken <= a.accepted
    && match e
       case Accept(fd) => b == if a.producer.Accepting? then a.(producer := Ready(fd)) else a
       case ProducerRuns =>
         if !a.producer.Ready? && !a.producer.Signalled? then b == a
         else if |a.accepted| - |a.taken| == a.slots then b == a.(producer := Blocked(a.producer.fd))
         else
           && OneWoken(a.workers, b.workers)
           && b == a.(accepted := a.accepted + [a.producer.fd], producer := Accepting, workers := b.workers)
       case WorkerRuns(w) =>
         b == if w >= |a.workers| || a.workers[w] == Waiting then a
              else if |a.accepted| == |a.taken| then a.(workers := a.workers[w := Waiting])
              else a.(taken := a.accepted[..|a.taken| + 1], workers := a.workers[w := Running],
                      producer := if a.producer.Blocked? then Signalled(a.producer.fd) else a.producer)
       case SpuriousWorker(w) =>
         b == if w < |a.workers| && a.workers[w] == Waiting then a.(workers := a.workers[w := Woken]) else a
       case SpuriousProducer => b == if a.producer.Blocked? then a.(producer := Signalled(a.producer.fd)) else a
  }

  class Server {
    const workBuffer: array<int>
    const workers: array<Worker>
    var producer: Producer
    var front: nat
    var rear: nat
    var count: nat
    ghost var accepted: seq<int>      // the connections put into the buffer
    ghost var taken: seq<int>         // the connections taken out of it

    ghost predicate QueueOk()
      reads this, workBuffer
    {
      && taken <= accepted && count == |accepted| - |taken|
      && Holds(workBuffer[..], front, rear, accepted[|taken|..])
    }

    ghost function Now(): View
      reads this, workers
    {
      View(accepted, taken, producer, workers[..], workBuffer.Length)
    }

    /** A worker that waits unsignalled leaves no work that a signalled one will not do, and the
        main thread waits only while the buffer is full. */
    ghost predicate NobodyForgotten()
      reads this, workers
    {
      && (Waiting in workers[..] ==> count <= Count(workers[..], Woken))
      && (producer.Blocked? ==> count == workBuffer.Length)
    }

    ghost predicate Valid()
      reads this, workBuffer, workers
    {
      workBuffer.Length > 0 && workers.Length > 0 && QueueOk() && NobodyForgotten()
    }

    /** main, up to its loop */
    constructor (threadnum: nat, bufferlen: nat)
      requires threadnum > 0 && bufferlen > 0
      ensures Valid() && accepted == [] == taken && producer == Accepting
      ensures fresh(workBuffer) && fresh(workers) && workers.Length == threadnum && workBuffer.Length == bufferlen
    {
      workBuffer := new int[bufferlen];
      workers := new Worker[threadnum](_ => Running);
      producer := Accepting;
      front := 0;
      rear := 0;
      count := 0;
      accepted := [];
      taken := [];
    }

    /** Cond_signal(&fill): one of the waiting workers, if there is any, is to run again. */
    method SignalFill()
      modifies workers
      ensures Waiting !in old(workers[..]) ==> workers[..] == old(workers[..])
      ensures Waiting in old(workers[..]) ==>
                && Count(workers[..], Woken) == Count(old(workers[..]), Woken) + 1
                && exists w :: (
                     && 0 <= w < workers.Length && old(workers[w]) == Waiting
                     && workers[..] == old(workers[..])[w := Woken])
    {
      if w: nat :| w < workers.Length && workers[w] == Waiting {
        CountSet(workers[..], w, Woken, Woken);
        workers[w] := Woken;
        assert workers[..] == old(workers[..])[w := Woken];
      }
    }

    /** The main thread puts its connection into the buffer, or waits while it is full. */
    method Produce()
      requires Valid() && (producer.Ready? || producer.Signalled?)
      modifies this, workBuffer, workers
      ensures Valid() && taken == old(taken)
      ensures if old(count) == workBuffer.Length then accepted == old(accepted) && producer == Blocked(old(producer).fd)
              else accepted == old(accepted) + [old(producer).fd] && producer == Accepting
      ensures if old(count) == workBuffer.Length then workers[..] == old(workers[..])
              else OneWoken(old(workers[..]), workers[..])
    {
      if count == workBuffer.Length {
        producer := Blocked(producer.fd);
        return;
      }
      var connfd := producer.fd;
      Put(workBuffer[..], front, rear, accepted[|taken|..], connfd);
      workBuffer[rear] := connfd;
      accepted := accepted + [connfd];
      assert accepted[|taken|..] == old(accepted[|taken|..]) + [connfd];
      rear := (rear + 1) % workBuffer.Length;
      count := count + 1;
      SignalFill();
      producer := Accepting;
    }

    /** Worker `w` takes a connection out of the buffer, or waits while it is empty. */
    method Consume(w: nat) returns (got: seq<int>)
      requires Valid() && w < workers.Length && workers[w] != Waiting
      modifies this, workers
      ensures Valid() && accepted == old(accepted) && taken == old(taken) + got
      ensures if old(count) == 0 then got == [] && workers[w] == Waiting
              else got == [accepted[|old(taken)|]] && workers[w] == Running
      ensures producer == if old(producer).Blocked?
          && old(count) > 0 then Signalled(old(producer).fd) else old(producer)
      ensures forall v :: 0 <= v < workers.Length && v != w ==> workers[v] == old(workers[v])
    {
      CountSet(workers[..], w, if count == 0 then Waiting else Running, Woken);
      if count == 0 {
        workers[w] := Waiting;
        assert workers[..] == old(workers[..])[w := Waiting];
        return [];
      }
      Take(workBuffer[..], front, rear, accepted[|taken|..]);
      var connfd := workBuffer[front];
      front := (front + 1) % workBuffer.Length;
      count := count - 1;
      taken := taken + [connfd];
      assert accepted[|taken|..] == old(accepted[|taken|..])[1..];
      if producer.Blocked? {
        producer := Signalled(producer.fd);   // Cond_signal(&empty)
      }
      workers[w] := Running;
      assert workers[..] == old(workers[..])[w := Running];
      return [connfd];
    }

    /** Not every thread can be waiting for a signal. */
    lemma NoDeadlock()
      requires Valid()
      ensures !(producer.Blocked? && forall w :: 0 <= w < workers.Length ==> workers[w] == Waiting)
      ensures count > 0 ==> exists w :: 0 <= w < workers.Length && workers[w] != Waiting
    {
      CountAll(workers[..], Woken);
      assert workers[..][0] == workers[0];
      assert workers[0] == Waiting ==> Waiting in workers[..];
    }

    /** One event, if it can happen. */
    method Happen(e: Event) returns (got: seq<int>, offered: seq<int>)
      requires Valid()
      modifies this, workBuffer, workers
      ensures Valid() && taken == old(taken) + got
      ensures accepted + InHand(producer) == old(accepted + InHand(producer)) + offered
      ensures offered == if e.Accept? && old(producer).Accepting? then [e.fd] else []
      ensures Happened(old(Now()), e, Now())
      // a worker gets the oldest connection in the buffer, or waits if there is none
      ensures e.WorkerRuns? && e.w < workers.Length && old(workers[e.w]) != Waiting ==>
                && accepted == old(accepted)
                && if |accepted| == |old(taken)| then got == [] && workers[e.w] == Waiting
                   else |old(taken)| < |accepted| && got == [accepted[|old(taken)|]] && workers[e.w] == Running
      // the main thread puts its connection into the buffer, or waits if there is no room
      ensures e.ProducerRuns? && (old(producer).Ready? || old(producer).Signalled?) ==>
                && got == []
                && if |old(accepted)| == |old(taken)| + workBuffer.Length
                   then accepted == old(accepted) && producer == Blocked(old(producer).fd)
                   else accepted == old(accepted) + [old(producer).fd] && producer == Accepting
      ensures !e.WorkerRuns? ==> got == []
    {
      got, offered := [], [];
      ghost var before := accepted + InHand(producer);
      assert before + [] == before && taken + [] == taken && accepted + [] == accepted;
      match e
      case Accept(fd) =>
        if producer.Accepting? {
          producer := Ready(fd);
          offered := [fd];
        }
      case ProducerRuns =>
        if producer.Ready? || producer.Signalled? {
          Produce();
          assert accepted + InHand(producer) == before;
        }
      case WorkerRuns(w) =>
        if w < workers.Length && workers[w] != Waiting {
          got := Consume(w);
          assert workers[..] == old(workers[..])[w := workers[w]];
        }
      case SpuriousWorker(w) =>
        if w < workers.Length && workers[w] == Waiting {
          CountSet(workers[..], w, Woken, Woken);
          workers[w] := Woken;
          assert workers[..] == old(workers[..])[w := Woken];
        }
      case SpuriousProducer =>
        if producer.Blocked? {
          producer := Signalled(producer.fd);
        }
    }

    /** Any steps in any order.  The workers together take the accepted connections, each once,
        in the order in which they were accepted; `views` are the states before and after each event. */
    method Run(events: seq<Event>) returns (got: seq<int>, offered: seq<int>, ghost views: seq<View>)
      requires Valid() && accepted == [] == taken && producer == Accepting
      modifies this, workBuffer, workers
      ensures Valid() && taken == got && accepted + InHand(producer) == offered && got <= offered
      ensures |views| == |events| + 1 && views[0] == old(Now()) && views[|events|] == Now()
      ensures forall k :: 0 <= k < |events| ==> Happened(views[k], events[k], views[k + 1])
    {
      hide Happened, Holds, Count;
      got, offered, views := [], [], [Now()];
      var i := 0;
      while i < |events|
        invariant 0 <= i <= |events| && Valid() && taken == got && accepted + InHand(producer) == offered
        invariant |views| == i + 1 && views[0] == old(Now()) && views[i] == Now()
        invariant forall k :: 0 <= k < i ==> Happened(views[k], events[k], views[k + 1])
      {
        var more, next := Happen(events[i]);
        got := got + more;
        offered := offered + next;
        views := views + [Now()];
        i := i + 1;
      }
    }
  }
}
