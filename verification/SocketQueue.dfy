/**
 The queue of accepted sockets: a ring of 20 slots with a head and a tail counter that both keep
 growing and are lowered together now and then. The master thread produces, the workers consume.

 `Step` has one transition per section under the mutex. The class below performs the same transitions
 on its fields.
 */
module SocketQueue {
  const SIZE := 20

  /** Who was given which socket. */
  datatype Handed<T> = Handed(worker: nat, socket: T)

  datatype Queue<T> = Queue(
    slots: seq<T>,
    head: int,
    tail: int,
    stop: bool,
    produced: seq<T>,          // history: what went into the queue
    handed: seq<Handed<T>>)    // history: what the workers were given

  datatype Action<T> =
    | Produce(socket: T)
    | Consume(worker: nat)
    | Stop

  // ----- The sections -----

  predicate ProducerWaits<T>(q: Queue<T>) {
    !q.stop && q.head - q.tail >= SIZE
  }

  predicate ConsumerWaits<T>(q: Queue<T>) {
    !q.stop && q.head == q.tail
  }

  /** Lower both counters until the tail is at most SIZE. */
  function Wrap<T>(q: Queue<T>): (r: Queue<T>)
    ensures r.slots == q.slots
    decreases q.tail
  {
    if q.tail > SIZE then Wrap(q.(head := q.head - SIZE, tail := q.tail - SIZE)) else q
  }

  /** A thread that has to wait changes nothing; a full queue that is being stopped does not take the socket. */
  function Step<T>(q: Queue<T>, a: Action<T>): (r: Queue<T>)
    requires |q.slots| == SIZE
    ensures |r.slots| == SIZE
  {
    match a
    case Produce(socket) =>
      if !ProducerWaits(q) && q.head - q.tail < SIZE
      then q.(slots := q.slots[q.head % SIZE := socket], head := q.head + 1, produced := q.produced + [socket])
      else q
    case Consume(worker) =>
      if !ConsumerWaits(q) && q.head > q.tail
      then Wrap(q.(tail := q.tail + 1, handed := q.handed + [Handed(worker, q.slots[q.tail % SIZE])]))
      else q
    case Stop => q.(stop := true)
  }

  function Run<T>(q: Queue<T>, actions: seq<Action<T>>): (r: Queue<T>)
    requires |q.slots| == SIZE
    ensures |r.slots| == SIZE
  {
    if actions == [] then q else Step(Run(q, actions[..|actions| - 1]), actions[|actions| - 1])
  }

  // ----- What the counters mean -----

  /** The sockets in the queue, the oldest first. */
  function Contents<T>(q: Queue<T>): seq<T>
    requires |q.slots| == SIZE
  {
    Window(q.slots, q.tail, q.head - q.tail)
  }

  function Window<T>(slots: seq<T>, tail: int, n: int): (r: seq<T>)
    requires |slots| == SIZE
    ensures |r| == if n < 0 then 0 else n
  {
    seq(if n < 0 then 0 else n, i requires 0 <= i => slots[(tail + i) % SIZE])
  }

  function Sockets<T>(handed: seq<Handed<T>>): (r: seq<T>)
    ensures |r| == |handed|
  {
    seq(|handed|, i requires 0 <= i < |handed| => handed[i].socket)
  }

  ghost predicate Inv<T>(q: Queue<T>) {
    && |q.slots| == SIZE
    && 0 <= q.tail <= SIZE && 0 <= q.head - q.tail <= SIZE
    && q.produced == Sockets(q.handed) + Contents(q)
  }

  // ----- The queue is a bounded FIFO -----

  /** Lowering both counters does not change what any slot means. */
  lemma {:induction false} WrapKeepsContents<T>(q: Queue<T>)
    requires |q.slots| == SIZE
    ensures Wrap(q) == q.(head := Wrap(q).head, tail := Wrap(q).tail)
    ensures Wrap(q).head - Wrap(q).tail == q.head - q.tail
    ensures Contents(Wrap(q)) == Contents(q)
    ensures 0 <= q.tail ==> 0 <= Wrap(q).tail <= SIZE
    ensures if q.tail <= SIZE then Wrap(q) == q else 0 < Wrap(q).tail
    decreases q.tail
  {
    if q.tail > SIZE {
      var low := q.(head := q.head - SIZE, tail := q.tail - SIZE);
      WrapKeepsContents(low);
      forall i | 0 <= i < |Contents(q)|
        ensures Contents(low)[i] == Contents(q)[i]
      {
        assert (q.tail - SIZE + i) % SIZE == (q.tail + i) % SIZE;
      }
    }
  }

  lemma ProduceAppends<T>(q: Queue<T>, socket: T)
    requires |q.slots| == SIZE && 0 <= q.tail && 0 <= q.head - q.tail < SIZE
    ensures Contents(Step(q, Produce(socket))) == Contents(q) + [socket]
  {
    var q' := Step(q, Produce(socket));
    forall i | 0 <= i < |Contents(q)|
      ensures Contents(q')[i] == Contents(q)[i]
    {
      OtherSlot(q.tail, i, q.head - q.tail);
    }
    assert q.tail + (q.head - q.tail) == q.head;
  }

  lemma OtherSlot(tail: nat, i: nat, n: nat)
    requires i < n < SIZE
    ensures (tail + i) % SIZE != (tail + n) % SIZE
  {
  }

  lemma ConsumeRemovesFirst<T>(q: Queue<T>, worker: nat)
    requires |q.slots| == SIZE && 0 <= q.tail && q.head > q.tail
    ensures Contents(q) == [q.slots[q.tail % SIZE]] + Contents(Step(q, Consume(worker)))
  {
    var next := q.(tail := q.tail + 1, handed := q.handed + [Handed(worker, q.slots[q.tail % SIZE])]);
    WrapKeepsContents(next);
    forall i | 0 <= i < |Contents(next)|
      ensures Contents(next)[i] == Contents(q)[i + 1]
    {
      assert q.tail + 1 + i == q.tail + (i + 1);
    }
  }

  /**
   Every step of every interleaving keeps the invariant, and its effect on the contents is that of a
   FIFO of 20 places: append at the end, take from the front, or nothing.
   */
  lemma StepRefinesFifo<T>(q: Queue<T>, a: Action<T>)
    requires Inv(q)
    ensures Inv(Step(q, a))
    ensures Step(q, a).stop <==> q.stop || a.Stop?
    ensures !a.Consume? ==> Step(q, a).handed == q.handed
    ensures match a
      case Produce(socket) =>
        Contents(Step(q, a)) == if |Contents(q)| < SIZE then Contents(q) + [socket] else Contents(q)
      case Consume(worker) =>
        if Contents(q) == [] then Step(q, a) == q
        else
          && Contents(Step(q, a)) == Contents(q)[1..]
          && Step(q, a).handed == q.handed + [Handed(worker, Contents(q)[0])]
      case Stop => Contents(Step(q, a)) == Contents(q)
  {
    match a
    case Produce(socket) =>
      if |Contents(q)| < SIZE {
        ProduceAppends(q, socket);
      }
    case Consume(worker) =>
      if q.head > q.tail {
        ConsumeKeeps(q, worker);
      }
    case Stop =>
  }

  lemma ConsumeKeeps<T>(q: Queue<T>, worker: nat)
    requires Inv(q) && q.head > q.tail
    ensures var q' := Step(q, Consume(worker));
      && Inv(q') && Contents(q') == Contents(q)[1..] && q'.handed == q.handed + [Handed(worker, Contents(q)[0])]
      && q'.stop == q.stop
  {
    var h := Handed(worker, q.slots[q.tail % SIZE]);
    ConsumeRemovesFirst(q, worker);
    WrapKeepsContents(q.(tail := q.tail + 1, handed := q.handed + [h]));
    hide Contents, Wrap;
    assert Sockets(q.handed + [h]) == Sockets(q.handed) + [h.socket];
  }

  /** Actions are performed one after the other. */
  lemma {:induction false} RunSplits<T>(q: Queue<T>, before: seq<Action<T>>, after: seq<Action<T>>)
    requires |q.slots| == SIZE
    ensures Run(q, before + after) == Run(Run(q, before), after)
    ensures |after| == 1 ==> Run(q, before + after) == Step(Run(q, before), after[0])
  {
    var all, k := before + after, |after| - 1;
    if after == [] {
      assert all == before;
    } else {
      assert all[..|all| - 1] == before + after[..k];
      RunSplits(q, before, after[..k]);
    }
  }

  /**
   Over whole runs: what was produced is what was handed out, each socket once and in order, and what is in the
   queue.
   */
  lemma {:induction false} RunIsFifo<T>(q: Queue<T>, actions: seq<Action<T>>)
    requires Inv(q)
    ensures var r := Run(q, actions);
      && r.produced == Sockets(r.handed) + Contents(r)
      && 0 <= r.head - r.tail <= SIZE && 0 <= r.tail <= SIZE && r.head <= 2 * SIZE
    ensures Inv(Run(q, actions))
    ensures q.produced <= Run(q, actions).produced && q.handed <= Run(q, actions).handed
    ensures Run(q, actions).stop <==> q.stop || Action.Stop in actions
  {
    if actions != [] {
      var k := |actions| - 1;
      RunIsFifo(q, actions[..k]);
      StepRefinesFifo(Run(q, actions[..k]), actions[k]);
      HistoryGrows(Run(q, actions[..k]), actions[k]);
    }
  }

  lemma HistoryGrows<T>(q: Queue<T>, a: Action<T>)
    requires |q.slots| == SIZE
    ensures q.produced <= Step(q, a).produced && q.handed <= Step(q, a).handed
  {
    if a.Consume? && !ConsumerWaits(q) && q.head > q.tail {
      WrapKeepsContents(q.(tail := q.tail + 1, handed := q.handed + [Handed(a.worker, q.slots[q.tail % SIZE])]));
    }
  }

  /** The queue never has both sides waiting, and after a stop nobody waits. */
  lemma NoDeadlock<T>(q: Queue<T>)
    requires Inv(q)
    ensures ProducerWaits(q) ==> !ConsumerWaits(q)
    ensures ProducerWaits(q) <==> !q.stop && |Contents(q)| == SIZE
    ensures ConsumerWaits(q) <==> !q.stop && Contents(q) == []
  {
  }

  // ----- The fields of the context -----

  class Context<T(0)> {
    const queue: array<T>
    var sqHead: int
    var sqTail: int
    var stopFlag: bool
    ghost var produced: seq<T>
    ghost var handed: seq<Handed<T>>

    ghost function State(): Queue<T>
      reads this, queue
    {
      Queue(queue[..], sqHead, sqTail, stopFlag, produced, handed)
    }

    ghost predicate Valid()
      reads this, queue
    {
      queue.Length == SIZE && Inv(State())
    }

    constructor ()
      ensures Valid() && fresh(queue) && produced == [] && handed == [] && !stopFlag
    {
      queue := new T[SIZE];
      sqHead, sqTail, stopFlag, produced, handed := 0, 0, false, [], [];
    }

    /** One section of the producer. It stays in its waiting loop when done is false. */
    method ProduceSocket(sp: T) returns (done: bool)
      requires Valid()
      modifies this, queue
      ensures Valid() && State() == Step(old(State()), Produce(sp))
      ensures done == !old(ProducerWaits(State()))
    {
      StepRefinesFifo(State(), Produce(sp));
      if !stopFlag && sqHead - sqTail >= queue.Length {
        return false;
      }
      if sqHead - sqTail < queue.Length {
        queue[sqHead % queue.Length] := sp;
        sqHead, produced := sqHead + 1, produced + [sp];
      }
      done := true;
    }

    /** One section of a consumer; a socket that was taken is not to be served when the server is stopping. */
    method ConsumeSocket(worker: nat, client: T) returns (done: bool, socket: T, serve: bool)
      requires Valid()
      modifies this
      ensures Valid() && State() == Step(old(State()), Consume(worker))
      ensures done == !old(ConsumerWaits(State()))
      ensures done ==> serve == !stopFlag
      ensures serve ==> old(Contents(State())) != []
      ensures socket == if old(Contents(State())) != [] then old(Contents(State()))[0] else client
    {
      StepRefinesFifo(State(), Consume(worker));
      done, socket, serve := false, client, false;
      if sqHead == sqTail && !stopFlag {
        return;
      }
      done := true;
      if sqHead > sqTail {
        socket := queue[sqTail % queue.Length];
        sqTail, handed := sqTail + 1, handed + [Handed(worker, socket)];
        while sqTail > queue.Length
          invariant stopFlag == old(stopFlag) && produced == old(produced)
          invariant handed == old(handed) + [Handed(worker, socket)]
          invariant Wrap(State()) == Step(old(State()), Consume(worker))
          decreases sqTail
        {
          sqTail := sqTail - queue.Length;
          sqHead := sqHead - queue.Length;
        }
      }
      serve := !stopFlag;
    }

    method Stop()
      requires Valid()
      modifies `stopFlag
      ensures Valid() && State() == Step(old(State()), Action.Stop)
    {
      stopFlag := true;
    }
  }
}
