/*
 * Streaming queues of the DARTS abstract machine (include/abstractmachine/Fifo.h).
 *
 * FifoMeta and Fifo are untyped metadata records; SoftFifo<T> is the lock-guarded
 * bounded queue that a scheduler hands to a producer/consumer pair of streaming
 * codelets.  The queue's behaviour is given twice: as pure step functions over a
 * SoftState value (the specification, about which the lemmas are proved) and as a
 * class whose methods update head, tail, the two flags, the buffer and the lock in
 * place and are proved to follow those functions.
 *
 * The Ring* functions at the end are the wrap-around ring buffer the queue evidently
 * intends to be; they serve the findings recorded in README.md.
 */
module Fifos {

  /** The width of every metadata field (uint64_t). */
  type uint64 = x: int | 0 <= x < 0x1_0000_0000_0000_0000

  datatype Option<T> = None | Some(value: T)

  // ---------------------------------------------------------------------------
  // Metadata records
  // ---------------------------------------------------------------------------

  /**
   * Untyped description of a queue: where it lives, its capacity in elements, the
   * size of one element, and the units that produce into and consume from it.
   * `None` for producer or consumer stands for a pointer the constructor never
   * initialised.
   */
  datatype FifoMeta<U> = FifoMeta(
    cluster: uint64,
    localMem: uint64,
    id: uint64,
    size: uint64,
    typeSize: uint64,
    producer: Option<U>,
    consumer: Option<U>)
  {
    function GetCluster(): uint64 { cluster }
    function GetLocalMem(): uint64 { localMem }
    function GetId(): uint64 { id }
    function GetSize(): uint64 { size }
    function GetTypeSize(): uint64 { typeSize }
    function GetProducer(): Option<U> { producer }
    function GetConsumer(): Option<U> { consumer }
  }

  /** The five-argument FifoMeta constructor: producer and consumer stay unset. */
  function NewMeta5<U>(cluster: uint64, localMem: uint64, id: uint64, size: uint64, typeSize: uint64): FifoMeta<U>
  {
    FifoMeta(cluster, localMem, id, size, typeSize, None, None)
  }

  /** The seven-argument FifoMeta constructor. */
  function NewMeta7<U>(cluster: uint64, localMem: uint64, id: uint64, size: uint64, typeSize: uint64,
                       producer: U, consumer: U): FifoMeta<U>
  {
    FifoMeta(cluster, localMem, id, size, typeSize, Some(producer), Some(consumer))
  }

  /** The Fifo base class: a metadata record behind delegating getters. */
  datatype Fifo<U> = Fifo(meta: FifoMeta<U>)
  {
    function GetCluster(): uint64 { meta.GetCluster() }
    function GetLocalMem(): uint64 { meta.GetLocalMem() }
    function GetId(): uint64 { meta.GetId() }
    function GetSize(): uint64 { meta.GetSize() }
    function GetTypeSize(): uint64 { meta.GetTypeSize() }
    function GetProducer(): Option<U> { meta.GetProducer() }
    function GetConsumer(): Option<U> { meta.GetConsumer() }
  }

  function NewFifo5<U>(cluster: uint64, localMem: uint64, id: uint64, size: uint64, typeSize: uint64): Fifo<U>
  {
    Fifo(NewMeta5(cluster, localMem, id, size, typeSize))
  }

  function NewFifo7<U>(cluster: uint64, localMem: uint64, id: uint64, size: uint64, typeSize: uint64,
                       producer: U, consumer: U): Fifo<U>
  {
    Fifo(NewMeta7(cluster, localMem, id, size, typeSize, producer, consumer))
  }

  /** A Fifo built with the seven-argument constructor reports exactly what it was given. */
  lemma NewFifo7Reports<U>(cluster: uint64, localMem: uint64, id: uint64, size: uint64, typeSize: uint64,
                           producer: U, consumer: U)
    ensures var f := NewFifo7(cluster, localMem, id, size, typeSize, producer, consumer);
      && f.GetCluster() == cluster && f.GetLocalMem() == localMem && f.GetId() == id
      && f.GetSize() == size && f.GetTypeSize() == typeSize
      && f.GetProducer() == Some(producer) && f.GetConsumer() == Some(consumer)
  {
  }

  /** A Fifo built with the five-argument constructor reports its five values and no units. */
  lemma NewFifo5Reports<U>(cluster: uint64, localMem: uint64, id: uint64, size: uint64, typeSize: uint64)
    ensures var f: Fifo<U> := NewFifo5(cluster, localMem, id, size, typeSize);
      && f.GetCluster() == cluster && f.GetLocalMem() == localMem && f.GetId() == id
      && f.GetSize() == size && f.GetTypeSize() == typeSize
      && f.GetProducer().None? && f.GetConsumer().None?
  {
  }

  // ---------------------------------------------------------------------------
  // SoftFifo as written: the specification as step functions
  // ---------------------------------------------------------------------------

  /** Everything a SoftFifo<T> holds besides its metadata. */
  datatype SoftState<T> = SoftState(head: nat, tail: nat, full: bool, empty: bool, queue: seq<T>, locked: bool)

  /**
   * The states the queue can reach.  The indices only grow, the live elements are
   * queue[head..tail], `empty` says exactly whether that slice is empty, and `full`
   * is never raised (see FullNeverRaised).
   */
  predicate Inv<T>(s: SoftState<T>)
  {
    s.head <= s.tail <= |s.queue| && (s.empty <==> s.head == s.tail) && !s.full
  }

  /** The elements waiting in the queue, oldest first. */
  function Contents<T>(s: SoftState<T>): seq<T>
    requires s.head <= s.tail <= |s.queue|
  {
    s.queue[s.head..s.tail]
  }

  /** The state the six-argument constructor leaves behind, over a buffer of `_size` slots. */
  function Fresh<T>(queue: seq<T>): SoftState<T>
  {
    SoftState(0, 0, false, true, queue, false)
  }

  datatype Pushed<T> = Pushed(state: SoftState<T>, code: int)
  datatype Popped<T> = Popped(state: SoftState<T>, code: int, value: Option<T>)

  /**
   * push: -1 when the full flag is set, otherwise store at the old tail, advance the
   * tail by one without wrapping, clear `empty`, raise `full` if tail meets head.
   * The lock is taken and given back, so a held lock blocks the call; and the
   * element must land inside the buffer.
   */
  function PushStep<T>(s: SoftState<T>, x: T): Pushed<T>
    requires !s.locked
    requires !s.full ==> s.tail < |s.queue|
  {
    if s.full then Pushed(s, -1)
    else
      var t := s.tail + 1;
      Pushed(s.(empty := false, queue := s.queue[s.tail := x], tail := t, full := t == s.head), 0)
  }

  /**
   * pop: -1 when empty, otherwise hand out the element at the old head, advance the
   * head by one, clear `full`, raise `empty` when head meets tail.
   */
  function PopStep<T>(s: SoftState<T>): Popped<T>
    requires !s.locked
    requires !s.empty ==> s.head < |s.queue|
  {
    if s.empty then Popped(s, -1, None)
    else
      var h := s.head + 1;
      Popped(s.(full := false, head := h, empty := h == s.tail), 0, Some(s.queue[s.head]))
  }

  /** peek: like pop, but nothing but the lock is touched (and it is given back). */
  function PeekStep<T>(s: SoftState<T>): Popped<T>
    requires !s.locked
    requires !s.empty ==> s.head < |s.queue|
  {
    if s.empty then Popped(s, -1, None) else Popped(s, 0, Some(s.queue[s.head]))
  }

  /** clear: reset both indices and both flags, and keep the lock it took. */
  function ClearStep<T>(s: SoftState<T>): SoftState<T>
    requires !s.locked
  {
    s.(empty := true, full := false, head := 0, tail := 0, locked := true)
  }

  /** A freshly constructed queue is empty, not full, with both indices at zero. */
  lemma FreshIsEmpty<T>(queue: seq<T>)
    ensures var s := Fresh(queue);
      Inv(s) && !s.locked && s.head == 0 && s.tail == 0 && s.empty && !s.full && Contents(s) == []
  {
  }

  /**
   * push on a full queue fails and changes nothing; in every reachable state with room
   * behind the tail it succeeds, appends x to the contents, stores x at the old tail
   * and advances the tail by one.
   */
  lemma PushSpec<T>(s: SoftState<T>, x: T)
    requires !s.locked && (!s.full ==> s.tail < |s.queue|)
    ensures s.full ==> PushStep(s, x) == Pushed(s, -1)
    ensures Inv(s) ==>
      var r := PushStep(s, x);
      && r.code == 0 && Inv(r.state) && !r.state.locked && !r.state.empty
      && r.state.queue[s.tail] == x && r.state.tail == s.tail + 1 && r.state.head == s.head
      && |r.state.queue| == |s.queue|
      && Contents(r.state) == Contents(s) + [x]
  {
    if Inv(s) {
      var r := PushStep(s, x);
      assert Contents(r.state) == Contents(s) + [x] by {
        forall k | 0 <= k < |Contents(r.state)|
          ensures Contents(r.state)[k] == (Contents(s) + [x])[k]
        {
          if k < |Contents(s)| {
            assert s.head + k < s.tail;
          }
        }
      }
    }
  }

  /**
   * pop on an empty queue fails and changes nothing; otherwise it yields the oldest
   * element, removes it, leaves `full` down and raises `empty` exactly when the
   * queue ran dry.
   */
  lemma PopSpec<T>(s: SoftState<T>)
    requires Inv(s) && !s.locked
    ensures var r := PopStep(s);
      && (s.empty ==> r == Popped(s, -1, None))
      && (!s.empty ==>
            && r.code == 0 && r.value == Some(Contents(s)[0]) && r.value == Some(s.queue[s.head])
            && Inv(r.state) && !r.state.locked && !r.state.full
            && r.state.head == s.head + 1 && r.state.tail == s.tail
            && (r.state.empty <==> r.state.head == r.state.tail)
            && Contents(r.state) == Contents(s)[1..])
  {
  }

  /**
   * peek reports what a pop in its place would report, and leaves the queue as it
   * was; on an empty queue it fails.
   */
  lemma PeekMatchesPop<T>(s: SoftState<T>)
    requires Inv(s) && !s.locked
    ensures PeekStep(s).code == PopStep(s).code && PeekStep(s).value == PopStep(s).value
    ensures PeekStep(s).state == s
    ensures PeekStep(s).code == -1 <==> Contents(s) == []
  {
  }

  /** clear empties the queue and rewinds both indices, but the lock stays held. */
  lemma ClearSpec<T>(s: SoftState<T>)
    requires !s.locked
    ensures var c := ClearStep(s);
      c.head == 0 && c.tail == 0 && c.empty && !c.full && c.locked && c.queue == s.queue
    ensures Inv(s) ==> Contents(ClearStep(s)) == []
  {
  }

  // --- runs of operations ------------------------------------------------------

  datatype Op<T> = PushOp(x: T) | PopOp | PeekOp | ClearOp

  /**
   * One operation on a queue that is not blocked; None when the operation cannot
   * complete: the lock is held, or the slot it would access lies outside the buffer.
   */
  function Apply<T>(s: SoftState<T>, op: Op<T>): Option<SoftState<T>>
  {
    if s.locked then None
    else match op
      case PushOp(x) => if !s.full && s.tail >= |s.queue| then None else Some(PushStep(s, x).state)
      case PopOp => if !s.empty && s.head >= |s.queue| then None else Some(PopStep(s).state)
      case PeekOp => if !s.empty && s.head >= |s.queue| then None else Some(PeekStep(s).state)
      case ClearOp => Some(ClearStep(s))
  }

  function Run<T>(s: SoftState<T>, ops: seq<Op<T>>): Option<SoftState<T>>
    decreases |ops|
  {
    if ops == [] then Some(s)
    else match Apply(s, ops[0])
      case None => None
      case Some(s') => Run(s', ops[1..])
  }

  /**
   * The full flag is never raised: along any run of push, pop, peek and clear from a
   * reachable state, every state reached satisfies Inv, in particular `!full`.  The
   * check `_tail == _head` right after `_tail++` can never hold, because the head
   * never overtakes the tail and the tail never wraps.
   */
  lemma {:induction false} FullNeverRaised<T>(s: SoftState<T>, ops: seq<Op<T>>)
    requires Inv(s)
    ensures Run(s, ops).Some? ==> Inv(Run(s, ops).value) && !Run(s, ops).value.full
    decreases |ops|
  {
    if ops != [] {
      match Apply(s, ops[0])
      case None =>
      case Some(s') =>
        assert Inv(s') by {
          match ops[0]
          case PushOp(x) => PushSpec(s, x);
          case PopOp => PopSpec(s);
          case PeekOp =>
          case ClearOp =>
        }
        FullNeverRaised(s', ops[1..]);
    }
  }

  // --- FIFO order --------------------------------------------------------------

  /** Push every element of xs in order, each push succeeding at its first attempt. */
  function PushAll<T>(s: SoftState<T>, xs: seq<T>): (r: SoftState<T>)
    requires Inv(s) && !s.locked && s.tail + |xs| <= |s.queue|
    ensures Inv(r) && !r.locked && r.head == s.head && r.tail == s.tail + |xs| && |r.queue| == |s.queue|
    ensures Contents(r) == Contents(s) + xs
    decreases |xs|
  {
    if xs == [] then s
    else
      PushSpec(s, xs[0]);
      var r := PushAll(PushStep(s, xs[0]).state, xs[1..]);
      assert Contents(s) + xs == Contents(s) + [xs[0]] + xs[1..];
      r
  }

  datatype Drained<T> = Drained(state: SoftState<T>, values: seq<T>)

  /** Pop n elements in order, each pop succeeding at its first attempt. */
  function PopN<T>(s: SoftState<T>, n: nat): (r: Drained<T>)
    requires Inv(s) && !s.locked && n <= |Contents(s)|
    ensures Inv(r.state) && !r.state.locked && r.state.tail == s.tail && r.state.head == s.head + n
    ensures |r.state.queue| == |s.queue|
    ensures r.values == Contents(s)[..n] && Contents(r.state) == Contents(s)[n..]
    decreases n
  {
    if n == 0 then Drained(s, [])
    else
      PopSpec(s);
      var p := PopStep(s);
      var rest := PopN(p.state, n - 1);
      assert Contents(s)[..n] == [Contents(s)[0]] + Contents(s)[1..][..n - 1];
      Drained(rest.state, [p.value.value] + rest.values)
  }

  /**
   * FIFO order: pushing xs into a fresh queue with room for them and popping as many
   * elements gives back xs, in order, and leaves the queue empty.
   */
  lemma FifoOrder<T>(queue: seq<T>, xs: seq<T>)
    requires |xs| <= |queue|
    ensures var d := PopN(PushAll(Fresh(queue), xs), |xs|);
      d.values == xs && Contents(d.state) == [] && d.state.empty
  {
    var s := PushAll(Fresh(queue), xs);
    assert Contents(s) == xs;
  }

  /**
   * The queue as written wears out: after `size` elements have passed through a
   * fresh queue it is empty and not full, yet its tail sits at the end of the buffer,
   * so the next push would store outside it.
   */
  lemma ExhaustedAfterSizePushes<T>(queue: seq<T>)
    requires |queue| > 0
    ensures var d := PopN(PushAll(Fresh(queue), queue), |queue|);
      Contents(d.state) == [] && d.state.empty && !d.state.full && !d.state.locked
      && d.state.tail == |d.state.queue|
      && Apply(d.state, PushOp(queue[0])).None?
  {
    var s := PushAll(Fresh(queue), queue);
    assert s.tail == |queue|;
    var d := PopN(s, |queue|);
    assert d.state.tail == |queue| == |d.state.queue|;
    assert d.state.head == |queue|;
  }

  /**
   * With the size generateFifo uses (10) no push is refused before the buffer ends:
   * ten pushes into a fresh queue all succeed and leave `full` down, and the
   * eleventh would index slot 10 of a 10-slot buffer.
   */
  lemma EleventhPushOverflows<T>(queue: seq<T>, x: T)
    requires |queue| == 10
    ensures var s := PushAll(Fresh(queue), queue);
      !s.full && s.tail == 10 && Apply(s, PushOp(x)).None?
  {
  }

  /** clear leaves the lock held, so nothing can be done with the queue afterwards. */
  lemma ClearBlocksQueue<T>(s: SoftState<T>, op: Op<T>)
    requires !s.locked
    ensures ClearStep(s).locked && Apply(ClearStep(s), op).None?
  {
  }

  // ---------------------------------------------------------------------------
  // SoftFifo as written: the class
  // ---------------------------------------------------------------------------

  /**
   * The lock-guarded queue.  `queue` has as many slots as the metadata size;
   * `locked` stands for the state of `_lock`.  T is the element type; U the type of
   * the producing and consuming units recorded in the metadata.
   */
  class SoftFifo<T(0), U> {
    const base: Fifo<U>
    var head: nat
    var tail: nat
    var full: bool
    var empty: bool
    const queue: array<T>
    var locked: bool

    function State(): SoftState<T>
      reads this, queue
    {
      SoftState(head, tail, full, empty, queue[..], locked)
    }

    ghost predicate Valid()
      reads this, queue
    {
      queue.Length == base.GetSize() && Inv(State())
    }

    ghost function Elements(): seq<T>
      reads this, queue
      requires Valid()
    {
      Contents(State())
    }

    /** SoftFifo(cluster, localMem, id, size, producer, consumer); typeSize stands for sizeof(T). */
    constructor (cluster: uint64, localMem: uint64, id: uint64, size: uint64, typeSize: uint64,
                 producer: U, consumer: U)
      ensures base == NewFifo7(cluster, localMem, id, size, typeSize, producer, consumer)
      ensures fresh(queue) && queue.Length == size
      ensures State() == Fresh(queue[..])
      ensures Valid() && Elements() == []
    {
      base := NewFifo7(cluster, localMem, id, size, typeSize, producer, consumer);
      head := 0;
      tail := 0;
      full := false;
      empty := true;
      locked := false;
      queue := new T[size];
    }

    method Push(toPush: T) returns (r: int)
      requires !locked
      requires !full ==> tail < queue.Length
      modifies this, queue
      ensures var p := PushStep(old(State()), toPush); State() == p.state && r == p.code
      ensures !locked
      ensures old(Valid()) ==> Valid() && r == 0 && Elements() == old(Elements()) + [toPush]
    {
      ghost var before := State();
      locked := true;
      if !full {
        if empty {
          empty := false;
        }
        queue[tail] := toPush;
        tail := tail + 1;
        if tail == head {
          full := true;
        }
      } else {
        locked := false;
        return -1;
      }
      locked := false;
      assert queue[..] == before.queue[before.tail := toPush];
      PushSpec(before, toPush);
      return 0;
    }

    /** `current` is what *toPop holds before the call; a failed pop leaves it as it was. */
    method Pop(current: T) returns (r: int, toPop: T)
      requires !locked
      requires !empty ==> head < queue.Length
      modifies this
      ensures var p := PopStep(old(State())); State() == p.state && r == p.code
      ensures r == 0 ==> PopStep(old(State())).value == Some(toPop)
      ensures r != 0 ==> toPop == current
      ensures !locked
      ensures old(Valid()) ==> Valid() && (r == 0 <==> old(Elements()) != [])
      ensures old(Valid()) && r == 0 ==> toPop == old(Elements())[0] && Elements() == old(Elements())[1..]
    {
      ghost var before := State();
      locked := true;
      if !empty {
        if full {
          full := false;
        }
        toPop := queue[head];
        head := head + 1;
        if head == tail {
          empty := true;
        }
      } else {
        locked := false;
        return -1, current;
      }
      locked := false;
      if Inv(before) {
        PopSpec(before);
      }
      return 0, toPop;
    }

    /** `current` is what *toPeek holds before the call; a failed peek leaves it as it was. */
    method Peek(current: T) returns (r: int, toPeek: T)
      requires !locked
      requires !empty ==> head < queue.Length
      modifies this`locked
      ensures State() == old(State())
      ensures var p := PeekStep(old(State())); r == p.code && (r == 0 ==> p.value == Some(toPeek))
      ensures r != 0 ==> toPeek == current
      ensures old(Valid()) ==> (r == 0 <==> Elements() != []) && (r == 0 ==> toPeek == Elements()[0])
    {
      locked := true;
      if !empty {
        toPeek := queue[head];
      } else {
        locked := false;
        return -1, current;
      }
      locked := false;
      return 0, toPeek;
    }

    method Clear() returns (r: int)
      requires !locked
      modifies this
      ensures State() == ClearStep(old(State())) && r == 0
      ensures locked
      ensures old(Valid()) ==> queue.Length == base.GetSize() && Elements() == []
    {
      locked := true;
      empty := true;
      full := false;
      head := 0;
      tail := 0;
      return 0;
    }
  }

  // ---------------------------------------------------------------------------
  // The ring buffer the queue evidently intends (corrected behaviour)
  // ---------------------------------------------------------------------------

  /** Same fields as SoftState; indices wrap at the end of the buffer. */
  datatype Ring<T> = Ring(head: nat, tail: nat, full: bool, empty: bool, buf: seq<T>, locked: bool)

  /** The slot after i in a buffer of c slots. */
  function Next(i: nat, c: nat): nat
  {
    if i + 1 == c then 0 else i + 1
  }

  /** Flag-pair convention: head == tail means full or empty, and the flag says which. */
  predicate RingInv<T>(r: Ring<T>)
  {
    && |r.buf| > 0 && r.head < |r.buf| && r.tail < |r.buf|
    && !(r.full && r.empty)
    && (r.full || r.empty ==> r.head == r.tail)
    && (r.head == r.tail ==> r.full || r.empty)
  }

  /** How many elements are in flight. */
  function RingCount<T>(r: Ring<T>): nat
    requires RingInv(r)
  {
    if r.full then |r.buf|
    else if r.head <= r.tail then r.tail - r.head
    else r.tail + |r.buf| - r.head
  }

  /** The slot k places after the head. */
  function Slot<T>(r: Ring<T>, k: nat): nat
    requires RingInv(r) && k < |r.buf|
  {
    if r.head + k < |r.buf| then r.head + k else r.head + k - |r.buf|
  }

  function RingContents<T>(r: Ring<T>): seq<T>
    requires RingInv(r)
  {
    seq(RingCount(r), k requires 0 <= k < RingCount(r) => r.buf[Slot(r, k)])
  }

  function RingNew<T>(buf: seq<T>): Ring<T>
  {
    Ring(0, 0, false, true, buf, false)
  }

  datatype RingPushed<T> = RingPushed(state: Ring<T>, code: int)
  datatype RingPopped<T> = RingPopped(state: Ring<T>, code: int, value: Option<T>)

  /** push with `_tail = (_tail + 1) % _size`: full is raised when the tail catches the head. */
  function RingPush<T>(r: Ring<T>, x: T): RingPushed<T>
    requires RingInv(r) && !r.locked
  {
    if r.full then RingPushed(r, -1)
    else
      var t := Next(r.tail, |r.buf|);
      RingPushed(r.(empty := false, buf := r.buf[r.tail := x], tail := t, full := t == r.head), 0)
  }

  /** pop with `_head = (_head + 1) % _size`. */
  function RingPop<T>(r: Ring<T>): RingPopped<T>
    requires RingInv(r) && !r.locked
  {
    if r.empty then RingPopped(r, -1, None)
    else
      var h := Next(r.head, |r.buf|);
      RingPopped(r.(full := false, head := h, empty := h == r.tail), 0, Some(r.buf[r.head]))
  }

  /** clear that gives the lock back. */
  function RingClear<T>(r: Ring<T>): Ring<T>
    requires !r.locked
  {
    r.(empty := true, full := false, head := 0, tail := 0, locked := false)
  }

  /** The tail sits RingCount slots after the head. */
  lemma TailSlot<T>(r: Ring<T>)
    requires RingInv(r) && !r.full
    ensures RingCount(r) < |r.buf| && Slot(r, RingCount(r)) == r.tail
  {
  }

  /**
   * The corrected push fails exactly when the ring holds `size` elements, and then
   * changes nothing; otherwise it appends x to the contents.
   */
  lemma RingPushSpec<T>(r: Ring<T>, x: T)
    requires RingInv(r) && !r.locked
    ensures var p := RingPush(r, x);
      && (p.code == -1 <==> |RingContents(r)| == |r.buf|)
      && (p.code == -1 ==> p.state == r)
      && (p.code == 0 ==> RingInv(p.state) && !p.state.locked && |p.state.buf| == |r.buf|
                          && RingContents(p.state) == RingContents(r) + [x])
  {
    var p := RingPush(r, x);
    if !r.full {
      TailSlot(r);
      var s := p.state;
      var n := RingCount(r);
      assert RingInv(s);
      assert RingCount(s) == n + 1;
      forall k | 0 <= k < n + 1
        ensures RingContents(s)[k] == (RingContents(r) + [x])[k]
      {
        assert Slot(s, k) == Slot(r, k);
        if k < n {
          assert Slot(r, k) != r.tail;
        }
      }
    }
  }

  /**
   * The corrected pop fails exactly when the ring is empty; otherwise it yields the
   * oldest element and removes it.
   */
  lemma RingPopSpec<T>(r: Ring<T>)
    requires RingInv(r) && !r.locked
    ensures var p := RingPop(r);
      && (p.code == -1 <==> RingContents(r) == [])
      && (p.code == -1 ==> p.state == r)
      && (p.code == 0 ==> RingInv(p.state) && !p.state.locked && |p.state.buf| == |r.buf|
                          && p.value == Some(RingContents(r)[0])
                          && RingContents(p.state) == RingContents(r)[1..])
  {
    var p := RingPop(r);
    if !r.empty {
      var s := p.state;
      var n := RingCount(r);
      assert n > 0;
      assert RingInv(s);
      assert RingCount(s) == n - 1;
      forall k | 0 <= k < n - 1
        ensures RingContents(s)[k] == RingContents(r)[1..][k]
      {
        assert Slot(s, k) == Slot(r, k + 1);
      }
    }
  }

  /** The corrected clear empties the ring and gives the lock back. */
  lemma RingClearReleases<T>(r: Ring<T>)
    requires RingInv(r) && !r.locked
    ensures var c := RingClear(r); RingInv(c) && !c.locked && RingContents(c) == []
  {
  }

  /**
   * Boundary behaviour with the flag pair: a fresh ring of c slots takes exactly c
   * pushes; the c-th raises `full` and the next one fails.
   */
  function RingPushAll<T>(r: Ring<T>, xs: seq<T>): (s: Ring<T>)
    requires RingInv(r) && !r.locked && RingCount(r) + |xs| <= |r.buf|
    ensures RingInv(s) && !s.locked && |s.buf| == |r.buf| && RingContents(s) == RingContents(r) + xs
    decreases |xs|
  {
    if xs == [] then r
    else
      RingPushSpec(r, xs[0]);
      var s := RingPushAll(RingPush(r, xs[0]).state, xs[1..]);
      assert RingContents(r) + xs == RingContents(r) + [xs[0]] + xs[1..];
      s
  }

  lemma RingFillsToCapacity<T>(buf: seq<T>, xs: seq<T>, y: T)
    requires |buf| > 0 && |xs| == |buf|
    ensures var s := RingPushAll(RingNew(buf), xs);
      s.full && RingContents(s) == xs && RingPush(s, y).code == -1
  {
    var s := RingPushAll(RingNew(buf), xs);
    assert RingContents(RingNew(buf)) == [];
    assert |RingContents(s)| == |buf|;
    RingPushSpec(s, y);
  }

  /**
   * The pipeline the corrected queue supports: a producer and a consumer taking
   * turns (push one element, pop one element) deliver every element of xs, in order,
   * through a ring of any size, however long xs is.
   */
  datatype Streamed<T> = Streamed(state: Ring<T>, out: seq<T>)

  function Lockstep<T>(r: Ring<T>, xs: seq<T>): (s: Streamed<T>)
    requires RingInv(r) && !r.locked && RingContents(r) == []
    ensures RingInv(s.state) && !s.state.locked && RingContents(s.state) == []
    decreases |xs|
  {
    if xs == [] then Streamed(r, [])
    else
      RingPushSpec(r, xs[0]);
      var pushed := RingPush(r, xs[0]).state;
      RingPopSpec(pushed);
      var popped := RingPop(pushed);
      var rest := Lockstep(popped.state, xs[1..]);
      Streamed(rest.state, [popped.value.value] + rest.out)
  }

  lemma {:induction false} LockstepDelivers<T>(r: Ring<T>, xs: seq<T>)
    requires RingInv(r) && !r.locked && RingContents(r) == []
    ensures Lockstep(r, xs).out == xs
    decreases |xs|
  {
    if xs != [] {
      RingPushSpec(r, xs[0]);
      var pushed := RingPush(r, xs[0]).state;
      RingPopSpec(pushed);
      LockstepDelivers(RingPop(pushed).state, xs[1..]);
    }
  }
}
