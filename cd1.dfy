/*
 * The streaming example pipeline (apps/Streaming/cd1.cpp).  The load and copy
 * codelets become streaming codelets: load pushes 0..N-1 into the queue it
 * produces into, and copy pops N values from the queue it consumes from into y.
 * Load signals nobody: copy's single dependency is met by the scheduler when it
 * allocates the queue between the two (TPScheduler.AllocateFifo).
 *
 * Each push and pop in the source is retried in a busy loop until it succeeds.
 * Sequentially a retry can only succeed if the first attempt did, so each loop
 * makes one attempt, under preconditions that make it succeed: room for every
 * push, and an element for every pop.
 */
module Cd1App {
  import opened Codelets
  import opened SchedPolicy
  import opened CdApp

  /** loadSCD: a producing streaming codelet. */
  class LoadSCD {
    const base: Codelet

    constructor (dep: nat, res: nat, consumerCod: Codelet?, tp: ThreadedProcedure?, stat: nat)
      ensures fresh(base) && base.dep == dep && base.resetDep == res && base.tp == tp
      ensures base.status == stat && base.IsStreaming() && base.GetConsumerCod() == consumerCod
      ensures base.producer == null && base.consumer == null
    {
      base := new Codelet.Streaming(dep, res, consumerCod, tp, stat);
    }

    /** Set x[i] = i and push it into the consumer queue, for i = 0..N-1. */
    method Fire(x: array<int>)
      requires x.Length == ArrayLength
      requires base.consumer != null && base.consumer.Valid() && !base.consumer.locked
      requires x != base.consumer.queue
      requires base.consumer.tail + ArrayLength <= base.consumer.queue.Length
      modifies x, base.consumer, base.consumer.queue
      ensures forall i :: 0 <= i < x.Length ==> x[i] == i
      ensures base.consumer.Valid() && !base.consumer.locked
      ensures base.consumer.Elements() == old(base.consumer.Elements()) + Iota(ArrayLength)
    {
      var q := base.GetConsumer();
      ghost var before := q.Elements();
      var i := 0;
      while i < ArrayLength
        invariant 0 <= i <= ArrayLength
        invariant forall k :: 0 <= k < i ==> x[k] == k
        invariant q.Valid() && !q.locked && q.tail == old(q.tail) + i
        invariant q.Elements() == before + Iota(i)
        modifies x, q, q.queue
      {
        x[i] := i;
        var r := q.Push(x[i]);
        assert Iota(i + 1) == Iota(i) + [i];
        i := i + 1;
      }
    }
  }

  /** copySCD: a consuming streaming codelet with no downstream codelet of its own. */
  class CopySCD {
    const base: Codelet
    const toSignal: Codelet

    constructor (dep: nat, res: nat, consumerCod: Codelet?, tp: ThreadedProcedure?, stat: nat, toSig: Codelet)
      ensures fresh(base) && base.dep == dep && base.resetDep == res && base.tp == tp
      ensures base.status == stat && base.IsStreaming() && base.GetConsumerCod() == consumerCod
      ensures base.producer == null && base.consumer == null && toSignal == toSig
    {
      base := new Codelet.Streaming(dep, res, consumerCod, tp, stat);
      toSignal := toSig;
    }

    /** Pop N values from the producer queue into y, in order, then signal the successor. */
    method Fire(y: array<int>)
      requires y.Length == ArrayLength
      requires base.producer != null && base.producer.Valid() && !base.producer.locked
      requires y != base.producer.queue
      requires |base.producer.Elements()| >= ArrayLength
      requires toSignal.dep > 0
      modifies y, base.producer, toSignal`dep
      ensures y[..] == old(base.producer.Elements())[..ArrayLength]
      ensures base.producer.Valid() && !base.producer.locked
      ensures base.producer.Elements() == old(base.producer.Elements())[ArrayLength..]
      ensures toSignal.dep == old(toSignal.dep) - 1
    {
      var q := base.GetProducer();
      ghost var before := q.Elements();
      var i := 0;
      while i < ArrayLength
        invariant 0 <= i <= ArrayLength
        invariant q.Valid() && !q.locked && q.Elements() == before[i..]
        invariant y[..i] == before[..i]
        modifies y, q
      {
        var r, v := q.Pop(y[i]);
        y[i] := v;
        i := i + 1;
      }
      toSignal.DecDep();
    }
  }

  /** aTP of the streaming pipeline. */
  class ATP1 {
    const proc: ThreadedProcedure
    const startcd: SignalCD
    const loadscd: LoadSCD
    const copyscd: CopySCD
    const endcd: SignalCD
    const x: array<int>
    const y: array<int>

    /** start signals load, copy signals end, end signals toSig; four distinct codelets. */
    predicate Wired(toSig: Codelet)
    {
      && startcd.toSignal == loadscd.base
      && copyscd.toSignal == endcd.base
      && endcd.toSignal == toSig
      && startcd.base != loadscd.base && startcd.base != copyscd.base && startcd.base != endcd.base
      && loadscd.base != copyscd.base && loadscd.base != endcd.base && copyscd.base != endcd.base
      && toSig != startcd.base && toSig != loadscd.base && toSig != copyscd.base && toSig != endcd.base
      && loadscd.base.IsStreaming() && copyscd.base.IsStreaming()
      && x.Length == ArrayLength && y.Length == ArrayLength && x != y
    }

    /** Load feeds copy; copy feeds no codelet. */
    predicate Streams()
      reads loadscd.base, copyscd.base
    {
      loadscd.base.consumerCod == copyscd.base && copyscd.base.consumerCod == null
    }

    constructor (toSig: Codelet)
      ensures Wired(toSig) && Streams()
      ensures startcd.base.dep == 0 && loadscd.base.dep == 1 && copyscd.base.dep == 1 && endcd.base.dep == 1
      ensures startcd.base.resetDep == 0 && loadscd.base.resetDep == 1
      ensures copyscd.base.resetDep == 1 && endcd.base.resetDep == 1
      ensures loadscd.base.consumer == null && copyscd.base.producer == null
      ensures NeedsFifo(loadscd.base) && !NeedsFifo(copyscd.base)
      ensures !NeedsFifo(startcd.base) && !NeedsFifo(endcd.base)
      ensures startcd.base.tp == proc && loadscd.base.tp == proc && copyscd.base.tp == proc && endcd.base.tp == proc
      ensures proc.codelets == [startcd.base, loadscd.base, copyscd.base, endcd.base]
      ensures fresh(proc) && fresh(x) && fresh(y)
      ensures fresh(startcd.base) && fresh(loadscd.base) && fresh(copyscd.base) && fresh(endcd.base)
    {
      var p := new ThreadedProcedure();
      var e := new SignalCD(1, 1, p, 0, toSig);
      var c := new CopySCD(1, 1, null, p, 0, e.base);
      var l := new LoadSCD(1, 1, c.base, p, 0);
      var s := new SignalCD(0, 0, p, 0, l.base);
      p.Add(s.base);
      p.Add(l.base);
      p.Add(c.base);
      p.Add(e.base);
      proc := p;
      startcd := s;
      loadscd := l;
      copyscd := c;
      endcd := e;
      x := new int[ArrayLength];
      y := new int[ArrayLength];
    }

    /**
     * Start fires, which makes load ready; the scheduler, about to fire load, allocates
     * the queue between load and copy, which makes copy ready.  No codelet but the
     * scheduler's allocation touches copy's count.
     */
    method Start(s: TPScheduler, toSig: Codelet)
      requires Wired(toSig) && Streams()
      requires startcd.base.dep == 0 && loadscd.base.dep == 1 && copyscd.base.dep == 1
      modifies loadscd.base`dep, loadscd.base`consumer, copyscd.base`producer, copyscd.base`dep
      modifies s`fifos, s`trace
      ensures loadscd.base.dep == 0 && copyscd.base.dep == 0
      ensures loadscd.base.consumer != null && loadscd.base.consumer == copyscd.base.producer
      ensures fresh(loadscd.base.consumer) && loadscd.base.consumer.Valid()
      ensures loadscd.base.consumer.Elements() == []
      ensures loadscd.base.consumer.queue.Length == StreamFifoSize
      ensures s.fifos == old(s.fifos) + [loadscd.base.consumer]
    {
      startcd.Fire();
      var f := s.AllocateFifo(loadscd.base);
    }

    /**
     * Run load to completion and then copy, through a wired queue with room for all N
     * values: y ends up holding 0..N-1 and end is signalled once.
     */
    method RunStream(toSig: Codelet, q: Queue)
      requires Wired(toSig)
      requires loadscd.base.consumer == q && copyscd.base.producer == q
      requires q.Valid() && !q.locked && q.Elements() == []
      requires q.tail + ArrayLength <= q.queue.Length
      requires x != q.queue && y != q.queue
      requires endcd.base.dep > 0
      modifies x, y, q, q.queue, endcd.base`dep
      ensures forall i :: 0 <= i < ArrayLength ==> x[i] == i && y[i] == i
      ensures q.Valid() && q.Elements() == []
      ensures endcd.base.dep == old(endcd.base.dep) - 1
    {
      loadscd.Fire(x);
      copyscd.Fire(y);
    }
  }

  /**
   * Build the streaming aTP and run it until copy is ready: start has fired and the
   * scheduler has wired the one queue between load and copy.
   */
  method Launch(s: TPScheduler, toSig: Codelet) returns (at: ATP1)
    modifies s`fifos, s`trace
    ensures fresh(at.proc) && at.proc.codelets == [at.startcd.base, at.loadscd.base, at.copyscd.base, at.endcd.base]
    ensures at.loadscd.base.dep == 0 && at.copyscd.base.dep == 0 && at.endcd.base.dep == 1
    ensures at.loadscd.base.consumer != null && at.loadscd.base.consumer == at.copyscd.base.producer
    ensures at.loadscd.base.consumer.Valid() && at.loadscd.base.consumer.Elements() == []
    ensures s.fifos == old(s.fifos) + [at.loadscd.base.consumer]
  {
    at := new ATP1(toSig);
    at.Start(s, toSig);
  }
}
