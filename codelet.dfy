/*
 * Codelets and streaming codelets (include/threading/StreamingCodelet.h).
 *
 * A codelet is a unit of work guarded by a dependency counter.  A streaming codelet
 * additionally holds a producer-side and a consumer-side queue handle and a link to
 * the downstream codelet it feeds.  Without inheritance the two are one class with a
 * `streaming` tag: `IsStreaming()` is the tag, and the handles of a plain codelet
 * stay null.  The base Codelet and ThreadedProcedure are not part of this model
 * beyond the counter, the owning procedure, the status and the registration order.
 */
module Codelets {
  import opened Fifos

  /** sizeof(int): the element size recorded for a SoftFifo<int>. */
  const IntSize: uint64 := 4

  /** The capacity generateFifo gives every queue it builds. */
  const StreamFifoSize: uint64 := 10

  /** A stream queue of ints whose metadata names codelets as producer and consumer. */
  type Queue = SoftFifo<int, Codelet?>
  type QueueRef = SoftFifo?<int, Codelet?>

  /** A group of codelets; `add` records them in registration order. */
  class ThreadedProcedure {
    var codelets: seq<Codelet>

    constructor ()
      ensures codelets == []
    {
      codelets := [];
    }

    method Add(c: Codelet)
      modifies this`codelets
      ensures codelets == old(codelets) + [c]
    {
      codelets := codelets + [c];
    }
  }

  class Codelet {
    /** Dependencies still outstanding; the codelet is ready when this reaches 0. */
    var dep: nat
    /** The count the codelet is reset to for its next activation. */
    const resetDep: nat
    /** The owning procedure, if any (getTP()). */
    const tp: ThreadedProcedure?
    /** The status word; TPStatic routes on it. */
    const status: nat
    /** True for a StreamingCodelet. */
    const streaming: bool
    /** StreamingCodelet::producer_: the queue this codelet consumes from. */
    var producer: QueueRef
    /** StreamingCodelet::consumer_: the queue this codelet produces into. */
    var consumer: QueueRef
    /** StreamingCodelet::consumerCod_: the downstream codelet this one feeds. */
    var consumerCod: Codelet?

    /** Codelet(dep, res, tp, stat): a plain, non-streaming codelet. */
    constructor (dep: nat, res: nat, tp: ThreadedProcedure?, stat: nat)
      ensures this.dep == dep && resetDep == res && this.tp == tp && status == stat
      ensures !IsStreaming() && producer == null && consumer == null && consumerCod == null
    {
      this.dep := dep;
      resetDep := res;
      this.tp := tp;
      status := stat;
      streaming := false;
      producer := null;
      consumer := null;
      consumerCod := null;
    }

    /** StreamingCodelet(dep, res, consumerCod, theTp, stat). */
    constructor Streaming(dep: nat, res: nat, consumerCod: Codelet?, tp: ThreadedProcedure?, stat: nat)
      ensures this.dep == dep && resetDep == res && this.tp == tp && status == stat
      ensures IsStreaming() && GetConsumerCod() == consumerCod
      ensures producer == null && consumer == null
    {
      this.dep := dep;
      resetDep := res;
      this.tp := tp;
      status := stat;
      streaming := true;
      producer := null;
      consumer := null;
      this.consumerCod := consumerCod;
    }

    predicate IsStreaming()
    {
      streaming
    }

    function GetProducer(): QueueRef
      reads this
    {
      producer
    }

    function GetConsumer(): QueueRef
      reads this
    {
      consumer
    }

    function GetConsumerCod(): Codelet?
      reads this
    {
      consumerCod
    }

    method SetProducer(p: QueueRef)
      modifies this`producer
      ensures GetProducer() == p
    {
      producer := p;
    }

    method SetConsumer(c: QueueRef)
      modifies this`consumer
      ensures GetConsumer() == c
    {
      consumer := c;
    }

    method SetConsumerCod(c: Codelet?)
      modifies this`consumerCod
      ensures GetConsumerCod() == c
    {
      consumerCod := c;
    }

    /** One dependency satisfied; a count of zero cannot be decremented. */
    method DecDep()
      requires dep > 0
      modifies this`dep
      ensures dep == old(dep) - 1
    {
      dep := dep - 1;
    }

    /** Satisfy one dependency of the downstream codelet, and touch nothing else. */
    method DecDepConsumerCod()
      requires consumerCod != null && consumerCod.dep > 0
      modifies consumerCod`dep
      ensures consumerCod.dep == old(consumerCod.dep) - 1
    {
      consumerCod.DecDep();
    }

    /**
     * Build the queue between this codelet and its downstream codelet.  All five
     * arguments are ignored: the queue always has 10 slots, cluster, local memory and
     * id 0, this codelet as producer and consumerCod as consumer.
     */
    method GenerateFifo(cluster: uint64, localMem: uint64, id: uint64, size: uint64, consumer: Codelet?)
      returns (f: Queue)
      ensures fresh(f) && fresh(f.queue)
      ensures f.base == NewFifo7(0, 0, 0, StreamFifoSize, IntSize, this, consumerCod)
      ensures f.queue.Length == StreamFifoSize
      ensures f.State() == Fresh(f.queue[..]) && f.Valid() && f.Elements() == []
    {
      f := new SoftFifo(0, 0, 0, StreamFifoSize, IntSize, this, consumerCod);
    }
  }
}
