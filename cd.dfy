/*
 * The plain example pipeline (apps/Streaming/cd.cpp): a threaded procedure holding
 * two arrays and a chain of four codelets, start -> load -> copy -> end -> the
 * caller's signal.  Load fills x with 0..N-1, copy copies x into y, and each codelet
 * satisfies one dependency of the next when it finishes.
 *
 * A C++ codelet subclass is a Codelet plus a `toSignal` pointer and a fire() body.
 * Without inheritance each subclass here is a class that owns its Codelet (`base`)
 * and whose Fire method is the fire() body; the procedure's arrays, reached in the
 * source through myTP_, are passed to Fire.
 */
module CdApp {
  import opened Codelets

  /** ARRAY_LENGTH: the number of elements moved through the pipeline. */
  const ArrayLength: nat := 10000

  /** 0, 1, ..., n-1: what the pipeline is meant to deliver. */
  function Iota(n: nat): seq<int>
  {
    seq(n, i => i)
  }

  /** startCD and endCD: a codelet whose fire() only signals its successor. */
  class SignalCD {
    const base: Codelet
    const toSignal: Codelet

    constructor (dep: nat, res: nat, tp: ThreadedProcedure?, stat: nat, toSig: Codelet)
      ensures fresh(base) && base.dep == dep && base.resetDep == res && base.tp == tp
      ensures base.status == stat && !base.IsStreaming() && toSignal == toSig
    {
      base := new Codelet(dep, res, tp, stat);
      toSignal := toSig;
    }

    method Fire()
      requires toSignal.dep > 0
      modifies toSignal`dep
      ensures toSignal.dep == old(toSignal.dep) - 1
    {
      toSignal.DecDep();
    }
  }

  /** loadCD: fills the procedure's x with 0..N-1, then signals its successor. */
  class LoadCD {
    const base: Codelet
    const toSignal: Codelet

    constructor (dep: nat, res: nat, tp: ThreadedProcedure?, stat: nat, toSig: Codelet)
      ensures fresh(base) && base.dep == dep && base.resetDep == res && base.tp == tp
      ensures base.status == stat && !base.IsStreaming() && toSignal == toSig
    {
      base := new Codelet(dep, res, tp, stat);
      toSignal := toSig;
    }

    method Fire(x: array<int>)
      requires x.Length == ArrayLength && toSignal.dep > 0
      modifies x, toSignal`dep
      ensures forall i :: 0 <= i < x.Length ==> x[i] == i
      ensures toSignal.dep == old(toSignal.dep) - 1
    {
      var i := 0;
      while i < ArrayLength
        invariant 0 <= i <= ArrayLength
        invariant forall k :: 0 <= k < i ==> x[k] == k
        modifies x
      {
        x[i] := i;
        i := i + 1;
      }
      toSignal.DecDep();
    }
  }

  /** copyCD: copies x into y element by element, then signals its successor. */
  class CopyCD {
    const base: Codelet
    const toSignal: Codelet

    constructor (dep: nat, res: nat, tp: ThreadedProcedure?, stat: nat, toSig: Codelet)
      ensures fresh(base) && base.dep == dep && base.resetDep == res && base.tp == tp
      ensures base.status == stat && !base.IsStreaming() && toSignal == toSig
    {
      base := new Codelet(dep, res, tp, stat);
      toSignal := toSig;
    }

    method Fire(x: array<int>, y: array<int>)
      requires x.Length == ArrayLength && y.Length == ArrayLength && x != y
      requires toSignal.dep > 0
      modifies y, toSignal`dep
      ensures y[..] == x[..] && x[..] == old(x[..])
      ensures toSignal.dep == old(toSignal.dep) - 1
    {
      var i := 0;
      while i < ArrayLength
        invariant 0 <= i <= ArrayLength
        invariant y[..i] == x[..i]
        modifies y
      {
        y[i] := x[i];
        i := i + 1;
      }
      toSignal.DecDep();
    }
  }

  /** aTP: the procedure, its four codelets and its two arrays. */
  class ATP {
    /** The ThreadedProcedure part of aTP, with which the codelets are registered. */
    const proc: ThreadedProcedure
    const startcd: SignalCD
    const loadcd: LoadCD
    const copycd: CopyCD
    const endcd: SignalCD
    const x: array<int>
    const y: array<int>

    /** The chain start -> load -> copy -> end -> toSig over four distinct codelets. */
    predicate Wired(toSig: Codelet)
    {
      && startcd.toSignal == loadcd.base
      && loadcd.toSignal == copycd.base
      && copycd.toSignal == endcd.base
      && endcd.toSignal == toSig
      && startcd.base != loadcd.base && startcd.base != copycd.base && startcd.base != endcd.base
      && loadcd.base != copycd.base && loadcd.base != endcd.base && copycd.base != endcd.base
      && toSig != startcd.base && toSig != loadcd.base && toSig != copycd.base && toSig != endcd.base
      && x.Length == ArrayLength && y.Length == ArrayLength && x != y
    }

    /** The counts before anything runs: only start is ready. */
    predicate Initial()
      reads startcd.base, loadcd.base, copycd.base, endcd.base
    {
      startcd.base.dep == 0 && loadcd.base.dep == 1 && copycd.base.dep == 1 && endcd.base.dep == 1
    }

    constructor (toSig: Codelet)
      ensures Wired(toSig) && Initial()
      ensures startcd.base.resetDep == 0 && loadcd.base.resetDep == 1
      ensures copycd.base.resetDep == 1 && endcd.base.resetDep == 1
      ensures startcd.base.tp == proc && loadcd.base.tp == proc && copycd.base.tp == proc && endcd.base.tp == proc
      ensures proc.codelets == [startcd.base, loadcd.base, copycd.base, endcd.base]
      ensures fresh(proc) && fresh(x) && fresh(y)
      ensures fresh(startcd.base) && fresh(loadcd.base) && fresh(copycd.base) && fresh(endcd.base)
    {
      var p := new ThreadedProcedure();
      var e := new SignalCD(1, 1, p, 0, toSig);
      var c := new CopyCD(1, 1, p, 0, e.base);
      var l := new LoadCD(1, 1, p, 0, c.base);
      var s := new SignalCD(0, 0, p, 0, l.base);
      p.Add(s.base);
      p.Add(l.base);
      p.Add(c.base);
      p.Add(e.base);
      proc := p;
      startcd := s;
      loadcd := l;
      copycd := c;
      endcd := e;
      x := new int[ArrayLength];
      y := new int[ArrayLength];
    }

    /**
     * Fire the chain in dependency order.  Each codelet is fired only once its count
     * has reached 0, and the last one signals the caller.
     */
    method RunChain(toSig: Codelet)
      requires Wired(toSig) && Initial() && toSig.dep > 0
      modifies x, y, loadcd.base`dep, copycd.base`dep, endcd.base`dep, toSig`dep
      ensures forall i :: 0 <= i < ArrayLength ==> x[i] == i && y[i] == i
      ensures loadcd.base.dep == 0 && copycd.base.dep == 0 && endcd.base.dep == 0
      ensures toSig.dep == old(toSig.dep) - 1
    {
      startcd.Fire();
      assert loadcd.base.dep == 0 && copycd.base.dep == 1;
      loadcd.Fire(x);
      assert copycd.base.dep == 0 && endcd.base.dep == 1;
      copycd.Fire(x, y);
      assert endcd.base.dep == 0;
      endcd.Fire();
    }
  }
}
