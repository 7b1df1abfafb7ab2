// Registers, register copies and the two reference semantics of a batch of
// copies: one copy at a time (sequential) and all at once (parallel).

module Registers {

  /** A machine register. The Rust implementation wraps a `u32`; ids are only compared and
      copied, never computed with, so a natural number models them. */
  type Register = nat

  /** One register copy: the value held in `source` is written to `destination`. */
  datatype RegisterCopy = RegisterCopy(source: Register, destination: Register)

  /** The value register `r` holds in `regs`: a register never written still
      holds its own id. */
  function Read(regs: map<Register, nat>, r: Register): nat {
    if r in regs then regs[r] else r
  }

  /** Runs `copies` one after the other, each copy reading the value its source
      holds at that moment. The result maps every written register to its
      final value. */
  function ExecuteSequential(copies: seq<RegisterCopy>): map<Register, nat> {
    if copies == [] then map[]
    else
      var before := ExecuteSequential(copies[..|copies| - 1]);
      var c := copies[|copies| - 1];
      before[c.destination := Read(before, c.source)]
  }

  /** Sequential execution writes exactly the destinations of the copies run. */
  lemma {:induction false} ExecuteSequentialWrites(copies: seq<RegisterCopy>)
    ensures ExecuteSequential(copies).Keys == Destinations(copies)
  {
    if copies != [] {
      var c := copies[|copies| - 1];
      ExecuteSequentialWrites(copies[..|copies| - 1]);
      assert copies == copies[..|copies| - 1] + [c];
      assert Destinations(copies) == Destinations(copies[..|copies| - 1]) + {c.destination};
    }
  }

  /** Runs `copies` as one parallel copy: each destination receives its
      source's original value (its id); a later copy to the same destination
      overrides an earlier one. */
  function ExecuteParallel(copies: seq<RegisterCopy>): (regs: map<Register, nat>)
    // Exactly the destinations of the batch are written.
    ensures regs.Keys == Destinations(copies)
  {
    if copies == [] then map[]
    else
      var c := copies[|copies| - 1];
      assert copies == copies[..|copies| - 1] + [c];
      assert Destinations(copies) == Destinations(copies[..|copies| - 1]) + {c.destination};
      ExecuteParallel(copies[..|copies| - 1])[c.destination := c.source]
  }

  function Sources(copies: seq<RegisterCopy>): set<Register> {
    set c | c in copies :: c.source
  }

  function Destinations(copies: seq<RegisterCopy>): set<Register> {
    set c | c in copies :: c.destination
  }

  predicate UsesSpare(c: RegisterCopy, spare: Register) {
    c.source == spare || c.destination == spare
  }

  predicate DistinctDestinations(copies: seq<RegisterCopy>) {
    forall i, j :: 0 <= i < j < |copies| ==> copies[i].destination != copies[j].destination
  }

  /** A batch the sequentializer accepts: the spare is neither read nor written
      and no register is the destination of two copies. */
  predicate ValidBatch(copies: seq<RegisterCopy>, spare: Register) {
    (forall i :: 0 <= i < |copies| ==> !UsesSpare(copies[i], spare)) && DistinctDestinations(copies)
  }

  /** Number of copies in `out` that write the spare register. */
  function SpareWrites(out: seq<RegisterCopy>, spare: Register): nat
  {
    if out == [] then 0
    else SpareWrites(out[..|out| - 1], spare) + (if out[|out| - 1].destination == spare then 1 else 0)
  }

  lemma ExecuteSequentialAppend(out: seq<RegisterCopy>, c: RegisterCopy)
    ensures ExecuteSequential(out + [c])
         == ExecuteSequential(out)[c.destination := Read(ExecuteSequential(out), c.source)]
  {
    assert (out + [c])[..|out|] == out;
  }

  lemma SpareWritesAppend(out: seq<RegisterCopy>, c: RegisterCopy, spare: Register)
    ensures SpareWrites(out + [c], spare) == SpareWrites(out, spare) + (if c.destination == spare then 1 else 0)
  {
    assert (out + [c])[..|out|] == out;
  }

  /** The spare is absent from the sequential result exactly when no copy
      writes it. */
  lemma {:induction false} SpareWritesZero(out: seq<RegisterCopy>, spare: Register)
    ensures SpareWrites(out, spare) == 0 <==> spare !in ExecuteSequential(out)
  {
    if out != [] {
      var prefix, c := out[..|out| - 1], out[|out| - 1];
      SpareWritesZero(prefix, spare);
    }
  }

  /** For a batch with distinct destinations, parallel execution sends every
      copy's source id to its destination: no later copy overrides it. */
  lemma {:induction false} ExecuteParallelOfDistinct(copies: seq<RegisterCopy>)
    requires DistinctDestinations(copies)
    ensures forall c :: c in copies ==> ExecuteParallel(copies)[c.destination] == c.source
  {
    if copies != [] {
      var prefix, last := copies[..|copies| - 1], copies[|copies| - 1];
      ExecuteParallelOfDistinct(prefix);
      var before := ExecuteParallel(prefix);
      assert ExecuteParallel(copies) == before[last.destination := last.source];
      assert copies == prefix + [last];
      forall c | c in copies
        ensures ExecuteParallel(copies)[c.destination] == c.source
      {
        if c != last {
          var i :| 0 <= i < |copies| && copies[i] == c;
          assert i < |copies| - 1 && prefix[i] == c;
        }
      }
    }
  }
}
