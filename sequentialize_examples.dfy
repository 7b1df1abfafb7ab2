// The concrete batches exercised by the repository's own tests, with the
// results those tests expect, derived from the general contracts.

module SequentializeExamples {
  import opened Registers
  import opened Sequentialize

  /** Sequential execution lets later copies see earlier writes. */
  lemma ExecuteSequentialOverwrites()
    ensures ExecuteSequential([RegisterCopy(1, 2), RegisterCopy(3, 2), RegisterCopy(2, 4),
                               RegisterCopy(2, 1), RegisterCopy(5, 3)])
         == map[1 := 3, 2 := 3, 3 := 5, 4 := 3]
  {
    var prefix := [RegisterCopy(1, 2), RegisterCopy(3, 2), RegisterCopy(2, 4)];
    OverwritesPrefix();
    ExecuteSequentialAppend(prefix, RegisterCopy(2, 1));
    ExecuteSequentialAppend(prefix + [RegisterCopy(2, 1)], RegisterCopy(5, 3));
    assert prefix + [RegisterCopy(2, 1)] + [RegisterCopy(5, 3)]
        == [RegisterCopy(1, 2), RegisterCopy(3, 2), RegisterCopy(2, 4), RegisterCopy(2, 1), RegisterCopy(5, 3)];
  }

  /** The second copy overwrites the first one's write to register 2. */
  lemma OverwritesPrefix()
    ensures ExecuteSequential([RegisterCopy(1, 2), RegisterCopy(3, 2), RegisterCopy(2, 4)]) == map[2 := 3, 4 := 3]
  {
    var out := [RegisterCopy(1, 2), RegisterCopy(3, 2), RegisterCopy(2, 4)];
    assert out[..1][..0] == [] && out[..2][..1] == out[..1] && out[..2] == out[..|out| - 1];
    assert ExecuteSequential(out[..1]) == map[2 := 1];
  }

  lemma ExecuteSequentialChained()
    ensures ExecuteSequential([RegisterCopy(1, 4), RegisterCopy(3, 1), RegisterCopy(2, 3), RegisterCopy(1, 2)])
         == map[1 := 3, 2 := 3, 3 := 2, 4 := 1]
  {
    var prefix := [RegisterCopy(1, 4), RegisterCopy(3, 1)];
    ChainedPrefix();
    ExecuteSequentialAppend(prefix, RegisterCopy(2, 3));
    ExecuteSequentialAppend(prefix + [RegisterCopy(2, 3)], RegisterCopy(1, 2));
    assert prefix + [RegisterCopy(2, 3)] + [RegisterCopy(1, 2)]
        == [RegisterCopy(1, 4), RegisterCopy(3, 1), RegisterCopy(2, 3), RegisterCopy(1, 2)];
  }

  lemma ChainedPrefix()
    ensures ExecuteSequential([RegisterCopy(1, 4), RegisterCopy(3, 1)]) == map[4 := 1, 1 := 3]
  {
    var out := [RegisterCopy(1, 4), RegisterCopy(3, 1)];
    assert out[..1][..0] == [] && out[..1] == out[..|out| - 1];
  }

  /** Parallel execution of a batch with distinct destinations, entry by entry. */
  lemma ParallelOfThree(copies: seq<RegisterCopy>, expected: map<Register, nat>)
    requires |copies| == 3 && DistinctDestinations(copies)
    requires expected == map[copies[0].destination := copies[0].source,
                             copies[1].destination := copies[1].source,
                             copies[2].destination := copies[2].source]
    ensures ExecuteParallel(copies) == expected
  {
    ExecuteParallelOfDistinct(copies);
    var par := ExecuteParallel(copies);
    assert copies[0] in copies && copies[1] in copies && copies[2] in copies;
    forall r | r in par ensures r in expected {
      var c :| c in copies && c.destination == r;
    }
    assert par.Keys == expected.Keys;
  }

  /** Without an isolated cycle, the spare is never written, so the
      sequential result is exactly the parallel one. */
  lemma ExactWithoutCycle(copies: seq<RegisterCopy>, spare: Register, out: seq<RegisterCopy>)
    requires ExecuteSequential(out) - {spare} == ExecuteParallel(copies)
    requires SpareWrites(out, spare) > 0 <==> exists g: set<RegisterCopy> :: IsolatedCycle(copies, g)
    requires forall g: set<RegisterCopy> :: !IsolatedCycle(copies, g)
    ensures ExecuteSequential(out) == ExecuteParallel(copies)
  {
    SpareWritesZero(out, spare);
    assert ExecuteSequential(out) == ExecuteSequential(out) - {spare};
  }

  /** With an isolated cycle, the spare holds a saved value at the end. */
  lemma SpareWithCycle(copies: seq<RegisterCopy>, spare: Register, out: seq<RegisterCopy>, g: set<RegisterCopy>)
    requires SpareWrites(out, spare) > 0 <==> exists g: set<RegisterCopy> :: IsolatedCycle(copies, g)
    requires IsolatedCycle(copies, g)
    ensures spare in ExecuteSequential(out)
  {
    SpareWritesZero(out, spare);
  }

  /** A chain 1 -> 2 -> 3 -> 4 needs no spare: the sequential result is
      exactly the parallel one. */
  method ChainScenario() returns (result: map<Register, nat>)
    ensures result == map[2 := 1, 3 := 2, 4 := 3]
  {
    var copies := [RegisterCopy(1, 2), RegisterCopy(2, 3), RegisterCopy(3, 4)];
    assert ValidBatch(copies, 5);
    var r := SequentializeRegister(copies, 5);
    ChainIsAcyclic(copies);
    ExactWithoutCycle(copies, 5, r.value);
    ParallelOfThree(copies, map[2 := 1, 3 := 2, 4 := 3]);
    result := ExecuteSequential(r.value);
  }

  /** The rotation 1 -> 2 -> 3 -> 1 is an isolated cycle: the spare is
      written, and apart from it the result is the rotation. */
  method CycleScenario() returns (result: map<Register, nat>)
    ensures 4 in result && result - {4} == map[2 := 1, 3 := 2, 1 := 3]
  {
    var copies := [RegisterCopy(1, 2), RegisterCopy(2, 3), RegisterCopy(3, 1)];
    assert ValidBatch(copies, 4);
    var r := SequentializeRegister(copies, 4);
    RotationIsIsolated(copies);
    SpareWithCycle(copies, 4, r.value, {copies[0], copies[1], copies[2]});
    ParallelOfThree(copies, map[2 := 1, 3 := 2, 1 := 3]);
    result := ExecuteSequential(r.value);
  }

  /** Every copy of the chain goes up in register number. */
  lemma ChainIsAcyclic(copies: seq<RegisterCopy>)
    requires copies == [RegisterCopy(1, 2), RegisterCopy(2, 3), RegisterCopy(3, 4)]
    ensures forall g: set<RegisterCopy> :: !IsolatedCycle(copies, g)
  {
    forall g: set<RegisterCopy> ensures !IsolatedCycle(copies, g) {
      AcyclicHasNoIsolatedCycle(copies, r => r, g);
    }
  }

  lemma RotationIsIsolated(copies: seq<RegisterCopy>)
    requires copies == [RegisterCopy(1, 2), RegisterCopy(2, 3), RegisterCopy(3, 1)]
    ensures IsolatedCycle(copies, {copies[0], copies[1], copies[2]})
  {
    var cycle := {copies[0], copies[1], copies[2]};
    assert SetSources(cycle) == {1, 2, 3};
  }

  /** Fan-in 1 -> 2, 1 -> 3 with 2 -> 1: the cycle 1 <-> 2 is not isolated,
      because 1 -> 3 also reads register 1, so no spare is needed. */
  method FanInScenario() returns (result: map<Register, nat>)
    ensures result == map[2 := 1, 3 := 1, 1 := 2]
  {
    var copies := [RegisterCopy(1, 2), RegisterCopy(1, 3), RegisterCopy(2, 1)];
    assert ValidBatch(copies, 4);
    var r := SequentializeRegister(copies, 4);
    forall g: set<RegisterCopy> ensures !IsolatedCycle(copies, g) {
      FanInHasNoIsolatedCycle(g);
    }
    ExactWithoutCycle(copies, 4, r.value);
    ParallelOfThree(copies, map[2 := 1, 3 := 1, 1 := 2]);
    result := ExecuteSequential(r.value);
  }

  /** Any group closed under readers must contain 1 -> 3, whose destination
      nobody reads. */
  lemma FanInHasNoIsolatedCycle(g: set<RegisterCopy>)
    ensures !IsolatedCycle([RegisterCopy(1, 2), RegisterCopy(1, 3), RegisterCopy(2, 1)], g)
  {
    var copies := [RegisterCopy(1, 2), RegisterCopy(1, 3), RegisterCopy(2, 1)];
    var a, b, c := copies[0], copies[1], copies[2];
    if g != {} && (forall x :: x in g ==> x in copies)
       && (forall y, x :: y in copies && x in g && y.source == x.destination ==> y in g) {
      var x :| x in g;
      if x == a {
        assert c in g;
      }
      assert a in g || b in g || c in g;
      assert c in g ==> a in g && b in g;
      assert b in g;
      forall y | y in g ensures y.source != 3 {
        assert y in copies;
      }
      assert 3 !in SetSources(g);
    }
  }
}
