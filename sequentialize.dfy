// The parallel-copy sequentializer: turns a batch of copies that must behave
// as if every source were read before any destination is written into an
// ordered list of copies with the same effect, using one spare register to
// break cycles.

module Sequentialize {
  import opened Registers
  import opened Cardinality

  datatype SequentializeError =
    | SpareRegisterUsed                      // a copy reads or writes the spare
    | DuplicateDestination(destination: Register)  // two copies write one register

  datatype Result<T> = Ok(value: T) | Err(error: SequentializeError)

  /** A set of copies of the batch that only feed each other: every destination
      in it is also a source in it, and every copy of the batch that reads one
      of its destinations belongs to it. Such a group cannot start without
      first saving one of its values elsewhere. */
  ghost predicate IsolatedCycle(copies: seq<RegisterCopy>, group: set<RegisterCopy>) {
    group != {}
    && (forall x :: x in group ==> x in copies)
    && (forall x :: x in group ==> x.destination in SetSources(group))
    && (forall c, x :: c in copies && x in group && c.source == x.destination ==> c in group)
  }

  function SetSources(group: set<RegisterCopy>): set<Register> {
    set x | x in group :: x.source
  }

  /** A batch whose registers can be numbered so that every copy goes from a
      lower to a higher number: its copies form no cycle. */
  ghost predicate RankedBy(copies: seq<RegisterCopy>, rank: Register -> nat) {
    forall c :: c in copies ==> rank(c.source) < rank(c.destination)
  }

  // ---------------------------------------------------------------------
  // The algorithm
  // ---------------------------------------------------------------------

  /** Sequentializes `parallelCopies` using `spare` to break cycles.
      The two rejections of the Rust implementation are the two error results, reported for
      the first offending copy in slice order. */
  method SequentializeRegister(parallelCopies: seq<RegisterCopy>, spare: Register)
    returns (r: Result<seq<RegisterCopy>>)
    ensures r.Ok? <==> ValidBatch(parallelCopies, spare)
    ensures r == Err(SpareRegisterUsed) ==>
      exists i :: 0 <= i < |parallelCopies| && ValidBatch(parallelCopies[..i], spare)
                  && UsesSpare(parallelCopies[i], spare)
    ensures r.Err? && r.error.DuplicateDestination? ==>
      exists i :: 0 <= i < |parallelCopies| && ValidBatch(parallelCopies[..i], spare)
                  && !UsesSpare(parallelCopies[i], spare)
                  && parallelCopies[i].destination == r.error.destination
                  && r.error.destination in Destinations(parallelCopies[..i])
    // Correctness: run sequentially and ignore the spare, the output does what
    // the batch does in parallel.
    ensures r.Ok? ==> ExecuteSequential(r.value) - {spare} == ExecuteParallel(parallelCopies)
    // Write footprint: every emitted copy writes a destination of the batch, or
    // saves a destination of the batch into the spare.
    ensures r.Ok? ==> forall i :: 0 <= i < |r.value| ==>
      r.value[i].destination in Destinations(parallelCopies)
      || (r.value[i].destination == spare && r.value[i].source in Destinations(parallelCopies))
    // Each destination of the batch is written exactly once.
    ensures r.Ok? ==> forall i, j :: 0 <= i < j < |r.value| && r.value[i].destination != spare ==>
      r.value[i].destination != r.value[j].destination
    // One emitted copy per input copy, plus one per eviction into the spare.
    ensures r.Ok? ==> |r.value| == |parallelCopies| + SpareWrites(r.value, spare)
    // The spare is used exactly when the batch holds an isolated cycle.
    ensures r.Ok? ==> (SpareWrites(r.value, spare) > 0 <==> exists g: set<RegisterCopy> :: IsolatedCycle(parallelCopies, g))
  {
    var collected := CollectPending(parallelCopies, spare);
    if collected.Err? {
      return Err(collected.error);
    }
    var (currentHolder, pending) := collected.value;
    var available;
    pending, available := SeedAvailable(parallelCopies, currentHolder, pending);
    BatchFacts(parallelCopies, spare);
    assert SetUp(parallelCopies, Progress(currentHolder, pending, available, []));
    Initially(parallelCopies, spare, Progress(currentHolder, pending, available, []));
    var sequentialized := Emit(parallelCopies, spare, currentHolder, pending, available);
    r := Ok(sequentialized);
  }

  /** First pass of the Rust implementation: rejects a batch touching the spare or writing a
      register twice, and otherwise records every copy as pending under its
      destination and every source as held by itself. */
  method CollectPending(parallelCopies: seq<RegisterCopy>, spare: Register)
    returns (r: Result<(map<Register, Register>, map<Register, RegisterCopy>)>)
    ensures r.Ok? <==> ValidBatch(parallelCopies, spare)
    ensures r == Err(SpareRegisterUsed) ==>
      exists i :: 0 <= i < |parallelCopies| && ValidBatch(parallelCopies[..i], spare)
                  && UsesSpare(parallelCopies[i], spare)
    ensures r.Err? && r.error.DuplicateDestination? ==>
      exists i :: 0 <= i < |parallelCopies| && ValidBatch(parallelCopies[..i], spare)
                  && !UsesSpare(parallelCopies[i], spare)
                  && parallelCopies[i].destination == r.error.destination
                  && r.error.destination in Destinations(parallelCopies[..i])
    ensures r.Ok? ==> r.value.0.Keys == Sources(parallelCopies)
                      && forall s :: s in r.value.0 ==> r.value.0[s] == s
    ensures r.Ok? ==> r.value.1.Keys == Destinations(parallelCopies) && |r.value.1| == |parallelCopies|
                      && forall k :: k in r.value.1 ==> r.value.1[k] in parallelCopies && r.value.1[k].destination == k
  {
    var currentHolder: map<Register, Register> := map[];
    var pending: map<Register, RegisterCopy> := map[];
    for i := 0 to |parallelCopies|
      invariant Collecting(parallelCopies, spare, i, currentHolder, pending)
    {
      var copy := parallelCopies[i];
      if copy.source == spare || copy.destination == spare {
        FaultInvalidates(parallelCopies, spare, i);
        assert UsesSpare(parallelCopies[i], spare);
        return Err(SpareRegisterUsed);
      }
      if copy.destination in pending {
        FaultInvalidates(parallelCopies, spare, i);
        assert !UsesSpare(parallelCopies[i], spare);
        return Err(DuplicateDestination(copy.destination));
      }
      Collected(parallelCopies, spare, i, currentHolder, pending);
      pending := pending[copy.destination := copy];
      currentHolder := currentHolder[copy.source := copy.source];
    }
    Complete(parallelCopies, spare, currentHolder, pending);
    r := Ok((currentHolder, pending));
  }

  /** The invariant of the first pass after `i` copies. */
  ghost predicate Collecting(copies: seq<RegisterCopy>, spare: Register, i: nat,
                             holder: map<Register, Register>, pending: map<Register, RegisterCopy>)
  {
    i <= |copies| && ValidBatch(copies[..i], spare)
    && pending.Keys == Destinations(copies[..i]) && |pending| == i
    && (forall k :: k in pending ==> pending[k] in copies && pending[k].destination == k)
    && holder.Keys == Sources(copies[..i])
    && (forall s :: s in holder ==> holder[s] == s)
  }

  lemma Collected(copies: seq<RegisterCopy>, spare: Register, i: nat,
                  holder: map<Register, Register>, pending: map<Register, RegisterCopy>)
    requires i < |copies| && Collecting(copies, spare, i, holder, pending)
    requires !UsesSpare(copies[i], spare) && copies[i].destination !in pending
    ensures Collecting(copies, spare, i + 1, holder[copies[i].source := copies[i].source],
                       pending[copies[i].destination := copies[i]])
  {
    CollectedValid(copies, spare, i, holder, pending);
    CollectedPending(copies, spare, i, holder, pending);
    CollectedHolders(copies, spare, i, holder, pending);
  }

  lemma CollectedValid(copies: seq<RegisterCopy>, spare: Register, i: nat,
                  holder: map<Register, Register>, pending: map<Register, RegisterCopy>)
    requires i < |copies| && Collecting(copies, spare, i, holder, pending)
    requires !UsesSpare(copies[i], spare) && copies[i].destination !in pending
    ensures ValidBatch(copies[..i + 1], spare)
  {
    PrefixGrows(copies, spare, i);
  }

  lemma CollectedPending(copies: seq<RegisterCopy>, spare: Register, i: nat,
                  holder: map<Register, Register>, pending: map<Register, RegisterCopy>)
    requires i < |copies| && Collecting(copies, spare, i, holder, pending)
    requires !UsesSpare(copies[i], spare) && copies[i].destination !in pending
    ensures pending[copies[i].destination := copies[i]].Keys == Destinations(copies[..i + 1])
  {
    PrefixGrows(copies, spare, i);
  }

  lemma CollectedHolders(copies: seq<RegisterCopy>, spare: Register, i: nat,
                  holder: map<Register, Register>, pending: map<Register, RegisterCopy>)
    requires i < |copies| && Collecting(copies, spare, i, holder, pending)
    requires !UsesSpare(copies[i], spare) && copies[i].destination !in pending
    ensures holder[copies[i].source := copies[i].source].Keys == Sources(copies[..i + 1])
  {
    PrefixGrows(copies, spare, i);
  }

  /** A fault-free copy extends a valid prefix to a valid prefix. */
  lemma PrefixGrows(copies: seq<RegisterCopy>, spare: Register, i: nat)
    requires i < |copies| && ValidBatch(copies[..i], spare)
    requires !UsesSpare(copies[i], spare) && copies[i].destination !in Destinations(copies[..i])
    ensures ValidBatch(copies[..i + 1], spare)
    ensures Destinations(copies[..i + 1]) == Destinations(copies[..i]) + {copies[i].destination}
    ensures Sources(copies[..i + 1]) == Sources(copies[..i]) + {copies[i].source}
  {
    var prefix := copies[..i];
    assert copies[..i + 1] == prefix + [copies[i]];
    forall a | 0 <= a < i ensures copies[a].destination != copies[i].destination {
      assert prefix[a] in prefix;
    }
  }

  lemma Complete(copies: seq<RegisterCopy>, spare: Register,
                 holder: map<Register, Register>, pending: map<Register, RegisterCopy>)
    requires Collecting(copies, spare, |copies|, holder, pending)
    ensures ValidBatch(copies, spare)
    ensures holder.Keys == Sources(copies) && forall s :: s in holder ==> holder[s] == s
    ensures pending.Keys == Destinations(copies) && |pending| == |copies|
    ensures forall k :: k in pending ==> pending[k] in copies && pending[k].destination == k
  {
    assert copies[..|copies|] == copies;
  }

  /** A copy touching the spare, or writing a register an earlier copy writes,
      makes the whole batch invalid. */
  lemma FaultInvalidates(copies: seq<RegisterCopy>, spare: Register, i: nat)
    requires i < |copies|
    requires UsesSpare(copies[i], spare) || copies[i].destination in Destinations(copies[..i])
    ensures !ValidBatch(copies, spare)
  {
    if !UsesSpare(copies[i], spare) {
      var x :| x in copies[..i] && x.destination == copies[i].destination;
      var j :| 0 <= j < i && copies[..i][j] == x;
      assert copies[j].destination == copies[i].destination;
    }
  }

  /** Second pass of the Rust implementation: a copy whose destination no copy reads can be
      emitted at once, so it moves from `pending` to the `available` stack. */
  method SeedAvailable(parallelCopies: seq<RegisterCopy>, currentHolder: map<Register, Register>,
                       pending0: map<Register, RegisterCopy>)
    returns (pending: map<Register, RegisterCopy>, available: seq<RegisterCopy>)
    requires DistinctDestinations(parallelCopies) && pending0.Keys == Destinations(parallelCopies)
    requires forall k :: k in pending0 ==> pending0[k] in parallelCopies && pending0[k].destination == k
    requires currentHolder.Keys == Sources(parallelCopies)
    ensures forall k :: k in pending ==> pending[k] in parallelCopies && pending[k].destination == k
    // A copy stays pending exactly when some copy reads its destination...
    ensures forall c :: c in parallelCopies ==> (c.destination in pending <==> c.destination in Sources(parallelCopies))
    // ...and is available exactly when no copy does.
    ensures forall c :: c in available <==> c in parallelCopies && c.destination !in Sources(parallelCopies)
    ensures forall a, b :: 0 <= a < b < |available| ==> available[a].destination != available[b].destination
    ensures |pending| + |available| == |pending0|
  {
    pending, available := pending0, [];
    for i := 0 to |parallelCopies|
      invariant Seeding(parallelCopies, currentHolder, pending0, i, pending, available)
    {
      var copy := parallelCopies[i];
      ghost var before := (pending, available);
      if copy.destination !in currentHolder {
        pending := pending - {copy.destination};
        available := available + [copy];
        Seeded(parallelCopies, currentHolder, pending0, i, before.0, before.1);
      } else {
        Skipped(parallelCopies, currentHolder, pending0, i, pending, available);
      }
    }
    SeedingDone(parallelCopies, currentHolder, pending0, pending, available);
  }

  /** The invariant of the second pass after `i` copies. */
  ghost predicate Seeding(copies: seq<RegisterCopy>, holder: map<Register, Register>, pending0: map<Register, RegisterCopy>,
                          i: nat, pending: map<Register, RegisterCopy>, available: seq<RegisterCopy>)
  {
    i <= |copies|
    && (forall k :: k in pending ==> k in pending0 && pending[k] == pending0[k])
    && (forall k :: k in pending0 && k in holder ==> k in pending)
    && (forall j :: i <= j < |copies| ==> copies[j].destination in pending)
    && (forall c :: c in available ==> c in copies && c.destination !in holder && c.destination !in pending)
    && (forall j :: 0 <= j < i && copies[j].destination !in holder ==> copies[j] in available)
    && (forall a, b :: 0 <= a < b < |available| ==> available[a].destination != available[b].destination)
    && |pending| + |available| == |pending0|
  }

  lemma SeedingDone(copies: seq<RegisterCopy>, holder: map<Register, Register>, pending0: map<Register, RegisterCopy>,
                    pending: map<Register, RegisterCopy>, available: seq<RegisterCopy>)
    requires pending0.Keys == Destinations(copies)
    requires forall k :: k in pending0 ==> pending0[k] in copies && pending0[k].destination == k
    requires Seeding(copies, holder, pending0, |copies|, pending, available)
    ensures forall k :: k in pending ==> pending[k] in copies && pending[k].destination == k
    ensures forall c :: c in copies ==> (c.destination in pending <==> c.destination in holder)
    ensures forall c :: c in available <==> c in copies && c.destination !in holder
  {
    forall c | c in copies && c.destination !in holder ensures c in available {
      var j :| 0 <= j < |copies| && copies[j] == c;
    }
  }

  lemma Seeded(copies: seq<RegisterCopy>, holder: map<Register, Register>, pending0: map<Register, RegisterCopy>,
               i: nat, pending: map<Register, RegisterCopy>, available: seq<RegisterCopy>)
    requires DistinctDestinations(copies) && i < |copies| && copies[i].destination !in holder
    requires Seeding(copies, holder, pending0, i, pending, available)
    ensures Seeding(copies, holder, pending0, i + 1, pending - {copies[i].destination}, available + [copies[i]])
  {
    var copy := copies[i];
    forall a | 0 <= a < |available| ensures available[a].destination != copy.destination {
      assert available[a] in available;
    }
    var pending', available' := pending - {copy.destination}, available + [copy];
    assert forall c :: c in available' <==> c in available || c == copy;
    forall j | i + 1 <= j < |copies| ensures copies[j].destination in pending' {
      assert copies[j].destination != copies[i].destination;
    }
  }

  lemma Skipped(copies: seq<RegisterCopy>, holder: map<Register, Register>, pending0: map<Register, RegisterCopy>,
                i: nat, pending: map<Register, RegisterCopy>, available: seq<RegisterCopy>)
    requires i < |copies| && copies[i].destination in holder
    requires Seeding(copies, holder, pending0, i, pending, available)
    ensures Seeding(copies, holder, pending0, i + 1, pending, available)
  {
  }

  /** The main loop of the Rust implementation: drain the `available` stack, and when it is
      empty while copies are still pending, break a cycle through the spare. */
  method Emit(parallelCopies: seq<RegisterCopy>, spare: Register, holder0: map<Register, Register>,
              pending0: map<Register, RegisterCopy>, available0: seq<RegisterCopy>)
    returns (sequentialized: seq<RegisterCopy>)
    requires ValidBatch(parallelCopies, spare)
    requires Inv(parallelCopies, spare, Progress(holder0, pending0, available0, []), {})
    ensures ExecuteSequential(sequentialized) - {spare} == ExecuteParallel(parallelCopies)
    ensures Footprint(parallelCopies, spare, sequentialized) && WriteOnce(spare, sequentialized)
    ensures |sequentialized| == |parallelCopies| + SpareWrites(sequentialized, spare)
    ensures SpareWrites(sequentialized, spare) > 0 <==> exists g: set<RegisterCopy> :: IsolatedCycle(parallelCopies, g)
  {
    var currentHolder: map<Register, Register>, pending: map<Register, RegisterCopy>, available: seq<RegisterCopy>
      := holder0, pending0, available0;
    sequentialized := [];
    ghost var cycle: set<RegisterCopy> := {};
    while pending != map[] || available != []
      invariant Inv(parallelCopies, spare, Progress(currentHolder, pending, available, sequentialized), cycle)
      decreases 2 * |pending| + |available|
    {
      ghost var measure := 2 * |pending| + |available|;
      currentHolder, pending, sequentialized :=
        DrainAvailable(parallelCopies, spare, currentHolder, pending, available, sequentialized, cycle);
      available := [];
      if pending != map[] {
        ghost var evicted;
        currentHolder, pending, available, sequentialized, evicted, cycle :=
          EvictSmallest(parallelCopies, spare, currentHolder, pending, available, sequentialized, cycle);
      } else {
        break;
      }
    }
    Finished(parallelCopies, spare, Progress(currentHolder, pending, available, sequentialized), cycle);
  }

  /** The inner loop of the Rust implementation: emit available copies until none is left. */
  method DrainAvailable(parallelCopies: seq<RegisterCopy>, spare: Register, holder0: map<Register, Register>,
                        pending0: map<Register, RegisterCopy>, available0: seq<RegisterCopy>,
                        sequentialized0: seq<RegisterCopy>, ghost cycle: set<RegisterCopy>)
    returns (currentHolder: map<Register, Register>, pending: map<Register, RegisterCopy>,
             sequentialized: seq<RegisterCopy>)
    requires Inv(parallelCopies, spare, Progress(holder0, pending0, available0, sequentialized0), cycle)
    ensures Inv(parallelCopies, spare, Progress(currentHolder, pending, [], sequentialized), cycle)
    // Pending copies are only ever removed, and output is only appended.
    ensures pending.Items <= pending0.Items
    ensures sequentialized0 <= sequentialized
    // The measure of the main loop does not grow.
    ensures 2 * |pending| <= 2 * |pending0| + |available0|
  {
    var available: seq<RegisterCopy>;
    currentHolder, pending, available, sequentialized := holder0, pending0, available0, sequentialized0;
    while available != []
      invariant Inv(parallelCopies, spare, Progress(currentHolder, pending, available, sequentialized), cycle)
      invariant forall k :: k in pending ==> k in pending0 && pending[k] == pending0[k]
      invariant sequentialized0 <= sequentialized
      invariant 2 * |pending| + |available| <= 2 * |pending0| + |available0|
      decreases 2 * |pending| + |available|
    {
      currentHolder, pending, available, sequentialized :=
        MaterializeTop(parallelCopies, spare, currentHolder, pending, available, sequentialized, cycle);
    }
  }

  /** One pass of the inner loop of the Rust implementation: pop an available copy and emit
      it from wherever its source's value now lives; if that location was a
      pending destination, the copy writing it becomes available. */
  method MaterializeTop(parallelCopies: seq<RegisterCopy>, spare: Register, holder0: map<Register, Register>,
                        pending0: map<Register, RegisterCopy>, available0: seq<RegisterCopy>,
                        sequentialized0: seq<RegisterCopy>, ghost cycle: set<RegisterCopy>)
    returns (currentHolder: map<Register, Register>, pending: map<Register, RegisterCopy>,
             available: seq<RegisterCopy>, sequentialized: seq<RegisterCopy>)
    requires available0 != []
    requires Inv(parallelCopies, spare, Progress(holder0, pending0, available0, sequentialized0), cycle)
    ensures MaterializeStep(spare, Progress(holder0, pending0, available0, sequentialized0),
                            Progress(currentHolder, pending, available, sequentialized))
    ensures Inv(parallelCopies, spare, Progress(currentHolder, pending, available, sequentialized), cycle)
    ensures 2 * |pending| + |available| < 2 * |pending0| + |available0|
  {
    currentHolder, pending, sequentialized := holder0, pending0, sequentialized0;
    var copy := available0[|available0| - 1];
    available := available0[..|available0| - 1];
    if copy.source in currentHolder {
      var source := currentHolder[copy.source];
      sequentialized := sequentialized + [RegisterCopy(source, copy.destination)];
      if source in pending {
        var availableCopy := pending[source];
        pending := pending - {source};
        available := available + [availableCopy];
        // The value has moved to its new home.
        currentHolder := currentHolder[copy.source := copy.destination];
      } else if source == spare {
        // Frees the spare for the next cycle.
        currentHolder := currentHolder[copy.source := copy.destination];
      }
      Materialized(parallelCopies, spare, Progress(holder0, pending0, available0, sequentialized0),
                   Progress(currentHolder, pending, available, sequentialized), cycle);
    } else {
      // "No holder for source register": unreachable for a valid batch.
      assert false;
    }
  }

  /** The eviction step of the Rust implementation, taken when nothing is available but
      copies are pending: every pending copy is blocked, so the value of the
      smallest pending destination is saved into the spare and its copy
      becomes available. */
  method EvictSmallest(parallelCopies: seq<RegisterCopy>, spare: Register, holder0: map<Register, Register>,
                       pending0: map<Register, RegisterCopy>, available0: seq<RegisterCopy>,
                       sequentialized0: seq<RegisterCopy>, ghost cycle0: set<RegisterCopy>)
    returns (currentHolder: map<Register, Register>, pending: map<Register, RegisterCopy>,
             available: seq<RegisterCopy>, sequentialized: seq<RegisterCopy>,
             ghost evicted: Register, ghost cycle: set<RegisterCopy>)
    requires available0 == [] && pending0 != map[]
    requires Inv(parallelCopies, spare, Progress(holder0, pending0, available0, sequentialized0), cycle0)
    ensures evicted in pending0 && forall k :: k in pending0 ==> evicted <= k
    ensures EvictStep(spare, Progress(holder0, pending0, available0, sequentialized0),
                      Progress(currentHolder, pending, available, sequentialized), evicted)
    ensures Inv(parallelCopies, spare, Progress(currentHolder, pending, available, sequentialized), cycle)
    ensures 2 * |pending| + |available| < 2 * |pending0| + |available0|
  {
    ghost var least := SmallestKey(pending0.Keys);
    var destination :| destination in pending0 && forall k :: k in pending0 ==> destination <= k;
    var copy := pending0[destination];
    sequentialized := sequentialized0 + [RegisterCopy(copy.destination, spare)];
    currentHolder := holder0[copy.destination := spare];
    available := available0 + [copy];
    pending := pending0 - {destination};
    Evicted(parallelCopies, spare, Progress(holder0, pending0, available0, sequentialized0),
            Progress(currentHolder, pending, available, sequentialized), destination, cycle0);
    evicted, cycle := destination, PendingCopies(pending0);
  }

  /** A non-empty set of registers has a smallest element. */
  lemma {:induction false} SmallestKey(keys: set<Register>) returns (least: Register)
    requires keys != {}
    ensures least in keys && forall j :: j in keys ==> least <= j
  {
    var k :| k in keys;
    if keys == {k} {
      least := k;
    } else {
      var m := SmallestKey(keys - {k});
      least := if k < m then k else m;
      forall j | j in keys ensures least <= j {
        if j != k {
          assert j in keys - {k};
        }
      }
    }
  }

  // ---------------------------------------------------------------------
  // The invariant of the main loop
  // ---------------------------------------------------------------------

  /** Snapshot of the working state: current holders, pending copies keyed by
      destination, the stack of available copies, and the copies emitted. */
  datatype Progress = Progress(
    holder: map<Register, Register>,
    pending: map<Register, RegisterCopy>,
    available: seq<RegisterCopy>,
    out: seq<RegisterCopy>)

  /** A copy of the batch that has not been emitted yet. */
  ghost predicate NotDone(p: Progress, c: RegisterCopy) {
    c.destination in p.pending || c in p.available
  }

  ghost function NotDoneSources(copies: seq<RegisterCopy>, p: Progress): set<Register> {
    set x | x in copies && NotDone(p, x) :: x.source
  }

  ghost function PendingCopies(pending: map<Register, RegisterCopy>): set<RegisterCopy> {
    set k | k in pending :: pending[k]
  }

  ghost function PendingSources(pending: map<Register, RegisterCopy>): set<Register> {
    set k | k in pending :: pending[k].source
  }

  /** The batch facts the proof uses, in terms of membership. */
  ghost predicate Batch(copies: seq<RegisterCopy>, spare: Register) {
    forall x :: x in copies ==> !UsesSpare(x, spare) && Writer(copies, x.destination) == x
  }

  /** The copy of the batch that writes `r`. */
  ghost function Writer(copies: seq<RegisterCopy>, r: Register): RegisterCopy
    requires r in Destinations(copies)
  {
    var x :| x in copies && x.destination == r; x
  }

  ghost predicate Covers(copies: seq<RegisterCopy>, p: Progress) {
    forall x :: x in copies ==> x.source in p.holder
  }

  ghost predicate PendingOk(copies: seq<RegisterCopy>, p: Progress) {
    forall k :: k in p.pending ==> p.pending[k] in copies && p.pending[k].destination == k
  }

  ghost predicate AvailableOk(copies: seq<RegisterCopy>, p: Progress) {
    forall x :: x in p.available ==> x in copies && x.destination !in p.pending
  }

  ghost predicate AvailableDistinct(p: Progress) {
    forall a, b :: 0 <= a < b < |p.available| ==> p.available[a].destination != p.available[b].destination
  }

  /** A copy not emitted yet: its destination is unwritten and its source's
      original value sits in the source's current holder. */
  ghost predicate ValuesHeld(copies: seq<RegisterCopy>, p: Progress, regs: map<Register, nat>)
    requires Covers(copies, p)
  {
    forall x :: x in copies && NotDone(p, x) ==>
      x.destination !in regs && Read(regs, p.holder[x.source]) == x.source
  }

  /** An available destination holds no value still needed. */
  ghost predicate AvailableFree(copies: seq<RegisterCopy>, p: Progress)
    requires Covers(copies, p)
  {
    forall x, y :: x in copies && NotDone(p, x) && y in p.available ==> p.holder[x.source] != y.destination
  }

  /** A pending destination still holds its own value... */
  ghost predicate PendingSelfHeld(p: Progress) {
    forall k :: k in p.pending ==> k in p.holder && p.holder[k] == k
  }

  /** ...which some copy not emitted yet needs. */
  ghost predicate PendingBlocked(copies: seq<RegisterCopy>, p: Progress) {
    forall k :: k in p.pending ==> k in NotDoneSources(copies, p)
  }

  /** A holder is the original register or one already written. */
  ghost predicate HoldersWritten(p: Progress, regs: map<Register, nat>) {
    forall s :: s in p.holder ==> p.holder[s] == s || p.holder[s] in regs
  }

  /** An emitted copy has put its source's original value in its destination. */
  ghost predicate DoneCorrect(copies: seq<RegisterCopy>, p: Progress, regs: map<Register, nat>) {
    forall x :: x in copies && !NotDone(p, x) ==> x.destination in regs && regs[x.destination] == x.source
  }

  /** A copy reading a pending destination has not been emitted. */
  ghost predicate ReadersNotDone(copies: seq<RegisterCopy>, p: Progress) {
    forall x :: x in copies && x.source in p.pending ==> NotDone(p, x)
  }

  ghost predicate Footprint(copies: seq<RegisterCopy>, spare: Register, out: seq<RegisterCopy>) {
    forall i :: 0 <= i < |out| ==>
      out[i].destination in Destinations(copies)
      || (out[i].destination == spare && out[i].source in Destinations(copies))
  }

  ghost predicate WriteOnce(spare: Register, out: seq<RegisterCopy>) {
    forall i, j :: 0 <= i < j < |out| && out[i].destination != spare ==> out[i].destination != out[j].destination
  }

  ghost predicate Counted(copies: seq<RegisterCopy>, spare: Register, p: Progress) {
    |p.out| + |p.pending| + |p.available| == |copies| + SpareWrites(p.out, spare)
  }

  /** The spare has been written only because of an isolated cycle, and every
      isolated cycle stays entirely pending until the spare is used. */
  ghost predicate CycleTracking(copies: seq<RegisterCopy>, spare: Register, p: Progress, cycle: set<RegisterCopy>) {
    (SpareWrites(p.out, spare) > 0 ==> IsolatedCycle(copies, cycle))
    && (forall g: set<RegisterCopy> :: IsolatedCycle(copies, g) ==>
          SpareWrites(p.out, spare) > 0 || forall x: RegisterCopy :: x in g ==> x.destination in p.pending)
  }

  ghost predicate Inv(copies: seq<RegisterCopy>, spare: Register, p: Progress, cycle: set<RegisterCopy>) {
    Batch(copies, spare)
    && Covers(copies, p) && PendingOk(copies, p) && AvailableOk(copies, p) && AvailableDistinct(p)
    && var regs := ExecuteSequential(p.out);
    ValuesHeld(copies, p, regs) && AvailableFree(copies, p)
    && PendingSelfHeld(p) && PendingBlocked(copies, p) && HoldersWritten(p, regs)
    && DoneCorrect(copies, p, regs) && ReadersNotDone(copies, p)
    && Footprint(copies, spare, p.out) && WriteOnce(spare, p.out) && Counted(copies, spare, p)
    && CycleTracking(copies, spare, p, cycle)
  }

  /** One pass of the inner loop: pop a copy, emit it from its source's current
      holder, and unblock the pending copy that writes that holder, if any. */
  ghost predicate MaterializeStep(spare: Register, p: Progress, q: Progress) {
    p.available != []
    && var c := p.available[|p.available| - 1];
    var front := p.available[..|p.available| - 1];
    c.source in p.holder
    && var h := p.holder[c.source];
    q.out == p.out + [RegisterCopy(h, c.destination)]
    && if h in p.pending then
         q.pending == p.pending - {h} && q.available == front + [p.pending[h]]
         && q.holder == p.holder[c.source := c.destination]
       else
         q.pending == p.pending && q.available == front
         && q.holder == (if h == spare then p.holder[c.source := c.destination] else p.holder)
  }

  /** Eviction: save the value of pending destination `d` into the spare. */
  ghost predicate EvictStep(spare: Register, p: Progress, q: Progress, d: Register) {
    d in p.pending
    && q == Progress(p.holder[d := spare], p.pending - {d}, p.available + [p.pending[d]],
                     p.out + [RegisterCopy(p.pending[d].destination, spare)])
  }

  // ---------------------------------------------------------------------
  // Establishing the invariant
  // ---------------------------------------------------------------------

  lemma BatchFacts(copies: seq<RegisterCopy>, spare: Register)
    requires ValidBatch(copies, spare)
    ensures Batch(copies, spare)
  {
    forall x | x in copies ensures !UsesSpare(x, spare) && Writer(copies, x.destination) == x {
      var y := Writer(copies, x.destination);
      var i :| 0 <= i < |copies| && copies[i] == x;
      var j :| 0 <= j < |copies| && copies[j] == y;
      assert !(i < j) && !(j < i);
    }
  }

  /** The state after set-up: holders are the identity on sources, copies whose
      destination nobody reads are available, the others pending. */
  ghost predicate SetUp(copies: seq<RegisterCopy>, p: Progress) {
    p.out == []
    && p.holder.Keys == Sources(copies) && (forall s :: s in p.holder ==> p.holder[s] == s)
    && (forall k :: k in p.pending ==> p.pending[k] in copies && p.pending[k].destination == k)
    && (forall c :: c in copies ==> (c.destination in p.pending <==> c.destination in p.holder))
    && (forall c :: c in p.available <==> c in copies && c.destination !in p.holder)
    && AvailableDistinct(p)
    && |p.pending| + |p.available| == |copies|
  }

  lemma Initially(copies: seq<RegisterCopy>, spare: Register, p: Progress)
    requires Batch(copies, spare) && SetUp(copies, p)
    ensures Inv(copies, spare, p, {})
  {
    var regs := ExecuteSequential(p.out);
    assert regs == map[];
    assert forall x :: x in copies ==> NotDone(p, x);
    InitiallyShape(copies, spare, p);
    InitiallyBlocked(copies, p);
    InitiallyCycles(copies, spare, p);
  }

  lemma InitiallyShape(copies: seq<RegisterCopy>, spare: Register, p: Progress)
    requires Batch(copies, spare) && SetUp(copies, p)
    ensures Covers(copies, p) && PendingOk(copies, p) && AvailableOk(copies, p)
    ensures ValuesHeld(copies, p, map[]) && AvailableFree(copies, p) && PendingSelfHeld(p)
    ensures HoldersWritten(p, map[])
  {
    forall x, y | x in copies && NotDone(p, x) && y in p.available
      ensures p.holder[x.source] != y.destination
    {
      assert x.source in Sources(copies);
    }
  }

  lemma InitiallyBlocked(copies: seq<RegisterCopy>, p: Progress)
    requires SetUp(copies, p)
    ensures PendingBlocked(copies, p)
  {
    forall k | k in p.pending ensures k in NotDoneSources(copies, p) {
      assert k in Sources(copies);
      var y :| y in copies && y.source == k;
      assert NotDone(p, y);
    }
  }

  lemma InitiallyCycles(copies: seq<RegisterCopy>, spare: Register, p: Progress)
    requires SetUp(copies, p)
    ensures CycleTracking(copies, spare, p, {})
  {
    forall g: set<RegisterCopy> | IsolatedCycle(copies, g)
      ensures forall x: RegisterCopy :: x in g ==> x.destination in p.pending
    {
      forall x: RegisterCopy | x in g ensures x.destination in p.pending {
        var y :| y in g && y.source == x.destination;
        assert y in copies;
        assert x.destination in Sources(copies);
      }
    }
  }

  // ---------------------------------------------------------------------
  // Emitting an available copy preserves the invariant
  // ---------------------------------------------------------------------

  /** What one materialization does to the registers and to the copies not
      emitted yet. */
  ghost predicate MaterializeFacts(copies: seq<RegisterCopy>, spare: Register, p: Progress, q: Progress,
                                   regs: map<Register, nat>, regs': map<Register, nat>)
  {
    MaterializeStep(spare, p, q)
    && var c := p.available[|p.available| - 1];
    var h := p.holder[c.source];
    c in copies && c in p.available && c !in p.available[..|p.available| - 1]
    && regs' == regs[c.destination := c.source]
    && c.destination !in regs && h != c.destination && Read(regs, h) == c.source
    && (forall x :: x in copies ==> (NotDone(q, x) <==> NotDone(p, x) && x != c))
  }

  lemma Materialized(copies: seq<RegisterCopy>, spare: Register, p: Progress, q: Progress, cycle: set<RegisterCopy>)
    requires Inv(copies, spare, p, cycle) && MaterializeStep(spare, p, q)
    ensures Inv(copies, spare, q, cycle)
    ensures 2 * |q.pending| + |q.available| < 2 * |p.pending| + |p.available|
  {
    var c := p.available[|p.available| - 1];
    var h := p.holder[c.source];
    var e := RegisterCopy(h, c.destination);
    var regs, regs' := ExecuteSequential(p.out), ExecuteSequential(q.out);
    ExecuteSequentialAppend(p.out, e);
    ExecuteSequentialWrites(p.out);
    SpareWritesAppend(p.out, e, spare);
    assert c in p.available;
    assert NotDone(p, c);
    MaterializedNotDone(copies, spare, p, q);
    assert MaterializeFacts(copies, spare, p, q, regs, regs');
    MaterializedShape(copies, spare, p, q);
    MaterializedValues(copies, spare, p, q, regs, regs');
    MaterializedFree(copies, spare, p, q, regs, regs');
    MaterializedPending(copies, spare, p, q, regs, regs');
    MaterializedDone(copies, spare, p, q, regs, regs');
    MaterializedOut(copies, spare, p, q, regs, regs');
    MaterializedCycles(copies, spare, p, q, regs, regs', cycle);
  }

  lemma MaterializedNotDone(copies: seq<RegisterCopy>, spare: Register, p: Progress, q: Progress)
    requires Batch(copies, spare) && PendingOk(copies, p) && AvailableOk(copies, p) && AvailableDistinct(p)
    requires MaterializeStep(spare, p, q)
    ensures p.available[|p.available| - 1] !in p.available[..|p.available| - 1]
    ensures forall x :: x in copies ==>
      (NotDone(q, x) <==> NotDone(p, x) && x != p.available[|p.available| - 1])
  {
    var c := p.available[|p.available| - 1];
    var front := p.available[..|p.available| - 1];
    assert p.available == front + [c];
    forall a | 0 <= a < |front| ensures front[a] != c {
      assert front[a] == p.available[a];
    }
    forall x | x in copies
      ensures NotDone(q, x) <==> NotDone(p, x) && x != c
    {
      var h := p.holder[c.source];
      if h in p.pending && x.destination == h {
        assert x == p.pending[h];
      }
    }
  }

  lemma MaterializedShape(copies: seq<RegisterCopy>, spare: Register, p: Progress, q: Progress)
    requires Covers(copies, p) && PendingOk(copies, p) && AvailableOk(copies, p) && AvailableDistinct(p)
    requires MaterializeStep(spare, p, q)
    ensures Covers(copies, q) && PendingOk(copies, q) && AvailableOk(copies, q) && AvailableDistinct(q)
  {
    var c := p.available[|p.available| - 1];
    var front := p.available[..|p.available| - 1];
    var h := p.holder[c.source];
    forall x | x in q.available ensures x in copies && x.destination !in q.pending {
      if x in front {
        assert x in p.available;
      }
    }
    if h in p.pending {
      forall a, b | 0 <= a < b < |q.available|
        ensures q.available[a].destination != q.available[b].destination
      {
        assert q.available[a] == front[a] && front[a] in p.available;
        if b < |front| {
          assert q.available[b] == p.available[b];
        }
      }
    }
  }

  lemma MaterializedValues(copies: seq<RegisterCopy>, spare: Register, p: Progress, q: Progress,
                           regs: map<Register, nat>, regs': map<Register, nat>)
    requires Batch(copies, spare) && Covers(copies, p) && Covers(copies, q)
    requires ValuesHeld(copies, p, regs) && AvailableFree(copies, p)
    requires MaterializeFacts(copies, spare, p, q, regs, regs')
    ensures ValuesHeld(copies, q, regs')
  {
    var c := p.available[|p.available| - 1];
    forall x | x in copies && NotDone(q, x)
      ensures x.destination !in regs' && Read(regs', q.holder[x.source]) == x.source
    {
      assert x.destination != c.destination;
      if q.holder[x.source] != c.destination {
        assert q.holder[x.source] == p.holder[x.source];
      }
    }
  }

  lemma MaterializedFree(copies: seq<RegisterCopy>, spare: Register, p: Progress, q: Progress,
                         regs: map<Register, nat>, regs': map<Register, nat>)
    requires MaterializeFacts(copies, spare, p, q, regs, regs')
    requires Batch(copies, spare) && Covers(copies, p) && Covers(copies, q) && PendingOk(copies, p)
    requires AvailableDistinct(p) && ValuesHeld(copies, p, regs) && AvailableFree(copies, p)
    ensures AvailableFree(copies, q)
  {
    var c := p.available[|p.available| - 1];
    var front := p.available[..|p.available| - 1];
    var h := p.holder[c.source];
    forall x, y | x in copies && NotDone(q, x) && y in q.available
      ensures q.holder[x.source] != y.destination
    {
      if y in front {
        var a :| 0 <= a < |front| && front[a] == y;
        assert p.available[a] == y;
        assert y.destination != c.destination;
        assert NotDone(p, x);
      } else {
        assert h in p.pending && y == p.pending[h];
        assert NotDone(p, x);
        if x.source != c.source {
          assert q.holder[x.source] == p.holder[x.source];
          assert Read(regs, p.holder[x.source]) == x.source;
          assert Read(regs, h) == c.source;
        }
      }
    }
  }

  lemma MaterializedPending(copies: seq<RegisterCopy>, spare: Register, p: Progress, q: Progress,
                            regs: map<Register, nat>, regs': map<Register, nat>)
    requires Covers(copies, p) && PendingSelfHeld(p) && PendingBlocked(copies, p) && HoldersWritten(p, regs)
    requires MaterializeFacts(copies, spare, p, q, regs, regs')
    ensures PendingSelfHeld(q) && PendingBlocked(copies, q) && HoldersWritten(q, regs')
  {
    var c := p.available[|p.available| - 1];
    forall k | k in q.pending
      ensures k in q.holder && q.holder[k] == k && k in NotDoneSources(copies, q)
    {
      assert k in p.pending && k != c.source;
      var y :| y in copies && NotDone(p, y) && y.source == k;
      assert NotDone(q, y);
    }
    forall s | s in q.holder ensures q.holder[s] == s || q.holder[s] in regs' {
      assert s in p.holder;
    }
  }

  lemma MaterializedDone(copies: seq<RegisterCopy>, spare: Register, p: Progress, q: Progress,
                         regs: map<Register, nat>, regs': map<Register, nat>)
    requires Batch(copies, spare) && Covers(copies, p) && PendingSelfHeld(p)
    requires DoneCorrect(copies, p, regs) && ReadersNotDone(copies, p)
    requires MaterializeFacts(copies, spare, p, q, regs, regs')
    ensures DoneCorrect(copies, q, regs') && ReadersNotDone(copies, q)
  {
    var c := p.available[|p.available| - 1];
    forall x | x in copies && !NotDone(q, x)
      ensures x.destination in regs' && regs'[x.destination] == x.source
    {
      if x != c {
        assert x.destination != c.destination;
      }
    }
    forall x | x in copies && x.source in q.pending ensures NotDone(q, x) {
      assert x.source in p.pending;
    }
  }

  lemma MaterializedOut(copies: seq<RegisterCopy>, spare: Register, p: Progress, q: Progress,
                        regs: map<Register, nat>, regs': map<Register, nat>)
    requires MaterializeFacts(copies, spare, p, q, regs, regs')
    requires Batch(copies, spare)
    requires Footprint(copies, spare, p.out) && WriteOnce(spare, p.out) && Counted(copies, spare, p)
    requires regs.Keys == Destinations(p.out)
    requires SpareWrites(q.out, spare) == SpareWrites(p.out, spare)
              + (if p.available[|p.available| - 1].destination == spare then 1 else 0)
    requires MaterializeFacts(copies, spare, p, q, regs, regs')
    ensures Footprint(copies, spare, q.out) && WriteOnce(spare, q.out) && Counted(copies, spare, q)
  {
    var c := p.available[|p.available| - 1];
    var front := p.available[..|p.available| - 1];
    var h := p.holder[c.source];
    assert c.destination in Destinations(copies);
    forall i, j | 0 <= i < j < |q.out| && q.out[i].destination != spare
      ensures q.out[i].destination != q.out[j].destination
    {
      if j == |p.out| {
        assert p.out[i].destination in Destinations(p.out);
      } else {
        assert q.out[i] == p.out[i] && q.out[j] == p.out[j];
      }
    }
    forall i | 0 <= i < |q.out|
      ensures q.out[i].destination in Destinations(copies)
              || (q.out[i].destination == spare && q.out[i].source in Destinations(copies))
    {
      if i < |p.out| {
        assert q.out[i] == p.out[i];
      }
    }
    if h in p.pending {
      assert |q.pending| == |p.pending| - 1;
    }
  }

  lemma MaterializedCycles(copies: seq<RegisterCopy>, spare: Register, p: Progress, q: Progress,
                           regs: map<Register, nat>, regs': map<Register, nat>, cycle: set<RegisterCopy>)
    requires MaterializeFacts(copies, spare, p, q, regs, regs')
    requires Covers(copies, p) && PendingOk(copies, p) && AvailableOk(copies, p) && ValuesHeld(copies, p, regs)
    requires CycleTracking(copies, spare, p, cycle)
    requires SpareWrites(q.out, spare) == SpareWrites(p.out, spare)
    ensures CycleTracking(copies, spare, q, cycle)
  {
    var c := p.available[|p.available| - 1];
    var h := p.holder[c.source];
    if h in p.pending {
      // The released register is the source of `c` itself, so it belongs to
      // no isolated cycle still waiting: `c` would belong to that cycle too.
      var released := p.pending[h];
      assert NotDone(p, released) && released.destination == h;
      assert h !in regs;
      assert h == c.source;
      assert c.destination !in p.pending;
      forall g: set<RegisterCopy> | IsolatedCycle(copies, g) && SpareWrites(q.out, spare) == 0
        ensures forall x: RegisterCopy :: x in g ==> x.destination in q.pending
      {
        ReleasedOutsideCycles(copies, p.pending, c, g);
      }
    }
  }

  /** A copy whose destination is not pending reads no destination of an
      isolated cycle that is still entirely pending. */
  lemma ReleasedOutsideCycles(copies: seq<RegisterCopy>, pending: map<Register, RegisterCopy>,
                              c: RegisterCopy, g: set<RegisterCopy>)
    requires IsolatedCycle(copies, g) && (forall x: RegisterCopy :: x in g ==> x.destination in pending)
    requires c in copies && c.destination !in pending
    ensures forall x: RegisterCopy :: x in g ==> x.destination != c.source
  {
    forall x: RegisterCopy | x in g ensures x.destination != c.source {
      assert x.destination == c.source ==> c in g;
    }
  }

  // ---------------------------------------------------------------------
  // Evicting into the spare preserves the invariant
  // ---------------------------------------------------------------------

  lemma {:induction false} PendingSourcesSize(pending: map<Register, RegisterCopy>)
    ensures |PendingSources(pending)| <= |pending|
    decreases |pending|
  {
    if pending != map[] {
      var k :| k in pending;
      var rest := pending - {k};
      PendingSourcesSize(rest);
      var sources, restSources := PendingSources(pending), PendingSources(rest);
      forall s | s in sources ensures s in restSources + {pending[k].source} {
        var j :| j in pending && pending[j].source == s;
        if j != k {
          assert j in rest && rest[j].source == s;
        }
      }
      assert sources <= restSources + {pending[k].source};
      if sources != restSources + {pending[k].source} {
        ProperSubsetSmaller(sources, restSources + {pending[k].source});
      }
    }
  }

  /** When every pending destination is read by a pending copy, the pending
      copies form a permutation: every pending source is a pending destination. */
  lemma PendingPermutation(pending: map<Register, RegisterCopy>)
    requires forall k :: k in pending ==> k in PendingSources(pending)
    ensures PendingSources(pending) == pending.Keys
  {
    PendingSourcesSize(pending);
    if PendingSources(pending) != pending.Keys {
      ProperSubsetSmaller(pending.Keys, PendingSources(pending));
    }
  }

  /** When nothing is available, no value still needed is in the spare. */
  lemma SpareFreeAtEviction(copies: seq<RegisterCopy>, spare: Register, p: Progress)
    requires Batch(copies, spare) && Covers(copies, p) && PendingOk(copies, p)
    requires PendingSelfHeld(p) && PendingBlocked(copies, p) && p.available == []
    ensures forall x :: x in copies && NotDone(p, x) ==> p.holder[x.source] != spare
  {
    forall k | k in p.pending ensures k in PendingSources(p.pending) {
      var y :| y in copies && NotDone(p, y) && y.source == k;
      assert p.pending[y.destination] == y;
    }
    PendingPermutation(p.pending);
    forall x | x in copies && NotDone(p, x) ensures p.holder[x.source] != spare {
      assert p.pending[x.destination] == x;
      assert x.source in PendingSources(p.pending);
    }
  }

  /** What one eviction does to the registers and to the copies not emitted yet. */
  ghost predicate EvictFacts(copies: seq<RegisterCopy>, spare: Register, p: Progress, q: Progress, d: Register,
                             regs: map<Register, nat>, regs': map<Register, nat>)
  {
    EvictStep(spare, p, q, d) && p.available == []
    && p.pending[d] in copies && p.pending[d].destination == d
    && regs' == regs[spare := d] && d !in regs
    && (forall x :: x in copies ==> (NotDone(q, x) <==> NotDone(p, x)))
  }

  lemma Evicted(copies: seq<RegisterCopy>, spare: Register, p: Progress, q: Progress, d: Register, cycle: set<RegisterCopy>)
    requires Inv(copies, spare, p, cycle) && p.available == [] && EvictStep(spare, p, q, d)
    ensures Inv(copies, spare, q, PendingCopies(p.pending))
    ensures 2 * |q.pending| + |q.available| < 2 * |p.pending| + |p.available|
  {
    var victim := p.pending[d];
    var e := RegisterCopy(d, spare);
    var regs, regs' := ExecuteSequential(p.out), ExecuteSequential(q.out);
    ExecuteSequentialAppend(p.out, e);
    ExecuteSequentialWrites(p.out);
    SpareWritesAppend(p.out, e, spare);
    EvictedNotDone(copies, spare, p, q, d);
    assert EvictFacts(copies, spare, p, q, d, regs, regs');
    SpareFreeAtEviction(copies, spare, p);
    EvictedShape(copies, spare, p, q, d, regs, regs');
    EvictedValues(copies, spare, p, q, d, regs, regs');
    EvictedPending(copies, spare, p, q, d, regs, regs');
    EvictedOut(copies, spare, p, q, d, regs, regs');
    EvictedCycles(copies, spare, p, q, d, regs, regs', cycle);
  }

  lemma EvictedNotDone(copies: seq<RegisterCopy>, spare: Register, p: Progress, q: Progress, d: Register)
    requires Batch(copies, spare) && PendingOk(copies, p) && EvictStep(spare, p, q, d)
    ensures forall x :: x in copies ==> (NotDone(q, x) <==> NotDone(p, x))
  {
    forall x | x in copies ensures NotDone(q, x) <==> NotDone(p, x) {
      if x.destination == d {
        assert Writer(copies, d) == p.pending[d];
      }
    }
  }

  lemma EvictedShape(copies: seq<RegisterCopy>, spare: Register, p: Progress, q: Progress, d: Register,
                     regs: map<Register, nat>, regs': map<Register, nat>)
    requires Covers(copies, p) && PendingOk(copies, p)
    requires EvictFacts(copies, spare, p, q, d, regs, regs')
    ensures Covers(copies, q) && PendingOk(copies, q) && AvailableOk(copies, q) && AvailableDistinct(q)
  {
  }

  lemma EvictedValues(copies: seq<RegisterCopy>, spare: Register, p: Progress, q: Progress, d: Register,
                      regs: map<Register, nat>, regs': map<Register, nat>)
    requires Batch(copies, spare) && Covers(copies, p) && Covers(copies, q)
    requires ValuesHeld(copies, p, regs)
    requires forall x :: x in copies && NotDone(p, x) ==> p.holder[x.source] != spare
    requires EvictFacts(copies, spare, p, q, d, regs, regs')
    ensures ValuesHeld(copies, q, regs') && AvailableFree(copies, q)
  {
    forall x, y | x in copies && NotDone(q, x) && y in q.available
      ensures q.holder[x.source] != y.destination
    {
      assert y == p.pending[d];
      if x.source != d {
        assert Read(regs, p.holder[x.source]) == x.source;
      }
    }
  }

  lemma EvictedPending(copies: seq<RegisterCopy>, spare: Register, p: Progress, q: Progress, d: Register,
                       regs: map<Register, nat>, regs': map<Register, nat>)
    requires Covers(copies, p) && PendingSelfHeld(p) && PendingBlocked(copies, p) && HoldersWritten(p, regs)
    requires DoneCorrect(copies, p, regs) && ReadersNotDone(copies, p) && Batch(copies, spare)
    requires EvictFacts(copies, spare, p, q, d, regs, regs')
    ensures PendingSelfHeld(q) && PendingBlocked(copies, q) && HoldersWritten(q, regs')
    ensures DoneCorrect(copies, q, regs') && ReadersNotDone(copies, q)
  {
    forall k | k in q.pending ensures k in NotDoneSources(copies, q) {
      var y :| y in copies && NotDone(p, y) && y.source == k;
      assert NotDone(q, y);
    }
  }

  lemma EvictedOut(copies: seq<RegisterCopy>, spare: Register, p: Progress, q: Progress, d: Register,
                   regs: map<Register, nat>, regs': map<Register, nat>)
    requires Footprint(copies, spare, p.out) && WriteOnce(spare, p.out) && Counted(copies, spare, p)
    requires SpareWrites(q.out, spare) == SpareWrites(p.out, spare) + 1
    requires EvictFacts(copies, spare, p, q, d, regs, regs')
    ensures Footprint(copies, spare, q.out) && WriteOnce(spare, q.out) && Counted(copies, spare, q)
  {
    assert d in Destinations(copies);
    forall i | 0 <= i < |q.out|
      ensures q.out[i].destination in Destinations(copies)
              || (q.out[i].destination == spare && q.out[i].source in Destinations(copies))
    {
      if i < |p.out| {
        assert q.out[i] == p.out[i];
      }
    }
    forall i, j | 0 <= i < j < |q.out| && q.out[i].destination != spare
      ensures q.out[i].destination != q.out[j].destination
    {
      if j < |p.out| {
        assert q.out[i] == p.out[i] && q.out[j] == p.out[j];
      }
    }
  }

  lemma EvictedCycles(copies: seq<RegisterCopy>, spare: Register, p: Progress, q: Progress, d: Register,
                      regs: map<Register, nat>, regs': map<Register, nat>, cycle: set<RegisterCopy>)
    requires EvictFacts(copies, spare, p, q, d, regs, regs')
    requires Batch(copies, spare) && PendingOk(copies, p) && PendingBlocked(copies, p) && ReadersNotDone(copies, p)
    requires SpareWrites(q.out, spare) == SpareWrites(p.out, spare) + 1
    ensures CycleTracking(copies, spare, q, PendingCopies(p.pending))
  {
    BlockedPendingIsIsolated(copies, spare, p);
  }

  /** With nothing available, the pending copies form an isolated cycle. */
  lemma BlockedPendingIsIsolated(copies: seq<RegisterCopy>, spare: Register, p: Progress)
    requires Batch(copies, spare) && PendingOk(copies, p) && PendingBlocked(copies, p) && ReadersNotDone(copies, p)
    requires p.available == [] && p.pending != map[]
    ensures IsolatedCycle(copies, PendingCopies(p.pending))
  {
    var g := PendingCopies(p.pending);
    var d :| d in p.pending;
    assert p.pending[d] in g;
    forall x | x in g ensures x in copies && x.destination in SetSources(g) {
      var k :| k in p.pending && p.pending[k] == x;
      var y :| y in copies && NotDone(p, y) && y.source == k;
      assert p.pending[y.destination] == y;
      assert y in g;
    }
    forall a, x | a in copies && x in g && a.source == x.destination ensures a in g {
      assert NotDone(p, a);
      assert p.pending[a.destination] == a;
    }
  }

  // ---------------------------------------------------------------------
  // When nothing is left
  // ---------------------------------------------------------------------

  lemma Finished(copies: seq<RegisterCopy>, spare: Register, p: Progress, cycle: set<RegisterCopy>)
    requires Inv(copies, spare, p, cycle) && p.pending == map[] && p.available == []
    requires ValidBatch(copies, spare)
    ensures ExecuteSequential(p.out) - {spare} == ExecuteParallel(copies)
    ensures |p.out| == |copies| + SpareWrites(p.out, spare)
    ensures SpareWrites(p.out, spare) > 0 <==> exists g: set<RegisterCopy> :: IsolatedCycle(copies, g)
  {
    FinishedRegisters(copies, spare, p, ExecuteSequential(p.out));
    if SpareWrites(p.out, spare) == 0 {
      forall g: set<RegisterCopy> ensures !IsolatedCycle(copies, g) {
        NoCycleLeft(copies, spare, p, cycle, g);
      }
    }
  }

  lemma FinishedRegisters(copies: seq<RegisterCopy>, spare: Register, p: Progress, regs: map<Register, nat>)
    requires p.pending == map[] && p.available == [] && regs == ExecuteSequential(p.out)
    requires ValidBatch(copies, spare) && Footprint(copies, spare, p.out) && DoneCorrect(copies, p, regs)
    ensures regs - {spare} == ExecuteParallel(copies)
  {
    var par := ExecuteParallel(copies);
    FinishedWritten(copies, spare, p.out, regs);
    FinishedValues(copies, spare, p, regs);
    SameRegisters(regs - {spare}, par);
  }

  /** Two register maps with the same keys and the same values are equal. */
  lemma SameRegisters(a: map<Register, nat>, b: map<Register, nat>)
    requires forall r :: r in a ==> r in b
    requires forall r :: r in b ==> r in a && a[r] == b[r]
    ensures a == b
  {
  }

  /** Apart from the spare, the output writes only batch destinations... */
  lemma FinishedWritten(copies: seq<RegisterCopy>, spare: Register, out: seq<RegisterCopy>, regs: map<Register, nat>)
    requires regs == ExecuteSequential(out) && Footprint(copies, spare, out)
    ensures forall r :: r in regs && r != spare ==> r in Destinations(copies)
  {
    ExecuteSequentialWrites(out);
    forall r | r in regs && r != spare ensures r in Destinations(copies) {
      var e :| e in out && e.destination == r;
      var i :| 0 <= i < |out| && out[i] == e;
    }
  }

  /** ...and, with nothing left to do, each of them holds its copy's source,
      never in the spare. */
  lemma FinishedValues(copies: seq<RegisterCopy>, spare: Register, p: Progress, regs: map<Register, nat>)
    requires p.pending == map[] && p.available == []
    requires ValidBatch(copies, spare) && DoneCorrect(copies, p, regs)
    ensures forall r :: r in ExecuteParallel(copies) ==>
      r != spare && r in regs && regs[r] == ExecuteParallel(copies)[r]
  {
    ExecuteParallelOfDistinct(copies);
    var par := ExecuteParallel(copies);
    forall r | r in par ensures r != spare && r in regs && regs[r] == par[r] {
      var x :| x in copies && x.destination == r;
      var i :| 0 <= i < |copies| && copies[i] == x;
      assert !UsesSpare(copies[i], spare) && !NotDone(p, x);
    }
  }

  lemma NoCycleLeft(copies: seq<RegisterCopy>, spare: Register, p: Progress, cycle: set<RegisterCopy>, g: set<RegisterCopy>)
    requires CycleTracking(copies, spare, p, cycle) && p.pending == map[] && SpareWrites(p.out, spare) == 0
    ensures !IsolatedCycle(copies, g)
  {
    if g != {} {
      var x :| x in g;
      assert x.destination !in p.pending;
    }
  }

  // ---------------------------------------------------------------------
  // Acyclic batches
  // ---------------------------------------------------------------------

  lemma {:induction false} LatestDestination(group: set<RegisterCopy>, rank: Register -> nat) returns (x: RegisterCopy)
    requires group != {}
    ensures x in group && forall y :: y in group ==> rank(y.destination) <= rank(x.destination)
    decreases group
  {
    var z :| z in group;
    if group == {z} {
      x := z;
    } else {
      var w := LatestDestination(group - {z}, rank);
      x := if rank(w.destination) < rank(z.destination) then z else w;
    }
  }

  /** A batch with no cycle never uses the spare: it holds no isolated cycle. */
  lemma AcyclicHasNoIsolatedCycle(copies: seq<RegisterCopy>, rank: Register -> nat, group: set<RegisterCopy>)
    requires RankedBy(copies, rank)
    ensures !IsolatedCycle(copies, group)
  {
    if group != {} && forall y :: y in group ==> y in copies {
      // The copy writing the highest-ranked register: nobody in the group reads it.
      var x := LatestDestination(group, rank);
      forall y | y in group ensures y.source != x.destination {
        assert rank(y.source) < rank(y.destination);
      }
      assert x.destination !in SetSources(group);
    }
  }
}
