# Parallel-copy sequentialization and depth-first numbering, in Dafny

This project models two in-memory algorithms of a compiler back end and
proves their contracts.

**The parallel-copy sequentializer** (`sequentialize_register`,
`src/algorithm13.rs`) takes a batch of register copies. The batch means
"read every source, then write every destination". The sequentializer turns
it into an ordered list of two-operand copies with the same effect when run
one at a time. One caller-supplied spare register breaks cycles.

- The sequentializer keeps four pieces of state:
  - a map from each source to the register that currently holds its original value;
  - the pending copies, keyed by destination;
  - a stack of copies that may be emitted now;
  - the output.
- The two reference semantics come from the repository's tests. They are the
  spec functions `Registers.ExecuteSequential` and `Registers.ExecuteParallel`.
- Headline theorem: run the output one copy at a time and ignore the spare.
  The result is what the batch does in parallel.
- Around the theorem, the contracts prove:
  - the write footprint;
  - each destination is written exactly once;
  - the exact output length (one copy per input, plus one per eviction);
  - the spare is used exactly when the batch holds an *isolated cycle*: a group
    of copies that only feed each other;
  - both rejections;
  - the "no holder" panic is unreachable.

**The depth-first numbering** (`dfs_search`, `src/algorithm2.rs`) walks a
control-flow graph recursively from its root. It stamps each node with a
pre-order and a post-order number and records spanning-tree edges. The Rust
code threads a visited set, three maps and two counters through mutable
references. The model threads the same state as a `Visit` record, passed into
each recursive call and returned from it.

The proved properties are:

- exactly the reachable nodes are numbered;
- both numberings are dense (k nodes get 0 .. k-1);
- the root is first in pre-order and last in post-order;
- tree edges nest properly;
- a node without a tree edge discovered nothing;
- every edge goes back to a node numbered no later, or forward to one that
  finished before its source, so no node finishes before all its
  successors have been entered;
- every node but the root was discovered along an edge from a node that
  encloses it;
- successors are explored in list order: a node is discovered only after every
  successor its discoverer lists before it, and every node numbered between
  the two has finished;
- the repository's own example graph yields exactly the numbering its test
  expects.

Files:

- `cardinality.dfy`: sizes of finite sets, shared by both algorithms.
- `registers.dfy`: registers, copies, and the sequential and parallel executors.
- `sequentialize.dfy`: the sequentializer, its loop invariant and the step lemmas.
- `sequentialize_examples.dfy`: the repository's test batches.
- `dfs.dfy`: the traversal, its invariant and `DfsSearch`.
- `dfs_examples.dfy`: the repository's test graph, and a node with two successors.

## Model

| member | source | states |
|---|---|---|
| Registers.Read | src/algorithm13.rs:91 | (definition, no contract) a register reads its written value, or its own id if it was never written |
| Registers.ExecuteSequential | src/algorithm13.rs:88-95 | (definition, no contract) runs the copies one at a time, each reading its source's current value |
| Registers.ExecuteSequentialWrites | src/algorithm13.rs:88-95 | sequential execution writes exactly the destinations of the copies run |
| Registers.ExecuteParallel | src/algorithm13.rs:97-103 | writes each copy's source id to its destination, a later copy overriding an earlier one; exactly the batch's destinations are written |
| Registers.ValidBatch | src/algorithm13.rs:24-32 | (definition, no contract) no copy reads or writes the spare and no destination repeats: the two conditions under which the Rust code panics |
| Registers.SpareWritesZero | src/algorithm13.rs:88-95 | the spare has no entry in the sequential result iff no copy writes it |
| Registers.ExecuteParallelOfDistinct | src/algorithm13.rs:97-103 | with distinct destinations, parallel execution sends each copy's source id to its destination, since no later copy overrides it |
| Sequentialize.SequentializeRegister | src/algorithm13.rs:12-77 | Ok iff the batch is valid; otherwise the first offending copy (spare used, or duplicate destination) is named. On Ok:<br>• sequential(output) minus the spare equals parallel(input)<br>• every emitted copy writes a batch destination, or saves a batch destination into the spare<br>• each destination is written once<br>• length = input length + spare writes<br>• the spare is written iff an isolated cycle exists |
| Sequentialize.CollectPending | src/algorithm13.rs:23-34 | Rejects a copy touching the spare or repeating a destination, for the first such copy. On success, pending is keyed by exactly the destinations with one copy each, and every source holds itself. |
| Sequentialize.FaultInvalidates | src/algorithm13.rs:24-32 | a copy that uses the spare, or repeats an earlier destination, makes the batch invalid |
| Sequentialize.Collected | src/algorithm13.rs:27-33 | inserting a fault-free copy keeps the first-pass invariant for one more copy |
| Sequentialize.PrefixGrows | src/algorithm13.rs:23-34 | a fault-free copy extends a valid prefix, adding its destination and its source |
| Sequentialize.Complete | src/algorithm13.rs:23-34 | after the whole first pass the batch is valid, holders are the identity on sources, pending covers each destination once |
| Sequentialize.SeedAvailable | src/algorithm13.rs:35-41 | given holders keyed by exactly the batch's sources: a copy moves to the stack iff its destination is not among the sources, each destination at most once; a copy stays pending iff its destination is a source; pending + stack = the pending copies before |
| Sequentialize.Seeded | src/algorithm13.rs:37-40 | moving an unread destination's copy to the stack keeps the second-pass invariant |
| Sequentialize.Initially | src/algorithm13.rs:33-41 | the state after both passes satisfies the main loop invariant |
| Sequentialize.Emit | src/algorithm13.rs:42-75 | the main loop ends with the headline theorem, the footprint, write-once, the length count and the spare iff an isolated cycle |
| Sequentialize.DrainAvailable | src/algorithm13.rs:43-61 | the inner loop empties the stack and keeps the invariant; pending only loses entries (what remains is unchanged), output is only appended to, and 2·pending ≤ 2·pending before + stack before |
| Sequentialize.MaterializeTop | src/algorithm13.rs:43-60 | One pop does the following: emits (holder of source → destination); if that holder is a pending destination, unblocks its copy and repoints the holder; if the holder is the spare, repoints it. The invariant holds and the measure 2·pending + stack drops. The "no holder" branch is unreachable. |
| Sequentialize.Materialized | src/algorithm13.rs:44-57 | one materialization step preserves the invariant and strictly decreases 2·pending + stack |
| Sequentialize.EvictSmallest | src/algorithm13.rs:62-70 | Evicts the smallest pending destination. It emits (destination → spare), makes the spare its holder, moves its copy to the stack and removes exactly that pending entry. The invariant holds and the measure drops. |
| Sequentialize.SmallestKey | src/algorithm13.rs:62 | a non-empty key set has a least element (the first entry of the ordered map) |
| Sequentialize.Evicted | src/algorithm13.rs:62-70 | one eviction step preserves the invariant and strictly decreases 2·pending + stack |
| Sequentialize.SpareFreeAtEviction | src/algorithm13.rs:62-67 | when the stack is empty no unfinished copy's value sits in the spare, so overwriting it loses nothing |
| Sequentialize.BlockedPendingIsIsolated | src/algorithm13.rs:62-70 | when the stack is empty and copies are pending, the pending copies form an isolated cycle |
| Sequentialize.PendingPermutation | src/algorithm13.rs:62-70 | if every pending destination is read by a pending copy, pending sources and destinations coincide |
| Sequentialize.Finished | src/algorithm13.rs:42-77 | at loop exit: sequential(output) minus spare = parallel(input), the length count, and spare used iff an isolated cycle exists |
| Sequentialize.FinishedRegisters | src/algorithm13.rs:42-77 | with nothing pending, every destination holds its copy's source and nothing else but the spare is written |
| Sequentialize.FinishedWritten | src/algorithm13.rs:42-77 | apart from the spare, the output writes only batch destinations |
| Sequentialize.FinishedValues | src/algorithm13.rs:42-77 | with nothing pending or available, every batch destination holds its copy's source and is not the spare |
| Sequentialize.NoCycleLeft | src/algorithm13.rs:42-75 | a run that never wrote the spare implies the batch has no isolated cycle |
| Sequentialize.AcyclicHasNoIsolatedCycle | src/algorithm13.rs:176-200 | a batch whose copies all go up in some ranking of registers has no isolated cycle, so it never uses the spare |
| SequentializeExamples.ExecuteSequentialOverwrites | src/algorithm13.rs:105-139 | the first executor test's expected map |
| SequentializeExamples.OverwritesPrefix | src/algorithm13.rs:105-139 | after the first three copies of the first executor test, register 2 holds 3 and register 4 holds 3 |
| SequentializeExamples.ExecuteSequentialChained | src/algorithm13.rs:141-173 | the second executor test's expected map |
| SequentializeExamples.ChainedPrefix | src/algorithm13.rs:141-173 | after the first two copies of the second executor test, register 4 holds 1 and register 1 holds 3 |
| SequentializeExamples.ParallelOfThree | src/algorithm13.rs:97-103 | parallel execution of three copies with distinct destinations, entry by entry |
| SequentializeExamples.ExactWithoutCycle | src/algorithm13.rs:194-200 | without an isolated cycle the sequential result equals the parallel one, with no spare key |
| SequentializeExamples.SpareWithCycle | src/algorithm13.rs:223-224 | with an isolated cycle the spare has an entry in the sequential result |
| SequentializeExamples.ChainScenario | src/algorithm13.rs:176-201 | the chain 1→2, 2→3, 3→4 gives exactly {2:1, 3:2, 4:3} |
| SequentializeExamples.CycleScenario | src/algorithm13.rs:204-231 | the rotation writes the spare, and apart from it gives {2:1, 3:2, 1:3} |
| SequentializeExamples.FanInScenario | src/algorithm13.rs:234-258 | the fan-in batch gives exactly {2:1, 3:1, 1:2} |
| SequentializeExamples.ChainIsAcyclic | src/algorithm13.rs:177-190 | the chain batch has no isolated cycle |
| SequentializeExamples.RotationIsIsolated | src/algorithm13.rs:205-218 | the rotation batch is itself an isolated cycle |
| SequentializeExamples.FanInHasNoIsolatedCycle | src/algorithm13.rs:235-248 | the fan-in batch has no isolated cycle, since 1→3 reads a cycle register and is read by nobody |
| DepthFirst.Successors | src/algorithm2.rs:45 | (definition, no contract) a node's successor list, empty when the edge map has no entry for it |
| DepthFirst.Enter | src/algorithm2.rs:39-43 | (definition, no contract) marks the node visited and stamps it with the pre counter, then increments the counter |
| DepthFirst.Descend | src/algorithm2.rs:50 | (definition, no contract) records the tree edge to the successor about to be explored, replacing the node's earlier one |
| DepthFirst.Leave | src/algorithm2.rs:64-65 | (definition, no contract) stamps the node with the post counter, then increments the counter |
| DepthFirst.Dfs | src/algorithm2.rs:29-66 | Keeps the traversal invariant and only extends the state. A revisit returns the state unchanged. A first visit stamps the node with the next pre number and, after everything it discovered, the last post number. |
| DepthFirst.Open | src/algorithm2.rs:42-65 | a first visit keeps the invariant, stamps pre on entry and post last, and finishes every node it discovered |
| DepthFirst.ExploreAll | src/algorithm2.rs:45-62 | after the successor loop every successor is visited and every node discovered since entry is finished |
| DepthFirst.Explore | src/algorithm2.rs:46-61 | one turn either skips a visited successor or records the tree edge, descends, and keeps the loop invariant |
| DepthFirst.Unchanged | src/algorithm2.rs:39-41 | returning the state unchanged is a valid extension |
| DepthFirst.Entered | src/algorithm2.rs:39-43 | marking a node visited and stamping its pre number establishes the successor-loop invariant |
| DepthFirst.Descending | src/algorithm2.rs:50 | recording the tree edge to an unvisited successor keeps the invariant and shrinks the set of unvisited nodes, so the recursion terminates |
| DepthFirst.Skipped | src/algorithm2.rs:47-48 | skipping an already visited successor keeps the loop invariant |
| DepthFirst.Returned | src/algorithm2.rs:51-60 | once the recursive call returns, the loop invariant holds for the next successor, with the node's tree edge leading to the child just finished |
| DepthFirst.Finished | src/algorithm2.rs:64-65 | stamping the post number gives the node the last post number and keeps the invariant |
| DepthFirst.NumberingAdd | src/algorithm2.rs:42-43 | stamping a new node with the counter and incrementing it keeps the numbering injective and below the counter |
| DepthFirst.DfsSearch | src/algorithm2.rs:21-84 | Exactly the reachable nodes are numbered, in both orders. Both numberings are dense. The root gets pre 0 and post k-1. Every tree edge u→v follows an edge, never leads to the root, and has pre[u] < pre[v] and post[v] + 1 = post[u]. Nodes without a tree edge have only earlier-numbered successors. Every edge u→v goes back to a node numbered no later than u, or forward to one finished before u: all of u's successors are entered before u finishes. Every other node was discovered from an enclosing node, after every successor its discoverer lists before it, and every node numbered between the two finished before it. |
| DepthFirst.EnteredOrder | src/algorithm2.rs:39-51 | entering a node reached by a turn of its discoverer's loop keeps the list-order invariant: the discoverer had numbered every earlier-listed successor and finished everything numbered since |
| DepthFirst.EnteredListed | src/algorithm2.rs:45-49 | the newly numbered node comes after every successor its discoverer lists before it |
| DepthFirst.EnteredBetween | src/algorithm2.rs:45-51 | every node numbered between the discoverer and the new node has finished |
| DepthFirst.DescendingTurn | src/algorithm2.rs:46-51 | descending to an unvisited successor is a turn of the loop: earlier-listed successors are numbered and everything discovered since entry is finished |
| DepthFirst.FinishedOrder | src/algorithm2.rs:64-65 | stamping a post number keeps the list-order invariant |
| DepthFirst.SearchOrder | src/algorithm2.rs:45-62 | at the end, every node's discoverer had numbered its earlier-listed successors first, and every node numbered between them finished first |
| DepthFirst.Initial | src/algorithm2.rs:22-27 | the fresh state satisfies the invariant |
| DepthFirst.AllFinished | src/algorithm2.rs:68-77 | a search from the fresh state finishes every node it visits |
| DepthFirst.SearchReachable | src/algorithm2.rs:45-62 | the numbered nodes are exactly the reachable ones |
| DepthFirst.SearchTree | src/algorithm2.rs:47-50 | tree edges follow graph edges, avoid the root and nest |
| DepthFirst.SearchLeaves | src/algorithm2.rs:45-62 | a numbered node without a tree edge has only previously numbered successors |
| DepthFirst.SearchEdges | src/algorithm2.rs:45-65 | every edge from a numbered node leads to a numbered node that is numbered no later or finished earlier: the loop enters every successor before the post stamp |
| DepthFirst.FinishedClosedUp | src/algorithm2.rs:45-65 | leaving a node whose successors are all visited keeps the closure invariant: a successor numbered after the node was visited since its entry and so finished before it |
| DepthFirst.SearchDiscovery | src/algorithm2.rs:46-60 | every non-root node has a discovering edge from an enclosing node |
| DepthFirst.DenseNumbering | src/algorithm2.rs:26-27 | a counter-driven numbering uses exactly 0 .. k-1 |
| DepthFirst.ReachableStep | src/algorithm2.rs:45-51 | a successor of a reachable node is reachable |
| DepthFirst.ClosedHoldsReachable | src/algorithm2.rs:45-62 | a node set with the root and closed under successors holds every reachable node |
| DepthFirst.DiscoveredReachable | src/algorithm2.rs:46-51 | every node visited through discovering edges is reachable |
| DepthFirstExamples.TestGraph | src/algorithm2.rs:96-100 | the test graph is the chain 0→1→2→3, the later entry for node 2 replacing the earlier |
| DepthFirstExamples.TestGraphReachable | src/algorithm2.rs:96-100 | exactly nodes 0..3 are reachable in the test graph |
| DepthFirstExamples.DfsSearchExample | src/algorithm2.rs:91-108 | the search of the test graph yields pre {0:0,1:1,2:2,3:3}, post {0:3,1:2,2:1,3:0}, tree {0:1,1:2,2:3} |
| DepthFirstExamples.ChainDiscovered | src/algorithm2.rs:101-103 | on the chain, pre increases and post decreases along the links |
| DepthFirstExamples.ChainNumbered | src/algorithm2.rs:102-103 | dense numbers along a strict chain are forced to the expected maps |
| DepthFirstExamples.ChainTree | src/algorithm2.rs:104-107 | the chain's tree edges are exactly 0→1, 1→2, 2→3 |
| DepthFirstExamples.BranchSearchExample | src/algorithm2.rs:45-65 | a root with successors [1, 2] gets pre {0:0,1:1,2:2}, post {0:2,1:0,2:1} and tree {0:2}: successors are taken in list order |
| DepthFirstExamples.BranchGraphReachable | src/algorithm2.rs:45-51 | exactly nodes 0..2 are reachable in the branching graph |
| DepthFirstExamples.BranchDiscovered | src/algorithm2.rs:46-51 | both leaves were discovered from the root, after it, and finished before it |
| DepthFirstExamples.BranchListed | src/algorithm2.rs:46 | node 1, listed first, is numbered before node 2 |
| DepthFirstExamples.BranchBetween | src/algorithm2.rs:46-65 | node 1, numbered between the root and node 2, finishes before node 2 |
| DepthFirstExamples.BranchNumbered | src/algorithm2.rs:42-43 | dense numbers along the forced order are exactly the expected maps |
| DepthFirstExamples.BranchTree | src/algorithm2.rs:50 | the root's tree edge leads to its last child, node 2; the leaves have none |
| Cardinality.ProperSubsetSmaller | src/algorithm13.rs:62-67 | a proper subset of a finite set is strictly smaller; it is the counting step behind PendingPermutation (when the stack is empty, pending sources and destinations coincide, so evicting into the spare loses nothing) and behind DenseNumbering for the counters of src/algorithm2.rs |

## Left out

- The randomized test (`src/algorithm13.rs:260-287`) shuffles 1000 random batches. It is replaced by the headline theorem of `Sequentialize.SequentializeRegister`, which holds for every valid batch.
- Panics are modelled as `Err` results, and the "no holder" panic as a branch proved unreachable. Panic message text, `println!` output and the derived `Debug`/`Hash`/`Ord` traits are not modelled.
- Hash maps and sets are Dafny `map` and `set`; hashing and iteration order play no role in either algorithm. Taking the first entry of the ordered pending map is modelled as choosing its least key.
- Rust references and aliasing are not modelled. The pending map stores references to copies, the holder is updated through `get_mut`, and the traversal state is `&mut`. All of this state is passed by value and returned.
- Register ids (`u32`), node ids (`usize`) and the two counters are unbounded naturals. Counters never exceed the node count, so no overflow is modelled.
- Call-stack depth of the recursive traversal is not modelled.
- The `nodes` field of `CfgGraph` is carried but, as in the Rust implementation, never read.
- DepthFirst.DfsSearch: pre and post are two separate counters, and the contract compares them only along graph and discovery edges; it does not state the full interval structure, namely that a node's pre/post interval encloses exactly its tree descendants.
- DepthFirst.DfsSearch: its ghost `discovery` result is a proof device that names the discovering edge of each node. The Rust implementation returns only the three maps.
- Sequentialize.SequentializeRegister: it does not state that the output is independent of input order. It is not: the stack is seeded in slice order, so the emitted order depends on it, and only the final registers do not.
