// The graph of the repository's own depth-first test, with the numbering
// that test expects, and a node with two successors, each numbering derived
// from the general contract of `DfsSearch`.

module DepthFirstExamples {
  import opened DepthFirst

  /** The test graph 0 -> 1 -> 2 -> 3. Its edge list names node 2 twice,
      first with successor 1 and then with successor 3; as in the Rust test's
      map construction, the later entry replaces the earlier one. */
  function TestGraph(): (graph: CfgGraph)
    ensures IsTestGraph(graph)
  {
    CfgGraph(0, [0, 1, 2, 3], map[0 := [1], 1 := [2], 2 := [1], 2 := [3]])
  }

  /** The chain 0 -> 1 -> 2 -> 3 rooted at 0. */
  ghost predicate IsTestGraph(graph: CfgGraph) {
    graph.root == 0
    && Successors(graph, 0) == [1] && Successors(graph, 1) == [2]
    && Successors(graph, 2) == [3] && Successors(graph, 3) == []
  }

  /** Exactly the four nodes of the chain are reachable. */
  lemma TestGraphReachable(graph: CfgGraph, n: Node)
    requires IsTestGraph(graph)
    ensures Reachable(graph, n) <==> n in {0, 1, 2, 3}
  {
    RootReachable(graph);
    ReachableStep(graph, 0, 1);
    ReachableStep(graph, 1, 2);
    ReachableStep(graph, 2, 3);
    if Reachable(graph, n) {
      var closed: set<Node> := {0, 1, 2, 3};
      forall u, v | u in closed && v in Successors(graph, u) ensures v in closed {
      }
      ClosedHoldsReachable(graph, closed, n);
    }
  }

  /** The search numbers the chain in order on the way down and in reverse
      order on the way back, and records one tree edge per link. */
  method DfsSearchExample() returns (order: VisitOrder)
    ensures order.pre == map[0 := 0, 1 := 1, 2 := 2, 3 := 3]
    ensures order.post == map[0 := 3, 1 := 2, 2 := 1, 3 := 0]
    ensures order.spanningTree == map[0 := 1, 1 := 2, 2 := 3]
  {
    var graph := TestGraph();
    ghost var discovery;
    order, discovery := DfsSearch(graph);
    ChainKeys(graph, order);
    ChainDiscovered(graph, order, discovery);
    ChainNumbered(order);
    ChainTree(graph, order);
  }

  lemma ChainKeys(graph: CfgGraph, order: VisitOrder)
    requires IsTestGraph(graph)
    requires forall n :: n in order.pre <==> Reachable(graph, n)
    ensures order.pre.Keys == {0, 1, 2, 3}
  {
    forall n ensures n in order.pre <==> n in {0, 1, 2, 3} {
      TestGraphReachable(graph, n);
    }
  }

  /** Each node past the root was discovered from its only predecessor. */
  lemma ChainDiscovered(graph: CfgGraph, order: VisitOrder, discovery: map<Node, Node>)
    requires IsTestGraph(graph)
    requires order.pre.Keys == {0, 1, 2, 3} && order.post.Keys == order.pre.Keys
    requires discovery.Keys == order.pre.Keys - {graph.root}
    requires forall v {:trigger discovery[v]} :: v in discovery ==>
      var u := discovery[v];
      u in order.pre && v in Successors(graph, u)
      && order.pre[u] < order.pre[v] && order.post[v] < order.post[u]
    ensures order.pre[0] < order.pre[1] < order.pre[2] < order.pre[3]
    ensures order.post[3] < order.post[2] < order.post[1] < order.post[0]
  {
    assert 1 in discovery && 2 in discovery && 3 in discovery;
    assert discovery[1] in {0, 1, 2, 3} && discovery[2] in {0, 1, 2, 3} && discovery[3] in {0, 1, 2, 3};
    assert discovery[1] == 0 && discovery[2] == 1 && discovery[3] == 2;
  }

  /** Dense numbers along a strict chain are forced. */
  lemma ChainNumbered(order: VisitOrder)
    requires order.pre.Keys == {0, 1, 2, 3} && order.post.Keys == order.pre.Keys
    requires Dense(order.pre) && order.post[0] == |order.post| - 1
    requires order.pre[0] < order.pre[1] < order.pre[2] < order.pre[3]
    requires order.post[3] < order.post[2] < order.post[1] < order.post[0]
    ensures order.pre == map[0 := 0, 1 := 1, 2 := 2, 3 := 3]
    ensures order.post == map[0 := 3, 1 := 2, 2 := 1, 3 := 0]
  {
    assert |order.pre| == |order.pre.Keys| == 4;
    assert |order.post| == |order.post.Keys| == 4;
    assert order.pre[3] in Used(order.pre);
    assert order.pre[3] < 4;
    MapOfChain(order.pre, map[0 := 0, 1 := 1, 2 := 2, 3 := 3]);
    MapOfChain(order.post, map[0 := 3, 1 := 2, 2 := 1, 3 := 0]);
  }

  lemma MapOfChain(m: map<Node, nat>, expected: map<Node, nat>)
    requires m.Keys == {0, 1, 2, 3} && expected.Keys == m.Keys
    requires forall k :: k in expected ==> m[k] == expected[k]
    ensures m == expected
  {
  }

  /** Nodes 0, 1 and 2 each discovered a later node, so each kept a tree
      edge, along its only successor; node 3 has no successor to point to. */
  lemma ChainTree(graph: CfgGraph, order: VisitOrder)
    requires IsTestGraph(graph)
    requires order.pre == map[0 := 0, 1 := 1, 2 := 2, 3 := 3]
    requires order.post.Keys == order.pre.Keys && order.spanningTree.Keys <= order.pre.Keys
    requires forall u {:trigger u in order.spanningTree} :: u in order.spanningTree ==>
      var v := order.spanningTree[u];
      v in Successors(graph, u) && v != graph.root && v in order.pre
      && order.pre[u] < order.pre[v] && order.post[v] + 1 == order.post[u]
    requires forall u, v {:trigger v in Successors(graph, u)} ::
      u in order.pre && u !in order.spanningTree && v in Successors(graph, u) ==>
      v in order.pre && order.pre[v] <= order.pre[u]
    ensures order.spanningTree == map[0 := 1, 1 := 2, 2 := 3]
  {
    var tree := order.spanningTree;
    assert 1 in Successors(graph, 0) && 2 in Successors(graph, 1) && 3 in Successors(graph, 2);
    assert 0 in tree && 1 in tree && 2 in tree;
    assert tree[0] in Successors(graph, 0) && tree[1] in Successors(graph, 1) && tree[2] in Successors(graph, 2);
    assert 3 !in tree;
    assert tree.Keys == {0, 1, 2};
    MapOfTree(tree, map[0 := 1, 1 := 2, 2 := 3]);
  }

  lemma MapOfTree(m: map<Node, Node>, expected: map<Node, Node>)
    requires m.Keys == {0, 1, 2} && expected.Keys == m.Keys
    requires forall k :: k in expected ==> m[k] == expected[k]
    ensures m == expected
  {
  }

  /** A root with two successors, listed as 1 then 2. */
  function BranchGraph(): (graph: CfgGraph)
    ensures IsBranchGraph(graph)
  {
    CfgGraph(0, [0, 1, 2], map[0 := [1, 2]])
  }

  ghost predicate IsBranchGraph(graph: CfgGraph) {
    graph.root == 0
    && Successors(graph, 0) == [1, 2] && Successors(graph, 1) == [] && Successors(graph, 2) == []
  }

  /** Exactly the root and its two successors are reachable. */
  lemma BranchGraphReachable(graph: CfgGraph, n: Node)
    requires IsBranchGraph(graph)
    ensures Reachable(graph, n) <==> n in {0, 1, 2}
  {
    RootReachable(graph);
    ReachableStep(graph, 0, 1);
    ReachableStep(graph, 0, 2);
    if Reachable(graph, n) {
      var closed: set<Node> := {0, 1, 2};
      forall u, v | u in closed && v in Successors(graph, u) ensures v in closed {
      }
      ClosedHoldsReachable(graph, closed, n);
    }
  }

  /** The search takes the successors in list order: node 1 is discovered
      and finished before node 2, and the root's one tree edge leads to its
      last child, node 2. */
  method BranchSearchExample() returns (order: VisitOrder)
    ensures order.pre == map[0 := 0, 1 := 1, 2 := 2]
    ensures order.post == map[0 := 2, 1 := 0, 2 := 1]
    ensures order.spanningTree == map[0 := 2]
  {
    var graph := BranchGraph();
    ghost var discovery;
    order, discovery := DfsSearch(graph);
    BranchKeys(graph, order);
    BranchDiscovered(graph, order, discovery);
    BranchListed(graph, order.pre);
    BranchBetween(order.pre, order.post);
    BranchNumbered(order);
    BranchTree(graph, order);
  }

  lemma BranchKeys(graph: CfgGraph, order: VisitOrder)
    requires IsBranchGraph(graph)
    requires forall n :: n in order.pre <==> Reachable(graph, n)
    ensures order.pre.Keys == {0, 1, 2}
  {
    forall n ensures n in order.pre <==> n in {0, 1, 2} {
      BranchGraphReachable(graph, n);
    }
  }

  /** Both leaves were discovered from the root, their only predecessor. */
  lemma BranchDiscovered(graph: CfgGraph, order: VisitOrder, discovery: map<Node, Node>)
    requires IsBranchGraph(graph)
    requires order.pre.Keys == {0, 1, 2} && order.post.Keys == order.pre.Keys
    requires discovery.Keys == order.pre.Keys - {graph.root}
    requires forall v {:trigger discovery[v]} :: v in discovery ==>
      var u := discovery[v];
      u in order.pre && v in Successors(graph, u)
      && order.pre[u] < order.pre[v] && order.post[v] < order.post[u]
    ensures 1 in discovery && 2 in discovery && discovery[1] == 0 && discovery[2] == 0
    ensures order.pre[0] < order.pre[1] && order.post[2] < order.post[0]
  {
    assert 1 in discovery && 2 in discovery;
    assert discovery[1] in {0, 1, 2} && discovery[2] in {0, 1, 2};
  }

  /** Node 1 is listed before node 2, so it is numbered first... */
  lemma BranchListed(graph: CfgGraph, pre: map<Node, nat>)
    requires IsBranchGraph(graph) && ListedFirst(graph, pre, 0, 2)
    ensures 1 in pre && pre[1] < pre[2]
  {
    var successors := Successors(graph, 0);
    assert successors[..0 + 1] == [1] && successors[0] == 1;
  }

  /** ...and, numbered between the root and node 2, it finishes first. */
  lemma BranchBetween(pre: map<Node, nat>, post: map<Node, nat>)
    requires FinishedBetween(pre, post, 0, 2) && 1 in pre && pre[0] < pre[1] < pre[2]
    requires 2 in post
    ensures 1 in post && post[1] < post[2]
  {
  }

  /** Dense numbers along a strict order of three nodes are forced. */
  lemma BranchNumbered(order: VisitOrder)
    requires order.pre.Keys == {0, 1, 2} && order.post.Keys == order.pre.Keys
    requires Dense(order.pre) && order.post[0] == |order.post| - 1
    requires order.pre[0] < order.pre[1] < order.pre[2]
    requires order.post[1] < order.post[2] < order.post[0]
    ensures order.pre == map[0 := 0, 1 := 1, 2 := 2]
    ensures order.post == map[0 := 2, 1 := 0, 2 := 1]
  {
    assert |order.pre| == |order.pre.Keys| == 3;
    assert |order.post| == |order.post.Keys| == 3;
    assert order.pre[2] in Used(order.pre);
    assert order.pre[2] < 3;
    MapOfBranch(order.pre, map[0 := 0, 1 := 1, 2 := 2]);
    MapOfBranch(order.post, map[0 := 2, 1 := 0, 2 := 1]);
  }

  lemma MapOfBranch(m: map<Node, nat>, expected: map<Node, nat>)
    requires m.Keys == {0, 1, 2} && expected.Keys == m.Keys
    requires forall k :: k in expected ==> m[k] == expected[k]
    ensures m == expected
  {
  }

  /** The root discovered both leaves, so it kept a tree edge, to the child
      finished just before it; the leaves have no successor to point to. */
  lemma BranchTree(graph: CfgGraph, order: VisitOrder)
    requires IsBranchGraph(graph)
    requires order.pre == map[0 := 0, 1 := 1, 2 := 2]
    requires order.post == map[0 := 2, 1 := 0, 2 := 1]
    requires order.spanningTree.Keys <= order.pre.Keys
    requires forall u {:trigger u in order.spanningTree} :: u in order.spanningTree ==>
      var v := order.spanningTree[u];
      v in Successors(graph, u) && v != graph.root && v in order.pre
      && order.pre[u] < order.pre[v] && order.post[v] + 1 == order.post[u]
    requires forall u, v {:trigger v in Successors(graph, u)} ::
      u in order.pre && u !in order.spanningTree && v in Successors(graph, u) ==>
      v in order.pre && order.pre[v] <= order.pre[u]
    ensures order.spanningTree == map[0 := 2]
  {
    var tree := order.spanningTree;
    assert 1 in Successors(graph, 0);
    assert 0 in tree;
    assert tree[0] in Successors(graph, 0);
    assert tree[0] == 2;
    assert 1 !in tree && 2 !in tree;
    assert tree.Keys == {0};
  }
}
