// Depth-first numbering of a control-flow graph: pre-order and post-order
// stamps and the spanning-tree edges recorded during a recursive traversal
// from the root.

module DepthFirst {
  import opened Cardinality

  /** A node of the graph. The Rust implementation wraps a `usize` id that is only hashed
      and compared. */
  type Node = nat

  /** `nodes` is carried but never read by the traversal. */
  datatype CfgGraph = CfgGraph(root: Node, nodes: seq<Node>, edges: map<Node, seq<Node>>)

  datatype VisitOrder = VisitOrder(pre: map<Node, nat>, post: map<Node, nat>, spanningTree: map<Node, Node>)

  /** The state the traversal threads through its recursion by mutable
      reference: the visited set, the three maps and the two counters. */
  datatype Visit = Visit(visited: set<Node>, pre: map<Node, nat>, post: map<Node, nat>,
                         spanningTree: map<Node, Node>, preTime: nat, postTime: nat)

  /** The successor list of `node`; a node without an entry has none. */
  function Successors(graph: CfgGraph, node: Node): seq<Node> {
    if node in graph.edges then graph.edges[node] else []
  }

  /** Every node the traversal can ever reach: the root and every successor. */
  ghost function Universe(graph: CfgGraph): set<Node> {
    {graph.root} + set u, v | u in graph.edges && v in graph.edges[u] :: v
  }

  // ---------------------------------------------------------------------
  // Reachability
  // ---------------------------------------------------------------------

  ghost predicate IsPath(graph: CfgGraph, path: seq<Node>) {
    |path| > 0 && path[0] == graph.root
    && forall i, j :: 0 <= i && j == i + 1 && j < |path| ==> path[j] in Successors(graph, path[i])
  }

  /** `n` can be reached from the root along the edges. */
  ghost predicate Reachable(graph: CfgGraph, n: Node) {
    exists path :: IsPath(graph, path) && path[|path| - 1] == n
  }

  lemma RootReachable(graph: CfgGraph)
    ensures Reachable(graph, graph.root)
  {
    assert IsPath(graph, [graph.root]);
  }

  lemma ReachableStep(graph: CfgGraph, u: Node, v: Node)
    requires Reachable(graph, u) && v in Successors(graph, u)
    ensures Reachable(graph, v)
  {
    var path :| IsPath(graph, path) && path[|path| - 1] == u;
    var longer := path + [v];
    assert forall i :: 0 <= i < |path| ==> longer[i] == path[i];
    assert IsPath(graph, longer);
  }

  /** Following the discovering edges back from a visited node reaches the
      root, whose pre number is the least. */
  lemma {:induction false} DiscoveredReachable(graph: CfgGraph, s: Visit, parent: map<Node, Node>, v: Node)
    requires Discovered(graph, s, parent) && graph.root in s.pre && v in s.pre
    ensures Reachable(graph, v)
    decreases s.pre[v]
  {
    if v == graph.root {
      RootReachable(graph);
    } else {
      var u := parent[v];
      DiscoveredReachable(graph, s, parent, u);
      ReachableStep(graph, u, v);
    }
  }

  /** A set holding the root and closed under successors holds every
      reachable node. */
  lemma ClosedHoldsReachable(graph: CfgGraph, closed: set<Node>, n: Node)
    requires graph.root in closed
    requires forall u, v :: u in closed && v in Successors(graph, u) ==> v in closed
    requires Reachable(graph, n)
    ensures n in closed
  {
    var path :| IsPath(graph, path) && path[|path| - 1] == n;
    PathInside(graph, closed, path, |path| - 1);
  }

  lemma {:induction false} PathInside(graph: CfgGraph, closed: set<Node>, path: seq<Node>, i: nat)
    requires graph.root in closed
    requires forall u, v :: u in closed && v in Successors(graph, u) ==> v in closed
    requires IsPath(graph, path) && i < |path|
    ensures path[i] in closed
  {
    if i > 0 {
      PathInside(graph, closed, path, i - 1);
      assert path[i] in Successors(graph, path[i - 1]);
    }
  }

  // ---------------------------------------------------------------------
  // The invariant of the traversal
  // ---------------------------------------------------------------------

  /** `stamp` numbers `time` nodes with numbers below `time`, no two alike:
      it uses as many numbers as it has keys. */
  ghost predicate Numbering(stamp: map<Node, nat>, time: nat) {
    |stamp| == time && |Used(stamp)| == time
    && forall n :: n in stamp ==> stamp[n] < time
  }

  /** The numbers `stamp` hands out. */
  ghost function Used(stamp: map<Node, nat>): set<nat> {
    set n | n in stamp :: stamp[n]
  }

  /** A recorded tree edge leaves along a graph edge; once its parent is
      finished, it leads to the parent's last child: discovered after the
      parent and finished just before it. */
  ghost predicate TreeEdges(graph: CfgGraph, s: Visit) {
    forall u {:trigger u in s.spanningTree} :: u in s.spanningTree ==>
      s.spanningTree[u] in Successors(graph, u)
      && (u in s.post ==>
            var v := s.spanningTree[u];
            u in s.pre && v in s.pre && s.pre[u] < s.pre[v] && v in s.post && s.post[v] + 1 == s.post[u])
  }

  /** A finished node has all its successors visited: each was visited
      before it, or after it and finished before it. If it has no tree edge,
      all of them were visited before it. */
  ghost predicate FinishedClosed(graph: CfgGraph, s: Visit) {
    forall u {:trigger u in s.post} :: u in s.post ==>
      u in s.pre
      && forall v {:trigger v in Successors(graph, u)} :: v in Successors(graph, u) ==>
           v in s.pre && (u !in s.spanningTree ==> s.pre[v] <= s.pre[u])
           && Nested(s.pre, s.post, u, v)
  }

  /** The edge `u` -> `v` of a finished `u` goes back to a node numbered no
      later, or forward to one finished before `u`. */
  ghost predicate Nested(pre: map<Node, nat>, post: map<Node, nat>, u: Node, v: Node) {
    u in pre && v in pre && u in post
    && (pre[v] <= pre[u] || (v in post && post[v] < post[u]))
  }

  /** Every visited node but the root was discovered along an edge from a
      node visited earlier, and finishes before it. */
  ghost predicate Discovered(graph: CfgGraph, s: Visit, parent: map<Node, Node>) {
    parent.Keys == s.pre.Keys - {graph.root}
    && forall v {:trigger parent[v]} :: v in parent ==>
      var u := parent[v];
      u in s.pre && v in Successors(graph, u) && s.pre[u] < s.pre[v]
      && (u in s.post ==> v in s.post && s.post[v] < s.post[u])
  }

  ghost predicate Good(graph: CfgGraph, s: Visit, parent: map<Node, Node>) {
    s.visited <= Universe(graph)
    && s.pre.Keys == s.visited && s.post.Keys <= s.visited && s.spanningTree.Keys <= s.visited
    && Numbering(s.pre, s.preTime) && Numbering(s.post, s.postTime)
    && TreeEdges(graph, s) && FinishedClosed(graph, s) && Discovered(graph, s, parent)
    && InOrder(graph, s, parent)
  }

  /** Each node was discovered in list order: its discoverer had already
      looked at every successor listed before it, and had finished everything
      it discovered earlier. */
  ghost predicate InOrder(graph: CfgGraph, s: Visit, parent: map<Node, Node>) {
    forall v {:trigger parent[v]} :: v in parent ==>
      ListedFirst(graph, s.pre, parent[v], v) && FinishedBetween(s.pre, s.post, parent[v], v)
  }

  /** Every successor that `u` lists before the first occurrence of `v` was
      numbered before `v`. */
  ghost predicate ListedFirst(graph: CfgGraph, pre: map<Node, nat>, u: Node, v: Node) {
    v in pre
    && forall j :: 0 <= j < |Successors(graph, u)| && v !in Successors(graph, u)[..j + 1] ==>
         Successors(graph, u)[j] in pre && pre[Successors(graph, u)[j]] < pre[v]
  }

  /** Every node numbered after `u` and before `v` is finished, and finished
      before `v` once `v` is. */
  ghost predicate FinishedBetween(pre: map<Node, nat>, post: map<Node, nat>, u: Node, v: Node) {
    u in pre && v in pre
    && forall x :: x in pre && pre[u] < pre[x] < pre[v] ==> x in post && (v in post ==> post[x] < post[v])
  }

  /** The state when `from` turns to its successor `node`: `from` is open,
      every successor it lists before `node` is visited, and every node
      discovered since `from` was entered is finished. */
  ghost predicate Turn(graph: CfgGraph, s: Visit, from: Node, node: Node) {
    from in s.pre && from !in s.post && node in Successors(graph, from)
    && (forall j :: 0 <= j < |Successors(graph, from)| && node !in Successors(graph, from)[..j + 1] ==>
          Successors(graph, from)[j] in s.pre)
    && (forall x :: x in s.pre && s.pre[from] < s.pre[x] ==> x in s.post)
  }

  /** `t` is a later state than `s`: nothing visited is forgotten, no stamp
      changes, only newly visited nodes finish, and the tree edges of nodes
      visited in `s` are untouched. */
  ghost predicate Extends(s: Visit, parent: map<Node, Node>, t: Visit, parent': map<Node, Node>) {
    s.visited <= t.visited && s.preTime <= t.preTime && s.postTime <= t.postTime
    && (forall n :: n in s.pre ==> n in t.pre && t.pre[n] == s.pre[n])
    && (forall n :: n in s.post ==> n in t.post && t.post[n] == s.post[n])
    && (forall n :: n in t.post && n in s.visited ==> n in s.post)
    && (forall u :: u in s.visited ==>
          (u in t.spanningTree <==> u in s.spanningTree)
          && (u in s.spanningTree ==> t.spanningTree[u] == s.spanningTree[u]))
    && (forall v :: v in parent ==> v in parent' && parent'[v] == parent[v])
  }

  lemma Unchanged(s: Visit, parent: map<Node, Node>)
    ensures Extends(s, parent, s, parent)
  {
  }

  // ---------------------------------------------------------------------
  // The traversal
  // ---------------------------------------------------------------------

  /** The inner recursive `dfs` of the Rust implementation. `from` is the node whose
      successor list led here (any value for the root); `parent` records, for
      the proof, which edge discovered each node. */
  method Dfs(graph: CfgGraph, node: Node, ghost from: Node, s: Visit, ghost parent: map<Node, Node>)
    returns (t: Visit, ghost parent': map<Node, Node>)
    requires node in Universe(graph)
    requires node == graph.root || Turn(graph, s, from, node)
    requires Good(graph, s, parent)
    ensures Good(graph, t, parent') && Extends(s, parent, t, parent')
    ensures node in t.visited
    // A revisit returns at once.
    ensures node in s.visited ==> t == s
    // A first visit stamps `node` with the next pre number on entry and the
    // next post number on exit, after everything it discovered.
    ensures node !in s.visited ==>
      t.pre[node] == s.preTime && node in t.post && t.post[node] == t.postTime - 1
    ensures forall n :: n in t.visited && n !in s.visited ==> n in t.post
    decreases Universe(graph) - s.visited, 3
  {
    if node in s.visited {
      Unchanged(s, parent);
      return s, parent;
    }
    t, parent' := Open(graph, node, from, s, parent);
  }

  /** A first visit of `node`: stamp it, explore its successors in order,
      then stamp it finished. */
  method Open(graph: CfgGraph, node: Node, ghost from: Node, s: Visit, ghost parent: map<Node, Node>)
    returns (t: Visit, ghost parent': map<Node, Node>)
    requires node in Universe(graph) && node !in s.visited
    requires node == graph.root || Turn(graph, s, from, node)
    requires Good(graph, s, parent)
    ensures Good(graph, t, parent') && Extends(s, parent, t, parent')
    ensures node in t.visited && t.pre[node] == s.preTime && node in t.post && t.post[node] == t.postTime - 1
    ensures forall n :: n in t.visited && n !in s.visited ==> n in t.post
    decreases Universe(graph) - s.visited, 2
  {
    t := Enter(s, node);
    parent' := Record(graph, parent, node, from);
    Entered(graph, node, from, s, parent);
    var successors := Successors(graph, node);
    t, parent' := ExploreAll(graph, node, s, parent, t, parent', successors);
    ghost var last := t;
    t := Leave(t, node);
    Finished(graph, node, s, parent, last, parent', successors);
  }

  /** The loop over the successors of `node`, in order. */
  method ExploreAll(graph: CfgGraph, node: Node, ghost s: Visit, ghost parent: map<Node, Node>,
                    t0: Visit, ghost parent0: map<Node, Node>, successors: seq<Node>)
    returns (t: Visit, ghost parent': map<Node, Node>)
    // Written `== true` so that the verifier keeps the invariant whole here
    // instead of splitting it into its conjuncts, which is much cheaper.
    requires Exploring(graph, node, s, parent, t0, parent0, successors, 0) == true
    ensures Exploring(graph, node, s, parent, t, parent', successors, |successors|)
    decreases Universe(graph) - s.visited, 1
  {
    t, parent' := t0, parent0;
    for i := 0 to |successors|
      invariant Exploring(graph, node, s, parent, t, parent', successors, i)
    {
      t, parent' := Explore(graph, node, s, parent, t, parent', successors, i);
    }
  }

  /** One turn of the loop over the successors of `node`: a successor
      already visited is skipped; otherwise the tree edge to it is recorded
      and the traversal descends into it. */
  method Explore(graph: CfgGraph, node: Node, ghost s: Visit, ghost parent: map<Node, Node>,
                 t0: Visit, ghost parent0: map<Node, Node>, successors: seq<Node>, i: nat)
    returns (t: Visit, ghost parent': map<Node, Node>)
    requires i < |successors| && Exploring(graph, node, s, parent, t0, parent0, successors, i)
    ensures Exploring(graph, node, s, parent, t, parent', successors, i + 1)
    decreases Universe(graph) - s.visited, 0
  {
    var successor := successors[i];
    if successor in t0.visited {
      Skipped(graph, node, s, parent, t0, parent0, successors, i);
      return t0, parent0;
    }
    t := Descend(t0, node, successor);
    Descending(graph, node, s, parent, t0, parent0, successors, i);
    DescendingTurn(graph, node, s, parent, t0, parent0, successors, i);
    t, parent' := Dfs(graph, successor, node, t, parent0);
    Returned(graph, node, successors, i, s, parent, t0, parent0, t, parent');
  }

  /** The loop invariant while `node`'s successors are explored. */
  ghost predicate Exploring(graph: CfgGraph, node: Node, s: Visit, parent: map<Node, Node>,
                            t: Visit, parent': map<Node, Node>, successors: seq<Node>, done: nat)
  {
    successors == Successors(graph, node)
    && Numbering(s.pre, s.preTime) && s.pre.Keys == s.visited
    && Good(graph, t, parent') && Extends(s, parent, t, parent')
    && Frontier(graph, node, s, t, successors, done)
  }

  /** Marking `node` visited and stamping its pre number. */
  function Enter(s: Visit, node: Node): Visit {
    s.(visited := s.visited + {node}, pre := s.pre[node := s.preTime], preTime := s.preTime + 1)
  }

  /** Recording the tree edge to a successor about to be explored. */
  function Descend(t: Visit, node: Node, successor: Node): Visit {
    t.(spanningTree := t.spanningTree[node := successor])
  }

  /** Stamping the post number of `node` once its successors are done. */
  function Leave(t: Visit, node: Node): Visit {
    t.(post := t.post[node := t.postTime], postTime := t.postTime + 1)
  }

  ghost function Record(graph: CfgGraph, parent: map<Node, Node>, node: Node, from: Node): map<Node, Node> {
    if node == graph.root then parent else parent[node := from]
  }

  /** What holds while `node` is on the stack, having looked at the
      successors in `done`: everything visited since it was entered is
      finished, and its current tree edge leads to the node finished last. */
  ghost predicate Frontier(graph: CfgGraph, node: Node, s: Visit, t: Visit, successors: seq<Node>, done: nat) {
    node !in s.visited && node in t.pre && t.pre[node] == s.preTime && node !in t.post
    && (forall n :: n in t.visited && n !in s.visited && n != node ==> n in t.post)
    && done <= |successors| && (forall j :: 0 <= j < done ==> successors[j] in t.visited)
    && (node in t.spanningTree ==>
          var c := t.spanningTree[node];
          c in t.pre && t.pre[node] < t.pre[c] && c in t.post && t.post[c] == t.postTime - 1)
    && (node !in t.spanningTree ==> t.preTime == s.preTime + 1)
  }

  lemma NumberingAdd(stamp: map<Node, nat>, time: nat, node: Node)
    requires Numbering(stamp, time) && node !in stamp
    ensures Numbering(stamp[node := time], time + 1)
  {
    UsedAdd(stamp, node, time);
    assert time !in Used(stamp);
  }

  /** Numbering one more node adds exactly its number to those used. */
  lemma UsedAdd(stamp: map<Node, nat>, node: Node, x: nat)
    requires node !in stamp
    ensures Used(stamp[node := x]) == Used(stamp) + {x}
  {
    var next := stamp[node := x];
    forall y | y in Used(next) ensures y in Used(stamp) + {x} {
      var n :| n in next && next[n] == y;
      if n != node {
        assert n in stamp;
      }
    }
    forall y | y in Used(stamp) ensures y in Used(next) {
      var n :| n in stamp && stamp[n] == y;
      assert n in next && next[n] == y;
    }
    assert node in next && next[node] == x;
  }

  // Entering a node.

  lemma Entered(graph: CfgGraph, node: Node, from: Node, s: Visit, parent: map<Node, Node>)
    requires node in Universe(graph) && node !in s.visited
    requires node == graph.root || Turn(graph, s, from, node)
    requires Good(graph, s, parent)
    ensures Exploring(graph, node, s, parent, Enter(s, node), Record(graph, parent, node, from), Successors(graph, node), 0)
  {
    EnteredGood(graph, node, from, s, parent);
    EnteredExtends(graph, node, from, s, parent);
    EnteredFrontier(graph, node, s);
  }

  lemma EnteredGood(graph: CfgGraph, node: Node, from: Node, s: Visit, parent: map<Node, Node>)
    requires node in Universe(graph) && node !in s.visited
    requires node == graph.root || Turn(graph, s, from, node)
    requires Good(graph, s, parent)
    ensures Good(graph, Enter(s, node), Record(graph, parent, node, from))
  {
    EnteredShape(graph, node, s);
    EnteredNumbering(s, node);
    EnteredTree(graph, s, node);
    EnteredClosed(graph, s, node);
    EnteredDiscovered(graph, node, from, s, parent);
    EnteredOrder(graph, node, from, s, parent);
  }

  lemma EnteredShape(graph: CfgGraph, node: Node, s: Visit)
    requires node in Universe(graph) && s.visited <= Universe(graph)
    requires s.pre.Keys == s.visited && s.post.Keys <= s.visited && s.spanningTree.Keys <= s.visited
    ensures var t := Enter(s, node);
      t.visited <= Universe(graph)
      && t.pre.Keys == t.visited && t.post.Keys <= t.visited && t.spanningTree.Keys <= t.visited
  {
  }

  lemma EnteredNumbering(s: Visit, node: Node)
    requires Numbering(s.pre, s.preTime) && Numbering(s.post, s.postTime) && node !in s.pre
    ensures Numbering(Enter(s, node).pre, Enter(s, node).preTime)
    ensures Numbering(Enter(s, node).post, Enter(s, node).postTime)
  {
    NumberingAdd(s.pre, s.preTime, node);
  }

  lemma EnteredExtends(graph: CfgGraph, node: Node, from: Node, s: Visit, parent: map<Node, Node>)
    requires node !in s.visited && s.pre.Keys == s.visited && s.post.Keys <= s.visited
    requires Discovered(graph, s, parent)
    ensures Extends(s, parent, Enter(s, node), Record(graph, parent, node, from))
  {
  }

  lemma EnteredFrontier(graph: CfgGraph, node: Node, s: Visit)
    requires node !in s.visited && s.post.Keys <= s.visited && s.spanningTree.Keys <= s.visited
    ensures Frontier(graph, node, s, Enter(s, node), Successors(graph, node), 0)
  {
  }

  lemma EnteredTree(graph: CfgGraph, s: Visit, node: Node)
    requires TreeEdges(graph, s) && node !in s.pre
    ensures TreeEdges(graph, Enter(s, node))
  {
  }

  lemma EnteredClosed(graph: CfgGraph, s: Visit, node: Node)
    requires FinishedClosed(graph, s) && node !in s.pre
    ensures FinishedClosed(graph, Enter(s, node))
  {
  }

  lemma EnteredDiscovered(graph: CfgGraph, node: Node, from: Node, s: Visit, parent: map<Node, Node>)
    requires node !in s.pre && s.post.Keys <= s.pre.Keys
    requires forall n :: n in s.pre ==> s.pre[n] < s.preTime
    requires node == graph.root || Turn(graph, s, from, node)
    requires Discovered(graph, s, parent)
    ensures Discovered(graph, Enter(s, node), Record(graph, parent, node, from))
  {
    if node == graph.root {
      EnteredRoot(graph, node, s, parent);
    } else {
      EnteredChild(graph, node, from, s, parent);
    }
  }

  lemma EnteredRoot(graph: CfgGraph, node: Node, s: Visit, parent: map<Node, Node>)
    requires node == graph.root && node !in s.pre
    requires Discovered(graph, s, parent)
    ensures Discovered(graph, Enter(s, node), parent)
  {
    var t := Enter(s, node);
    assert t.pre.Keys - {graph.root} == s.pre.Keys - {graph.root};
  }

  /** Entering a node from `from` records the edge that discovered it. */
  lemma EnteredChild(graph: CfgGraph, node: Node, from: Node, s: Visit, parent: map<Node, Node>)
    requires node != graph.root && node !in s.pre && s.post.Keys <= s.pre.Keys
    requires forall n :: n in s.pre ==> s.pre[n] < s.preTime
    requires from in s.pre && from !in s.post && node in Successors(graph, from)
    requires Discovered(graph, s, parent)
    ensures Discovered(graph, Enter(s, node), parent[node := from])
  {
    var t := Enter(s, node);
    var parent' := parent[node := from];
    assert parent'.Keys == parent.Keys + {node};
    forall v {:trigger parent'[v]} | v in parent'
      ensures var u := parent'[v];
              u in t.pre && v in Successors(graph, u) && t.pre[u] < t.pre[v]
              && (u in t.post ==> v in t.post && t.post[v] < t.post[u])
    {
      if v == node {
        assert parent'[v] == from && t.pre[from] == s.pre[from];
      } else {
        assert parent'[v] == parent[v];
      }
    }
  }

  lemma EnteredOrder(graph: CfgGraph, node: Node, from: Node, s: Visit, parent: map<Node, Node>)
    requires node !in s.pre && parent.Keys <= s.pre.Keys && s.post.Keys <= s.pre.Keys
    requires forall n :: n in s.pre ==> s.pre[n] < s.preTime
    requires node == graph.root || Turn(graph, s, from, node)
    requires InOrder(graph, s, parent)
    ensures InOrder(graph, Enter(s, node), Record(graph, parent, node, from))
  {
    var t := Enter(s, node);
    var parent' := Record(graph, parent, node, from);
    forall v {:trigger parent'[v]} | v in parent'
      ensures ListedFirst(graph, t.pre, parent'[v], v) && FinishedBetween(t.pre, t.post, parent'[v], v)
    {
      if v == node {
        assert node != graph.root && parent'[v] == from;
        EnteredListed(graph, node, from, s);
        EnteredBetween(graph, node, from, s);
      } else {
        assert v in parent && parent'[v] == parent[v];
        ListedFirstGrows(graph, s.pre, parent[v], v, node, s.preTime);
        FinishedBetweenEnter(s.pre, s.post, parent[v], v, node, s.preTime);
      }
    }
  }

  /** The node `from` turns to is numbered after the successors listed
      before it... */
  lemma EnteredListed(graph: CfgGraph, node: Node, from: Node, s: Visit)
    requires node !in s.pre && forall n :: n in s.pre ==> s.pre[n] < s.preTime
    requires Turn(graph, s, from, node)
    ensures ListedFirst(graph, s.pre[node := s.preTime], from, node)
  {
    var pre := s.pre[node := s.preTime];
    var successors := Successors(graph, from);
    forall j | 0 <= j < |successors| && node !in successors[..j + 1]
      ensures successors[j] in pre && pre[successors[j]] < pre[node]
    {
      assert successors[j] in s.pre;
    }
  }

  /** ...and after everything `from` discovered earlier has finished. */
  lemma EnteredBetween(graph: CfgGraph, node: Node, from: Node, s: Visit)
    requires node !in s.pre && s.post.Keys <= s.pre.Keys
    requires forall n :: n in s.pre ==> s.pre[n] < s.preTime
    requires Turn(graph, s, from, node)
    ensures FinishedBetween(s.pre[node := s.preTime], s.post, from, node)
  {
  }

  lemma ListedFirstGrows(graph: CfgGraph, pre: map<Node, nat>, u: Node, v: Node, n: Node, time: nat)
    requires ListedFirst(graph, pre, u, v) && n !in pre
    ensures ListedFirst(graph, pre[n := time], u, v)
  {
  }

  lemma FinishedBetweenEnter(pre: map<Node, nat>, post: map<Node, nat>, u: Node, v: Node, n: Node, time: nat)
    requires FinishedBetween(pre, post, u, v) && n !in pre && forall m :: m in pre ==> pre[m] < time
    ensures FinishedBetween(pre[n := time], post, u, v)
  {
  }

  // Descending along a tree edge.

  lemma Descending(graph: CfgGraph, node: Node, s: Visit, parent: map<Node, Node>,
                   t: Visit, parent': map<Node, Node>, successors: seq<Node>, i: nat)
    requires i < |successors| && Exploring(graph, node, s, parent, t, parent', successors, i)
    requires successors[i] !in t.visited
    ensures var mid := Descend(t, node, successors[i]);
            successors[i] in Universe(graph) && Good(graph, mid, parent')
            && Universe(graph) - mid.visited < Universe(graph) - s.visited
  {
    assert successors[i] in graph.edges[node];
    DescendingTree(graph, node, successors[i], t);
    DescendingClosed(graph, node, successors[i], t);
    assert node in Universe(graph) - s.visited;
  }

  /** When `node` turns to an unvisited successor, the successors listed
      before it are visited and everything discovered since `node` was
      entered is finished. */
  lemma DescendingTurn(graph: CfgGraph, node: Node, s: Visit, parent: map<Node, Node>,
                       t: Visit, parent': map<Node, Node>, successors: seq<Node>, i: nat)
    requires i < |successors| && Exploring(graph, node, s, parent, t, parent', successors, i)
    requires successors[i] !in t.visited
    ensures Turn(graph, Descend(t, node, successors[i]), node, successors[i])
  {
    var v := successors[i];
    assert v in Successors(graph, node);
    forall x | x in t.pre && t.pre[node] < t.pre[x] ensures x in t.post {
      assert x !in s.pre;
    }
  }

  lemma DescendingTree(graph: CfgGraph, node: Node, successor: Node, t: Visit)
    requires TreeEdges(graph, t) && node !in t.post
    requires successor in Successors(graph, node)
    ensures TreeEdges(graph, Descend(t, node, successor))
  {
  }

  lemma DescendingClosed(graph: CfgGraph, node: Node, successor: Node, t: Visit)
    requires FinishedClosed(graph, t) && node !in t.post
    ensures FinishedClosed(graph, Descend(t, node, successor))
  {
  }

  lemma FrontierSkip(graph: CfgGraph, node: Node, s: Visit, t: Visit, successors: seq<Node>, i: nat)
    requires i < |successors| && Frontier(graph, node, s, t, successors, i) && successors[i] in t.visited
    ensures Frontier(graph, node, s, t, successors, i + 1)
  {
  }

  lemma Skipped(graph: CfgGraph, node: Node, s: Visit, parent: map<Node, Node>,
                t: Visit, parent': map<Node, Node>, successors: seq<Node>, i: nat)
    requires i < |successors| && Exploring(graph, node, s, parent, t, parent', successors, i)
    requires successors[i] in t.visited
    ensures Exploring(graph, node, s, parent, t, parent', successors, i + 1)
  {
    FrontierSkip(graph, node, s, t, successors, i);
  }

  // Returning from a successor.

  lemma Returned(graph: CfgGraph, node: Node, successors: seq<Node>, i: nat, s: Visit, parent: map<Node, Node>,
                 before: Visit, parentBefore: map<Node, Node>, t: Visit, parent': map<Node, Node>)
    requires i < |successors| && Exploring(graph, node, s, parent, before, parentBefore, successors, i)
    requires var successor := successors[i];
             successor !in before.visited
             && Good(graph, t, parent') && Extends(Descend(before, node, successor), parentBefore, t, parent')
             && successor in t.pre && t.pre[successor] == before.preTime
             && successor in t.post && t.post[successor] == t.postTime - 1
             && forall n :: n in t.visited && n !in before.visited ==> n in t.post
    ensures Exploring(graph, node, s, parent, t, parent', successors, i + 1)
  {
    ReturnedExtends(node, successors[i], s, parent, before, parentBefore, t, parent');
    ReturnedFrontier(graph, node, successors, i, s, parent, before, parentBefore, t, parent');
  }

  lemma ReturnedExtends(node: Node, successor: Node, s: Visit, parent: map<Node, Node>,
                        before: Visit, parentBefore: map<Node, Node>, t: Visit, parent': map<Node, Node>)
    requires node !in s.visited
    requires Extends(s, parent, before, parentBefore)
    requires Extends(Descend(before, node, successor), parentBefore, t, parent')
    ensures Extends(s, parent, t, parent')
  {
  }

  lemma ReturnedFrontier(graph: CfgGraph, node: Node, successors: seq<Node>, i: nat, s: Visit, parent: map<Node, Node>,
                         before: Visit, parentBefore: map<Node, Node>, t: Visit, parent': map<Node, Node>)
    requires i < |successors| && Extends(s, parent, before, parentBefore) && Frontier(graph, node, s, before, successors, i)
    requires Numbering(before.pre, before.preTime) && before.pre.Keys == before.visited
    requires var successor := successors[i];
             successor !in before.visited
             && Extends(Descend(before, node, successor), parentBefore, t, parent')
             && t.pre.Keys == t.visited && successor in t.pre && t.pre[successor] == before.preTime
             && successor in t.post && t.post[successor] == t.postTime - 1
             && forall n :: n in t.visited && n !in before.visited ==> n in t.post
    ensures Frontier(graph, node, s, t, successors, i + 1)
  {
    var mid := Descend(before, node, successors[i]);
    assert node in mid.visited && node in mid.spanningTree;
    assert t.spanningTree[node] == successors[i];
    forall j | 0 <= j < i + 1 ensures successors[j] in t.visited {
      if j < i {
        assert successors[j] in mid.visited;
      }
    }
  }

  // Leaving a node.

  lemma Finished(graph: CfgGraph, node: Node, s: Visit, parent: map<Node, Node>,
                 t: Visit, parent': map<Node, Node>, successors: seq<Node>)
    requires Exploring(graph, node, s, parent, t, parent', successors, |successors|)
    ensures var last := Leave(t, node);
            Good(graph, last, parent') && Extends(s, parent, last, parent')
            && node in last.visited && last.pre[node] == s.preTime
            && node in last.post && last.post[node] == last.postTime - 1
            && (forall n :: n in last.visited && n !in s.visited ==> n in last.post)
  {
    FinishedNumbering(t, node);
    FinishedTree(graph, node, s, t, successors);
    FinishedClosedUp(graph, node, s, t, successors);
    FinishedDiscovered(graph, node, s, t, parent', successors);
    FinishedOrder(graph, node, t, parent');
    FinishedExtends(node, s, parent, t, parent');
  }

  lemma FinishedOrder(graph: CfgGraph, node: Node, t: Visit, parent: map<Node, Node>)
    requires InOrder(graph, t, parent) && node !in t.post
    requires forall n :: n in t.post ==> t.post[n] < t.postTime
    ensures InOrder(graph, Leave(t, node), parent)
  {
    var last := Leave(t, node);
    forall v {:trigger parent[v]} | v in parent
      ensures ListedFirst(graph, last.pre, parent[v], v) && FinishedBetween(last.pre, last.post, parent[v], v)
    {
      FinishedBetweenLeave(t.pre, t.post, parent[v], v, node, t.postTime);
    }
  }

  lemma FinishedBetweenLeave(pre: map<Node, nat>, post: map<Node, nat>, u: Node, v: Node, n: Node, time: nat)
    requires FinishedBetween(pre, post, u, v) && n !in post && forall m :: m in post ==> post[m] < time
    ensures FinishedBetween(pre, post[n := time], u, v)
  {
  }

  lemma FinishedNumbering(t: Visit, node: Node)
    requires Numbering(t.pre, t.preTime) && Numbering(t.post, t.postTime) && node !in t.post
    ensures Numbering(Leave(t, node).pre, Leave(t, node).preTime)
    ensures Numbering(Leave(t, node).post, Leave(t, node).postTime)
  {
    NumberingAdd(t.post, t.postTime, node);
  }

  lemma FinishedTree(graph: CfgGraph, node: Node, s: Visit, t: Visit, successors: seq<Node>)
    requires TreeEdges(graph, t) && Frontier(graph, node, s, t, successors, |successors|)
    ensures TreeEdges(graph, Leave(t, node))
  {
  }

  lemma FinishedClosedUp(graph: CfgGraph, node: Node, s: Visit, t: Visit, successors: seq<Node>)
    requires successors == Successors(graph, node)
    requires FinishedClosed(graph, t) && Frontier(graph, node, s, t, successors, |successors|)
    requires Numbering(t.pre, t.preTime) && t.pre.Keys == t.visited
    requires Numbering(t.post, t.postTime)
    requires forall n :: n in s.visited ==> n in t.pre && t.pre[n] < s.preTime
    ensures FinishedClosed(graph, Leave(t, node))
  {
    var last := Leave(t, node);
    forall v | v in Successors(graph, node)
      ensures v in last.pre && (node !in last.spanningTree ==> last.pre[v] <= last.pre[node])
      ensures last.pre[v] <= last.pre[node] || (v in last.post && last.post[v] < last.post[node])
    {
      var j :| 0 <= j < |successors| && successors[j] == v;
      if last.pre[v] > last.pre[node] {
        // Visited after `node` was entered, so finished before it.
        assert v !in s.visited && v != node;
        assert v in t.post;
      }
    }
  }

  lemma FinishedDiscovered(graph: CfgGraph, node: Node, s: Visit, t: Visit, parent: map<Node, Node>, successors: seq<Node>)
    requires s.pre.Keys == s.visited && forall n :: n in s.pre ==> s.pre[n] < s.preTime
    requires forall n :: n in s.pre ==> n in t.pre && t.pre[n] == s.pre[n]
    requires t.pre.Keys == t.visited && forall n :: n in t.post ==> t.post[n] < t.postTime
    requires Discovered(graph, t, parent) && Frontier(graph, node, s, t, successors, |successors|)
    ensures Discovered(graph, Leave(t, node), parent)
  {
    var last := Leave(t, node);
    forall v {:trigger parent[v]} | v in parent
      ensures var u := parent[v];
              u in last.pre && v in Successors(graph, u) && last.pre[u] < last.pre[v]
              && (u in last.post ==> v in last.post && last.post[v] < last.post[u])
    {
      var u := parent[v];
      if u == node {
        assert t.pre[v] > s.preTime;
        assert v !in s.pre;
        assert v in t.post;
      } else if u in last.post {
        assert u in t.post;
      }
    }
  }

  lemma FinishedExtends(node: Node, s: Visit, parent: map<Node, Node>, t: Visit, parent': map<Node, Node>)
    requires Extends(s, parent, t, parent') && node !in s.visited && node !in t.post
    ensures Extends(s, parent, Leave(t, node), parent')
  {
  }

  /** The Rust implementation's `dfs_search`: one traversal from the root with fresh state. */
  method DfsSearch(graph: CfgGraph) returns (order: VisitOrder, ghost discovery: map<Node, Node>)
    // Exactly the nodes reachable from the root are numbered, in both orders.
    ensures forall n :: n in order.pre <==> Reachable(graph, n)
    ensures order.post.Keys == order.pre.Keys && order.spanningTree.Keys <= order.pre.Keys
    // Both numberings are dense: k nodes get exactly the numbers 0 .. k-1.
    ensures Dense(order.pre) && Dense(order.post)
    // The root is discovered first and finished last.
    ensures graph.root in order.pre && order.pre[graph.root] == 0 && order.post[graph.root] == |order.post| - 1
    // Each tree edge goes to the parent's last child along a graph edge,
    // discovered after it and finished just before it; never to the root.
    ensures forall u {:trigger u in order.spanningTree} :: u in order.spanningTree ==>
      var v := order.spanningTree[u];
      v in Successors(graph, u) && v != graph.root && v in order.pre
      && order.pre[u] < order.pre[v] && order.post[v] + 1 == order.post[u]
    // A node without a tree edge discovered nothing: its successors were all
    // numbered before it.
    ensures forall u, v {:trigger v in Successors(graph, u)} ::
      u in order.pre && u !in order.spanningTree && v in Successors(graph, u) ==>
      v in order.pre && order.pre[v] <= order.pre[u]
    // Every edge leads back to a node numbered no later, or forward to one
    // finished before its source: a node's successors are all entered before
    // it finishes.
    ensures forall u, v {:trigger v in Successors(graph, u)} ::
      u in order.pre && v in Successors(graph, u) ==>
      v in order.pre && (order.pre[v] <= order.pre[u] || order.post[v] < order.post[u])
    // Every numbered node but the root was discovered along an edge from a
    // node that nests around it: discovered before it and finished after it.
    ensures discovery.Keys == order.pre.Keys - {graph.root}
    ensures forall v {:trigger discovery[v]} :: v in discovery ==>
      var u := discovery[v];
      u in order.pre && v in Successors(graph, u)
      && order.pre[u] < order.pre[v] && order.post[v] < order.post[u]
    // Successors are explored in list order: a node's discoverer had numbered
    // every successor it lists before it, and every node numbered between the
    // two finished before it.
    ensures forall v {:trigger discovery[v]} :: v in discovery ==>
      ListedFirst(graph, order.pre, discovery[v], v) && FinishedBetween(order.pre, order.post, discovery[v], v)
  {
    var s := Visit({}, map[], map[], map[], 0, 0);
    Initial(graph, s);
    var t;
    ghost var parent;
    t, parent := Dfs(graph, graph.root, graph.root, s, map[]);
    AllFinished(s, t);
    order := VisitOrder(t.pre, t.post, t.spanningTree);
    SearchReachable(graph, t, parent, order);
    DenseNumbering(order.pre, t.preTime);
    DenseNumbering(order.post, t.postTime);
    SearchTree(graph, t, order);
    SearchLeaves(graph, t, order);
    SearchEdges(graph, t, order);
    SearchDiscovery(graph, t, parent, order);
    SearchOrder(graph, t, parent, order);
    discovery := parent;
  }

  /** The fresh state, with nothing visited, satisfies the invariant. */
  lemma Initial(graph: CfgGraph, s: Visit)
    requires s == Visit({}, map[], map[], map[], 0, 0)
    ensures graph.root in Universe(graph) && Good(graph, s, map[])
  {
    assert Used(s.pre) == {};
  }

  /** A search from the fresh state finishes every node it visits. */
  lemma AllFinished(s: Visit, t: Visit)
    requires s.visited == {} && t.pre.Keys == t.visited && t.post.Keys <= t.visited
    requires forall n :: n in t.visited && n !in s.visited ==> n in t.post
    ensures t.post.Keys == t.pre.Keys
  {
  }

  /** After the search every numbered node is finished, so the numbered
      nodes are closed under successors; hence they are the reachable ones. */
  lemma SearchReachable(graph: CfgGraph, t: Visit, parent: map<Node, Node>, order: VisitOrder)
    requires graph.root in t.pre && t.post.Keys == t.pre.Keys
    requires FinishedClosed(graph, t) && Discovered(graph, t, parent)
    requires order.pre == t.pre
    ensures forall n :: n in order.pre <==> Reachable(graph, n)
  {
    forall n ensures n in t.pre <==> Reachable(graph, n) {
      if Reachable(graph, n) {
        ClosedHoldsReachable(graph, t.pre.Keys, n);
      } else if n in t.pre {
        DiscoveredReachable(graph, t, parent, n);
      }
    }
  }

  lemma SearchTree(graph: CfgGraph, t: Visit, order: VisitOrder)
    requires graph.root in t.pre && t.pre[graph.root] == 0
    requires t.post.Keys == t.pre.Keys && t.spanningTree.Keys <= t.pre.Keys
    requires TreeEdges(graph, t)
    requires order == VisitOrder(t.pre, t.post, t.spanningTree)
    ensures forall u {:trigger u in order.spanningTree} :: u in order.spanningTree ==>
      var v := order.spanningTree[u];
      v in Successors(graph, u) && v != graph.root && v in order.pre
      && order.pre[u] < order.pre[v] && order.post[v] + 1 == order.post[u]
  {
  }

  lemma SearchLeaves(graph: CfgGraph, t: Visit, order: VisitOrder)
    requires t.post.Keys == t.pre.Keys && FinishedClosed(graph, t)
    requires order == VisitOrder(t.pre, t.post, t.spanningTree)
    ensures forall u, v {:trigger v in Successors(graph, u)} ::
      u in order.pre && u !in order.spanningTree && v in Successors(graph, u) ==>
      v in order.pre && order.pre[v] <= order.pre[u]
  {
  }

  lemma SearchEdges(graph: CfgGraph, t: Visit, order: VisitOrder)
    requires t.post.Keys == t.pre.Keys && FinishedClosed(graph, t)
    requires order == VisitOrder(t.pre, t.post, t.spanningTree)
    ensures forall u, v {:trigger v in Successors(graph, u)} ::
      u in order.pre && v in Successors(graph, u) ==>
      v in order.pre && (order.pre[v] <= order.pre[u] || order.post[v] < order.post[u])
  {
  }

  lemma SearchDiscovery(graph: CfgGraph, t: Visit, parent: map<Node, Node>, order: VisitOrder)
    requires t.post.Keys == t.pre.Keys && Discovered(graph, t, parent)
    requires order == VisitOrder(t.pre, t.post, t.spanningTree)
    ensures parent.Keys == order.pre.Keys - {graph.root}
    ensures forall v {:trigger parent[v]} :: v in parent ==>
      var u := parent[v];
      u in order.pre && v in Successors(graph, u)
      && order.pre[u] < order.pre[v] && order.post[v] < order.post[u]
  {
  }

  lemma SearchOrder(graph: CfgGraph, t: Visit, parent: map<Node, Node>, order: VisitOrder)
    requires InOrder(graph, t, parent)
    requires order == VisitOrder(t.pre, t.post, t.spanningTree)
    ensures forall v {:trigger parent[v]} :: v in parent ==>
      ListedFirst(graph, order.pre, parent[v], v) && FinishedBetween(order.pre, order.post, parent[v], v)
  {
  }

  // ---------------------------------------------------------------------
  // Dense numbering
  // ---------------------------------------------------------------------

  /** The numbers used by `stamp` are exactly 0 .. |stamp| - 1. */
  ghost predicate Dense(stamp: map<Node, nat>) {
    forall i: nat :: i in Used(stamp) <==> i < |stamp|
  }

  /** The numbers below `k`. */
  ghost function Range(k: nat): set<nat> {
    if k == 0 then {} else Range(k - 1) + {k - 1}
  }

  lemma {:induction false} RangeMembers(k: nat)
    ensures forall x: nat :: x in Range(k) <==> x < k
  {
    if k > 0 {
      RangeMembers(k - 1);
    }
  }

  lemma {:induction false} RangeSize(k: nat)
    ensures |Range(k)| == k
  {
    if k > 0 {
      RangeSize(k - 1);
      RangeMembers(k - 1);
      assert k - 1 !in Range(k - 1);
    }
  }

  lemma DenseNumbering(stamp: map<Node, nat>, time: nat)
    requires Numbering(stamp, time)
    ensures Dense(stamp)
  {
    RangeMembers(time);
    RangeSize(time);
    var used := Used(stamp);
    assert used <= Range(time);
    if used != Range(time) {
      ProperSubsetSmaller(used, Range(time));
    }
  }
}
