/** Which commits a rebase rewrites, in what order, and where each new parent
    comes from. */
module RebaseTopology {
  import opened Git

  datatype Node = Node(commit: CommitId, parents: seq<CommitId>)

  /** `InRange` is replaced by whatever this rewrite produced for it; anything
      else, an absent parent included, is replaced by the new base. */
  datatype Parent = InRange(origin: CommitId) | NewBase(outside: Option<CommitId>)

  datatype Step = Step(isMerge: bool, commit: CommitId, parents: seq<Parent>)

  datatype Refusal = OctopusMerge | ParentOutsideRange(parent: CommitId)

  datatype Analysis = Analysis(
    mergeCommits: seq<CommitId>,
    unsupported: seq<(CommitId, Refusal)>,
    steps: seq<Step>)
  {
    predicate Supported() { unsupported == [] }
    predicate Linear() { mergeCommits == [] }
  }

  function Commits(nodes: seq<Node>): set<CommitId> {
    set n | n in nodes :: n.commit
  }

  lemma {:induction false} CommitsAre(nodes: seq<Node>)
    ensures forall c :: c in Commits(nodes) <==> exists i :: 0 <= i < |nodes| && nodes[i].commit == c
  {
    forall i | 0 <= i < |nodes| ensures nodes[i].commit in Commits(nodes) {
      assert nodes[i] in nodes;
    }
  }

  function ParentOrigin(parent: CommitId, inRange: set<CommitId>): Parent {
    if parent in inRange then InRange(parent) else NewBase(Some(parent))
  }

  function ParentsOf(node: Node, inRange: set<CommitId>): (r: seq<Parent>)
    ensures |r| == if node.parents == [] then 1 else |node.parents|
  {
    if node.parents == [] then [NewBase(None)]
    else seq(|node.parents|, i requires 0 <= i < |node.parents| => ParentOrigin(node.parents[i], inRange))
  }

  function StepOf(node: Node, inRange: set<CommitId>): Step {
    Step(|node.parents| > 1, node.commit, ParentsOf(node, inRange))
  }

  /** A merge this version recreates: two parents, each either rewritten by this
      range or already beneath the new base. */
  predicate Recreatable(node: Node, inRange: set<CommitId>, underOnto: CommitId -> bool) {
    |node.parents| > 1 ==>
      |node.parents| == 2 && forall p <- node.parents :: p in inRange || underOnto(p)
  }

  /** The refusal names a parent that really is neither in range nor under the
      new base, or a merge that really has more than two parents. */
  predicate Justified(refused: (CommitId, Refusal), nodes: seq<Node>, inRange: set<CommitId>, underOnto: CommitId -> bool) {
    exists i | 0 <= i < |nodes| ::
      && nodes[i].commit == refused.0
      && |nodes[i].parents| > 1
      && match refused.1
         case OctopusMerge => |nodes[i].parents| > 2
         case ParentOutsideRange(p) =>
           |nodes[i].parents| == 2 && p in nodes[i].parents && p !in inRange && !underOnto(p)
  }

  method UnsupportedShape(node: Node, inRange: set<CommitId>, underOnto: CommitId -> bool) returns (r: Option<Refusal>)
    requires |node.parents| > 1
    ensures r == None <==> Recreatable(node, inRange, underOnto)
    ensures r.Some? ==> Justified((node.commit, r.value), [node], inRange, underOnto)
  {
    if |node.parents| > 2 {
      assert [node][0] == node;
      return Some(OctopusMerge);
    }
    for i := 0 to |node.parents|
      invariant forall j :: 0 <= j < i ==> node.parents[j] in inRange || underOnto(node.parents[j])
    {
      var parent := node.parents[i];
      if parent !in inRange && !underOnto(parent) {
        assert [node][0] == node;
        return Some(ParentOutsideRange(parent));
      }
    }
    return None;
  }

  predicate IsMergeNode(nodes: seq<Node>, c: CommitId) {
    exists i | 0 <= i < |nodes| :: nodes[i].commit == c && |nodes[i].parents| > 1
  }

  /** A step names the parents of its own commit, in their order. */
  lemma {:induction false} ParentsInOrder(node: Node, inRange: set<CommitId>)
    ensures var step := StepOf(node, inRange);
            && step.commit == node.commit && (step.isMerge <==> |node.parents| > 1)
            && (node.parents == [] ==> step.parents == [NewBase(None)])
            && (node.parents != [] ==> |step.parents| == |node.parents|)
            && forall j :: 0 <= j < |node.parents| ==>
                 step.parents[j] == if node.parents[j] in inRange then InRange(node.parents[j]) else NewBase(Some(node.parents[j]))
  {}

  /** The rewrite program of a range, or the merges that keep it from having one. */
  method AnalyzeRebaseTopology(nodes: seq<Node>, underOnto: CommitId -> bool) returns (a: Analysis)
    ensures a.Supported() <==> forall n <- nodes :: Recreatable(n, Commits(nodes), underOnto)
    ensures a.Supported() ==> |a.steps| == |nodes|
    ensures a.Supported() ==> forall i :: 0 <= i < |nodes| ==> a.steps[i] == StepOf(nodes[i], Commits(nodes))
    ensures a.Supported() ==>
              forall i :: 0 <= i < |nodes| ==>
                && a.steps[i].commit == nodes[i].commit && (a.steps[i].isMerge <==> |nodes[i].parents| > 1)
                && (nodes[i].parents == [] ==> a.steps[i].parents == [NewBase(None)])
                && (nodes[i].parents != [] ==> |a.steps[i].parents| == |nodes[i].parents|)
                && forall j :: 0 <= j < |nodes[i].parents| ==>
                     var p := nodes[i].parents[j];
                     a.steps[i].parents[j] == if exists k :: 0 <= k < |nodes| && nodes[k].commit == p then InRange(p) else NewBase(Some(p))
    ensures a.Linear() <==> forall n <- nodes :: |n.parents| <= 1
    ensures forall c :: c in a.mergeCommits <==> IsMergeNode(nodes, c)
    ensures forall u <- a.unsupported :: Justified(u, nodes, Commits(nodes), underOnto)
  {
    CommitsAre(nodes);
    var inRange := Commits(nodes);
    var mergeCommits, unsupported, steps := [], [], [];
    for i := 0 to |nodes|
      invariant unsupported == [] <==> forall j :: 0 <= j < i ==> Recreatable(nodes[j], inRange, underOnto)
      invariant unsupported == [] ==> |steps| == i && forall j :: 0 <= j < i ==> steps[j] == StepOf(nodes[j], inRange)
      invariant mergeCommits == [] <==> forall j :: 0 <= j < i ==> |nodes[j].parents| <= 1
      invariant forall c :: c in mergeCommits <==> IsMergeNode(nodes[..i], c)
      invariant forall u <- unsupported :: Justified(u, nodes, inRange, underOnto)
    {
      var node := nodes[i];
      var isMerge := |node.parents| > 1;
      assert nodes[..i + 1] == nodes[..i] + [node];
      MergeNodeSnoc(nodes[..i], node);
      if isMerge {
        mergeCommits := mergeCommits + [node.commit];
        var refusal := UnsupportedShape(node, inRange, underOnto);
        if refusal.Some? {
          unsupported := unsupported + [(node.commit, refusal.value)];
          continue;
        }
      }
      steps := steps + [StepOf(node, inRange)];
    }
    assert nodes[..|nodes|] == nodes;
    a := Analysis(mergeCommits, unsupported, steps);
  }

  lemma {:induction false} MergeNodeSnoc(nodes: seq<Node>, node: Node)
    ensures forall c :: IsMergeNode(nodes + [node], c) <==> IsMergeNode(nodes, c) || (c == node.commit && |node.parents| > 1)
  {
    forall c ensures IsMergeNode(nodes + [node], c) <==> IsMergeNode(nodes, c) || (c == node.commit && |node.parents| > 1) {
      if IsMergeNode(nodes, c) {
        var i :| 0 <= i < |nodes| && nodes[i].commit == c && |nodes[i].parents| > 1;
        assert (nodes + [node])[i] == nodes[i];
      }
      if c == node.commit && |node.parents| > 1 {
        assert (nodes + [node])[|nodes|] == node;
      }
    }
  }

  // ---------- What a range is ----------

  ghost predicate IsPath(h: History, path: seq<CommitId>) {
    && path != []
    && forall i :: 0 <= i < |path| - 1 ==> path[i] in h && path[i + 1] in h[path[i]]
  }

  ghost predicate Reachable(h: History, from: CommitId, to: CommitId) {
    exists path :: IsPath(h, path) && path[0] == from && path[|path| - 1] == to
  }

  lemma {:induction false} ReachableTransitive(h: History, a: CommitId, b: CommitId, c: CommitId)
    requires Reachable(h, a, b) && Reachable(h, b, c)
    ensures Reachable(h, a, c)
  {
    var p :| IsPath(h, p) && p[0] == a && p[|p| - 1] == b;
    var q :| IsPath(h, q) && q[0] == b && q[|q| - 1] == c;
    var r := p + q[1..];
    assert IsPath(h, r) by {
      forall i | 0 <= i < |r| - 1 ensures r[i] in h && r[i + 1] in h[r[i]] {
        if i >= |p| - 1 {
          assert r[i] == q[i - |p| + 1] && r[i + 1] == q[i - |p| + 2];
        }
      }
    }
    assert r[|r| - 1] == c;
  }

  ghost predicate Distinct(nodes: seq<Node>) {
    forall i, j :: 0 <= i < j < |nodes| ==> nodes[i].commit != nodes[j].commit
  }

  ghost predicate IsParent(nodes: seq<Node>, i: int, j: int) {
    && 0 <= i < |nodes|
    && 0 <= j < |nodes|
    && nodes[i].commit in nodes[j].parents
  }

  ghost predicate ParentsFirst(nodes: seq<Node>) {
    forall i, j :: IsParent(nodes, i, j) ==> i < j
  }

  ghost predicate HasChild(nodes: seq<Node>, i: int) {
    exists j :: IsParent(nodes, i, j)
  }

  /** `nodes` lists `base..head`: what `head` reaches and `base` does not, each
      commit once, with its parents, and after every parent it has in range. */
  ghost predicate IsRange(h: History, base: CommitId, head: CommitId, nodes: seq<Node>) {
    && Distinct(nodes)
    && ParentsFirst(nodes)
    && (forall c :: c in Commits(nodes) <==> Reachable(h, head, c) && !Reachable(h, base, c))
    && (forall n <- nodes :: n.commit in h && n.parents == h[n.commit])
  }

  /** All the rewrite needs to know of a range: commits are listed once and after
      their parents, and every commit but the last has a child in the range. */
  ghost predicate Rooted(nodes: seq<Node>) {
    && Distinct(nodes)
    && ParentsFirst(nodes)
    && forall i :: 0 <= i < |nodes| - 1 ==> HasChild(nodes, i)
  }

  /** Any topological listing of `base..head` ends at `head` and leaves no other
      commit without a child. */
  lemma {:induction false} RangeIsRooted(h: History, base: CommitId, head: CommitId, nodes: seq<Node>)
    requires IsRange(h, base, head, nodes)
    ensures Rooted(nodes)
    ensures nodes != [] ==> nodes[|nodes| - 1].commit == head
  {
    if nodes != [] {
      HeadIsListed(h, base, head, nodes);
      var k :| 0 <= k < |nodes| && nodes[k].commit == head;
      var last := |nodes| - 1;
      if nodes[last].commit != head {
        OthersHaveChildren(h, base, head, nodes, last);
        assert false;
      }
      forall i | 0 <= i < last ensures HasChild(nodes, i) {
        OthersHaveChildren(h, base, head, nodes, i);
      }
    }
  }

  lemma {:induction false} HeadIsListed(h: History, base: CommitId, head: CommitId, nodes: seq<Node>)
    requires IsRange(h, base, head, nodes) && nodes != []
    ensures head in Commits(nodes)
  {
    var c := nodes[0].commit;
    assert nodes[0] in nodes;
    assert c in Commits(nodes);
    assert Reachable(h, head, head) by { assert IsPath(h, [head]); }
    if Reachable(h, base, head) { ReachableTransitive(h, base, head, c); }
  }

  lemma {:induction false} OthersHaveChildren(h: History, base: CommitId, head: CommitId, nodes: seq<Node>, i: nat)
    requires IsRange(h, base, head, nodes) && i < |nodes| && nodes[i].commit != head
    ensures HasChild(nodes, i)
  {
    var c := nodes[i].commit;
    assert nodes[i] in nodes;
    assert c in Commits(nodes);
    var path :| IsPath(h, path) && path[0] == head && path[|path| - 1] == c;
    var d := path[|path| - 2];
    var upTo := path[..|path| - 1];
    assert IsPath(h, upTo) && upTo[|upTo| - 1] == d && upTo[0] == head;
    assert Reachable(h, d, c) by { assert IsPath(h, [d, c]); }
    if Reachable(h, base, d) { ReachableTransitive(h, base, d, c); }
    assert d in Commits(nodes);
    var j :| 0 <= j < |nodes| && nodes[j].commit == d;
    assert IsParent(nodes, i, j);
  }

  // ---------- Chains ----------

  /** From `m` on, each commit's only parent is the commit listed before it. */
  ghost predicate ChainFrom(nodes: seq<Node>, m: nat) {
    forall i :: m < i < |nodes| ==> FollowsPrevious(nodes, i)
  }

  ghost predicate FollowsPrevious(nodes: seq<Node>, i: nat)
    requires 0 < i < |nodes|
  {
    nodes[i].parents == [nodes[i - 1].commit]
  }

  /** A tail without merges is a single line of commits, in order. */
  lemma {:induction false} TailIsChain(nodes: seq<Node>, m: nat)
    requires Rooted(nodes)
    requires forall i :: m < i < |nodes| ==> |nodes[i].parents| <= 1
    ensures ChainFrom(nodes, m)
    decreases |nodes| - m
  {
    if m + 1 < |nodes| {
      TailIsChain(nodes, m + 1);
      assert HasChild(nodes, m);
      var j :| IsParent(nodes, m, j);
      assert m < j;
      assert FollowsPrevious(nodes, j) || j == m + 1;
      assert j == m + 1;
      assert nodes[m + 1].parents == [nodes[m].commit];
    }
  }
}
