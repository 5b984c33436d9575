/** Which commits share a Change-Id without any recorded derivation between
    them: union-find over the identity-preserving application edges. */
module IdentityAudit {
  import opened Git

  type ChangeId = nat

  datatype Application = Application(
    origin: Option<CommitId>, applied: Option<CommitId>,
    originChangeId: Option<ChangeId>, appliedChangeId: Option<ChangeId>)

  type Edge = (CommitId, CommitId)

  /** An edge for every application that names both commits and keeps the identity. */
  function IdentityPreservingEdges(records: seq<Application>): seq<Edge> {
    if records == [] then []
    else
      var last := records[|records| - 1];
      IdentityPreservingEdges(records[..|records| - 1]) +
      if last.origin.Some? && last.applied.Some? && last.originChangeId.Some? && last.originChangeId == last.appliedChangeId
      then [(last.origin.value, last.applied.value)] else []
  }

  /** The edges are the applications that name two commits and one identity for both. */
  lemma {:induction false} EdgesAre(records: seq<Application>, a: CommitId, b: CommitId)
    ensures (a, b) in IdentityPreservingEdges(records) <==>
            exists i, id: ChangeId :: 0 <= i < |records| && records[i] == Application(Some(a), Some(b), Some(id), Some(id))
  {
    if records != [] {
      var rest, last := records[..|records| - 1], records[|records| - 1];
      EdgesAre(rest, a, b);
      if i, id: ChangeId :| 0 <= i < |rest| && rest[i] == Application(Some(a), Some(b), Some(id), Some(id)) {
        assert records[i] == Application(Some(a), Some(b), Some(id), Some(id));
      }
      if i, id: ChangeId :| 0 <= i < |records| && records[i] == Application(Some(a), Some(b), Some(id), Some(id)) {
        if i < |rest| { assert rest[i] == Application(Some(a), Some(b), Some(id), Some(id)); }
      }
      if (a, b) in IdentityPreservingEdges(records) && (a, b) !in IdentityPreservingEdges(rest) {
        assert records[|rest|] == Application(Some(a), Some(b), last.originChangeId, Some(last.appliedChangeId.value));
      }
    }
  }

  // Being linked by edges.

  predicate Adjacent(edges: seq<Edge>, a: CommitId, b: CommitId) {
    (a, b) in edges || (b, a) in edges
  }

  predicate IsPath(edges: seq<Edge>, p: seq<CommitId>) {
    p != [] && forall i :: 0 <= i < |p| - 1 ==> Adjacent(edges, p[i], p[i + 1])
  }

  ghost predicate Linked(edges: seq<Edge>, a: CommitId, b: CommitId) {
    exists p :: IsPath(edges, p) && p[0] == a && p[|p| - 1] == b
  }

  lemma {:induction false} LinkedToItself(edges: seq<Edge>, a: CommitId)
    ensures Linked(edges, a, a)
  {
    assert IsPath(edges, [a]);
  }

  lemma {:induction false} LinkedBack(edges: seq<Edge>, a: CommitId, b: CommitId)
    requires Linked(edges, a, b)
    ensures Linked(edges, b, a)
  {
    var p :| IsPath(edges, p) && p[0] == a && p[|p| - 1] == b;
    var q := seq(|p|, i requires 0 <= i < |p| => p[|p| - 1 - i]);
    forall i | 0 <= i < |q| - 1 ensures Adjacent(edges, q[i], q[i + 1]) {
      assert Adjacent(edges, p[|p| - 2 - i], p[|p| - 2 - i + 1]);
    }
    assert IsPath(edges, q);
  }

  lemma {:induction false} LinkedOn(edges: seq<Edge>, a: CommitId, b: CommitId, c: CommitId)
    requires Linked(edges, a, b) && Linked(edges, b, c)
    ensures Linked(edges, a, c)
  {
    var p :| IsPath(edges, p) && p[0] == a && p[|p| - 1] == b;
    var q :| IsPath(edges, q) && q[0] == b && q[|q| - 1] == c;
    var r := p + q[1..];
    forall i | 0 <= i < |r| - 1 ensures Adjacent(edges, r[i], r[i + 1]) {
      if i < |p| - 1 {
        assert Adjacent(edges, p[i], p[i + 1]);
      } else {
        assert Adjacent(edges, q[i - |p| + 1], q[i - |p| + 1 + 1]);
      }
    }
    assert IsPath(edges, r);
  }

  lemma {:induction false} LinkedMore(edges: seq<Edge>, e: Edge, a: CommitId, b: CommitId)
    requires Linked(edges, a, b)
    ensures Linked(edges + [e], a, b)
  {
    var p :| IsPath(edges, p) && p[0] == a && p[|p| - 1] == b;
    assert forall x, y :: Adjacent(edges, x, y) ==> Adjacent(edges + [e], x, y);
    assert IsPath(edges + [e], p);
  }

  lemma {:induction false} LinkedByEdge(edges: seq<Edge>, e: Edge)
    ensures Linked(edges + [e], e.0, e.1)
  {
    assert IsPath(edges + [e], [e.0, e.1]);
  }

  // The forest of parents.

  type Parents = map<CommitId, CommitId>

  /** A commit shares its parent's representative, and is further from it. */
  ghost predicate Placed(parent: Parents, top: Parents, depth: map<CommitId, nat>, n: CommitId) {
    && n in parent && n in top && n in depth
    && parent[n] in parent && parent[n] in top && parent[n] in depth
    && top[n] in parent && top[n] in top && top[top[n]] == top[n]
    && top[parent[n]] == top[n]
    && (parent[n] == n <==> top[n] == n)
    && (parent[n] != n ==> depth[parent[n]] < depth[n])
  }

  ghost predicate Forest(parent: Parents, top: Parents, depth: map<CommitId, nat>) {
    parent.Keys == top.Keys == depth.Keys && forall n <- parent.Keys :: Placed(parent, top, depth, n)
  }

  /** Commits have one representative exactly when edges link them. */
  ghost predicate Classes(top: Parents, edges: seq<Edge>) {
    && (forall a <- top.Keys, b <- top.Keys :: top[a] == top[b] <==> Linked(edges, a, b))
    && (forall i :: 0 <= i < |edges| ==> edges[i].0 in top && edges[i].1 in top)
  }

  lemma {:induction false} AddNode(parent: Parents, top: Parents, depth: map<CommitId, nat>, edges: seq<Edge>, node: CommitId)
    requires Forest(parent, top, depth) && Classes(top, edges) && node !in parent
    ensures Forest(parent[node := node], top[node := node], depth[node := 0])
    ensures Classes(top[node := node], edges)
  {
    hide Linked;
    assert forall n <- parent.Keys :: Placed(parent, top, depth, n);
    var more := parent[node := node];
    forall n | n in more.Keys ensures Placed(more, top[node := node], depth[node := 0], n) {}
    forall a | a in top ensures !Linked(edges, a, node) && !Linked(edges, node, a) {
      if Linked(edges, node, a) { LinkedBack(edges, node, a); }
      if Linked(edges, a, node) { EndsAtEdges(edges, a, node); }
    }
    LinkedToItself(edges, node);
  }

  lemma {:induction false} RootIsShallower(parent: Parents, top: Parents, depth: map<CommitId, nat>, n: CommitId)
    requires Forest(parent, top, depth) && n in parent
    ensures n in depth && n in top && top[n] in depth && (n != top[n] ==> depth[top[n]] < depth[n])
    decreases if n in depth then depth[n] else 0
  {
    assert Placed(parent, top, depth, n);
    if parent[n] != n { RootIsShallower(parent, top, depth, parent[n]); }
  }

  /** Pointing a commit at its root changes no representative. */
  lemma {:induction false} CompressNode(parent: Parents, top: Parents, depth: map<CommitId, nat>, n: CommitId)
    requires Forest(parent, top, depth) && n in parent
    ensures n in top && Forest(parent[n := top[n]], top, depth)
    ensures parent[n] in parent && parent[n] in top && top[parent[n]] == top[n]
    ensures n in depth && parent[n] in depth && (parent[n] != top[n] ==> depth[parent[n]] < depth[n])
  {
    RootIsShallower(parent, top, depth, n);
    assert Placed(parent, top, depth, n);
    var next := parent[n := top[n]];
    forall m | m in next.Keys ensures Placed(next, top, depth, m) {
      assert Placed(parent, top, depth, m);
      assert Placed(parent, top, depth, top[n]);
    }
  }

  lemma {:induction false} KnownKeys(parent: Parents, top: Parents, depth: map<CommitId, nat>)
    requires Forest(parent, top, depth)
    ensures parent.Keys == top.Keys == depth.Keys
  {}

  ghost function MergedTop(top: Parents, a: CommitId, b: CommitId): Parents {
    map n | n in top :: if top[n] == a then b else top[n]
  }

  ghost function MergedDepth(top: Parents, depth: map<CommitId, nat>, a: CommitId, b: CommitId): map<CommitId, nat>
    requires top.Keys == depth.Keys && b in depth
  {
    map n | n in depth :: if top[n] == a then depth[n] + depth[b] + 1 else depth[n]
  }

  /** Hanging one root under another joins their trees. */
  lemma {:induction false} HangRoot(parent: Parents, top: Parents, depth: map<CommitId, nat>, a: CommitId, b: CommitId)
    requires Forest(parent, top, depth) && a in top && b in top && top[a] == a && top[b] == b && a != b
    ensures Forest(parent[a := b], MergedTop(top, a, b), MergedDepth(top, depth, a, b))
  {
    var next, merged, deep := parent[a := b], MergedTop(top, a, b), MergedDepth(top, depth, a, b);
    forall n | n in next.Keys ensures Placed(next, merged, deep, n) {
      assert Placed(parent, top, depth, n) && Placed(parent, top, depth, a) && Placed(parent, top, depth, b);
      assert Placed(parent, top, depth, parent[n]);
    }
  }

  class Components {
    var parent: Parents
    ghost var edges: seq<Edge>
    ghost var top: Parents
    ghost var depth: map<CommitId, nat>

    ghost predicate Valid()
      reads this
    {
      Forest(parent, top, depth) && Classes(top, edges)
    }

    constructor ()
      ensures Valid() && edges == [] && parent == map[]
    {
      parent, edges, top, depth := map[], [], map[], map[];
    }

    /** Follows parents to the root, then points everything on the way at it;
        no commit changes its representative. */
    method Find(node: CommitId) returns (root: CommitId)
      requires Valid()
      modifies this
      ensures Valid() && edges == old(edges)
      ensures top == if node in old(top) then old(top) else old(top)[node := node]
      ensures node in top && root == top[node] && root in top && top[root] == root
    {
      hide Forest, Classes;
      KnownKeys(parent, top, depth);
      if node !in parent {
        AddNode(parent, top, depth, edges, node);
        parent, top, depth := parent[node := node], top[node := node], depth[node := 0];
      }
      root := Root(node);
      Compress(node, root);
    }

    method Root(node: CommitId) returns (root: CommitId)
      requires Forest(parent, top, depth) && node in parent
      ensures node in top && root == top[node] && root in top && top[root] == root
    {
      root := node;
      assert Placed(parent, top, depth, root);
      while parent[root] != root
        invariant Placed(parent, top, depth, root) && top[root] == top[node]
        decreases depth[root]
      {
        root := parent[root];
        assert root in parent.Keys;
      }
    }

    method Compress(node: CommitId, root: CommitId)
      requires Forest(parent, top, depth) && node in parent && node in top && root == top[node]
      modifies `parent
      ensures Forest(parent, top, depth)
    {
      hide Forest, Placed;
      var cursor := node;
      CompressNode(parent, top, depth, cursor);
      while parent[cursor] != root
        invariant Forest(parent, top, depth)
        invariant cursor in parent && cursor in top && top[cursor] == root && cursor in depth
        decreases depth[cursor]
      {
        CompressNode(parent, top, depth, cursor);
        var next := parent[cursor];
        parent := parent[cursor := root];
        cursor := next;
      }
    }

    method Union(left: CommitId, right: CommitId)
      requires Valid()
      modifies this
      ensures Valid() && edges == old(edges) + [(left, right)]
      ensures top.Keys == old(top).Keys + {left, right}
    {
      hide Forest, Classes, Linked;
      var a := Find(left);
      var b := Find(right);
      KnownKeys(parent, top, depth);
      ClassesAfter(top, edges, left, right);
      edges := edges + [(left, right)];
      if a != b {
        HangRoot(parent, top, depth, a, b);
        parent := parent[a := b];
        depth := MergedDepth(top, depth, a, b);
        top := MergedTop(top, a, b);
      } else {
        SameTop(top, a);
      }
    }
  }

  lemma {:induction false} SameTop(top: Parents, a: CommitId)
    ensures MergedTop(top, a, a) == top
  {}

  lemma {:induction false} ClassesAfter(top: Parents, edges: seq<Edge>, left: CommitId, right: CommitId)
    requires Classes(top, edges) && left in top && right in top
    ensures Classes(MergedTop(top, top[left], top[right]), edges + [(left, right)])
  {
    hide Linked;
    var merged := MergedTop(top, top[left], top[right]);
    forall x, y | x in merged && y in merged ensures merged[x] == merged[y] <==> Linked(edges + [(left, right)], x, y) {
      LinksAfter(edges, top, top.Keys, left, right, x, y);
    }
  }

  lemma {:induction false} EndsAtEdges(edges: seq<Edge>, a: CommitId, b: CommitId)
    requires Linked(edges, a, b) && a != b
    ensures exists i :: 0 <= i < |edges| && (edges[i].0 == b || edges[i].1 == b)
  {
    var p :| IsPath(edges, p) && p[0] == a && p[|p| - 1] == b;
    assert Adjacent(edges, p[|p| - 2], p[|p| - 2 + 1]);
  }

  function Merge(top: map<CommitId, CommitId>, n: CommitId, a: CommitId, b: CommitId): CommitId
    requires n in top
  {
    if top[n] == a then b else top[n]
  }

  /** After joining the classes of an edge's ends, classes are links again. */
  lemma {:induction false} LinksAfter(edges: seq<Edge>, top: map<CommitId, CommitId>, known: set<CommitId>,
    left: CommitId, right: CommitId, x: CommitId, y: CommitId)
    requires known == top.Keys && left in known && right in known && x in known && y in known
    requires forall a <- known, b <- known :: top[a] == top[b] <==> Linked(edges, a, b)
    requires forall i :: 0 <= i < |edges| ==> edges[i].0 in known && edges[i].1 in known
    ensures Merge(top, x, top[left], top[right]) == Merge(top, y, top[left], top[right]) <==>
            Linked(edges + [(left, right)], x, y)
  {
    hide Linked;
    var more := edges + [(left, right)];
    LinkedByEdge(edges, (left, right));
    LinkedBack(more, left, right);
    if Merge(top, x, top[left], top[right]) == Merge(top, y, top[left], top[right]) {
      if top[x] == top[y] {
        LinkedMore(edges, (left, right), x, y);
      } else if top[x] == top[left] {
        Across(edges, left, right, x, y);
      } else {
        Across(edges, left, right, y, x);
        LinkedBack(more, y, x);
      }
    }
    if Linked(more, x, y) {
      SameClass(edges, top, known, left, right, x, y);
    }
  }

  lemma {:induction false} Across(edges: seq<Edge>, left: CommitId, right: CommitId, x: CommitId, y: CommitId)
    requires Linked(edges, x, left) && Linked(edges, right, y)
    ensures Linked(edges + [(left, right)], x, y)
  {
    hide Linked;
    var more := edges + [(left, right)];
    LinkedMore(edges, (left, right), x, left);
    LinkedMore(edges, (left, right), right, y);
    LinkedByEdge(edges, (left, right));
    LinkedOn(more, x, left, right);
    LinkedOn(more, x, right, y);
  }

  lemma {:induction false} SameClass(edges: seq<Edge>, top: map<CommitId, CommitId>, known: set<CommitId>,
    left: CommitId, right: CommitId, x: CommitId, y: CommitId)
    requires known == top.Keys && left in known && right in known && x in known && y in known
    requires forall a <- known, b <- known :: top[a] == top[b] <==> Linked(edges, a, b)
    requires forall i :: 0 <= i < |edges| ==> edges[i].0 in known && edges[i].1 in known
    requires Linked(edges + [(left, right)], x, y)
    ensures Merge(top, x, top[left], top[right]) == Merge(top, y, top[left], top[right])
  {
    var more := edges + [(left, right)];
    var p :| IsPath(more, p) && p[0] == x && p[|p| - 1] == y;
    var i := 0;
    while i < |p| - 1
      invariant 0 <= i < |p| && p[i] in known
      invariant Merge(top, p[i], top[left], top[right]) == Merge(top, x, top[left], top[right])
    {
      assert Adjacent(more, p[i], p[i + 1]);
      EdgeClass(edges, top, known, left, right, p[i], p[i + 1]);
      i := i + 1;
    }
  }

  lemma {:induction false} EdgeClass(edges: seq<Edge>, top: map<CommitId, CommitId>, known: set<CommitId>,
    left: CommitId, right: CommitId, u: CommitId, v: CommitId)
    requires known == top.Keys && left in known && right in known
    requires forall a <- known, b <- known :: top[a] == top[b] <==> Linked(edges, a, b)
    requires forall i :: 0 <= i < |edges| ==> edges[i].0 in known && edges[i].1 in known
    requires Adjacent(edges + [(left, right)], u, v)
    ensures u in known && v in known
    ensures Merge(top, u, top[left], top[right]) == Merge(top, v, top[left], top[right])
  {
    if (u, v) in edges || (v, u) in edges {
      if (u, v) in edges {
        var i :| 0 <= i < |edges| && edges[i] == (u, v);
      } else {
        var i :| 0 <= i < |edges| && edges[i] == (v, u);
      }
      assert IsPath(edges, [u, v]);
      assert Linked(edges, u, v);
    }
  }

  // The audit.

  datatype Listed = Listed(commit: CommitId, trailers: seq<ChangeId>)

  predicate Bears(commits: seq<Listed>, c: CommitId, id: ChangeId) {
    exists i :: 0 <= i < |commits| && commits[i].commit == c && id in commits[i].trailers
  }

  predicate ListedUnder(bearers: map<ChangeId, seq<CommitId>>, id: ChangeId, c: CommitId) {
    id in bearers && c in bearers[id]
  }

  /** Which commits carry each Change-Id. */
  method CommitsByChangeId(commits: seq<Listed>) returns (bearers: map<ChangeId, seq<CommitId>>)
    ensures forall id, c :: ListedUnder(bearers, id, c) <==> Bears(commits, c, id)
    ensures forall id <- bearers :: bearers[id] != []
  {
    bearers := map[];
    for i := 0 to |commits|
      invariant Gathered(bearers, commits[..i])
    {
      var listed := commits[i];
      ghost var before := bearers;
      for j := 0 to |listed.trailers|
        invariant Extends(before, bearers, listed.commit, listed.trailers[..j])
      {
        var id := listed.trailers[j];
        var there := if id in bearers then bearers[id] else [];
        ghost var sofar := bearers;
        if listed.commit !in there {
          bearers := bearers[id := there + [listed.commit]];
        }
        ExtendOne(before, sofar, bearers, listed, j);
      }
      assert listed.trailers[..|listed.trailers|] == listed.trailers;
      GatherOne(before, bearers, commits, i);
    }
    assert commits[..|commits|] == commits;
  }

  /** `after` lists what `before` did, and the commit under each of `ids`. */
  ghost predicate Extends(before: map<ChangeId, seq<CommitId>>, after: map<ChangeId, seq<CommitId>>, commit: CommitId, ids: seq<ChangeId>) {
    && (forall id <- after :: after[id] != [])
    && forall id, c :: ListedUnder(after, id, c) <==> ListedUnder(before, id, c) || (c == commit && id in ids)
  }

  lemma {:induction false} ExtendOne(before: map<ChangeId, seq<CommitId>>, sofar: map<ChangeId, seq<CommitId>>,
    after: map<ChangeId, seq<CommitId>>, listed: Listed, j: nat)
    requires j < |listed.trailers| && Extends(before, sofar, listed.commit, listed.trailers[..j])
    requires var id := listed.trailers[j];
             var there := if id in sofar then sofar[id] else [];
             after == if listed.commit in there then sofar else sofar[id := there + [listed.commit]]
    ensures Extends(before, after, listed.commit, listed.trailers[..j + 1])
  {
    assert listed.trailers[..j + 1] == listed.trailers[..j] + [listed.trailers[j]];
    forall id, c ensures ListedUnder(after, id, c) <==>
        ListedUnder(before, id, c) || (c == listed.commit && id in listed.trailers[..j + 1]) {
      ListedMore(sofar, after, listed.trailers[j], listed.commit, id, c);
      assert id in listed.trailers[..j + 1] <==> id in listed.trailers[..j] || id == listed.trailers[j];
    }
  }

  lemma {:induction false} ListedMore(sofar: map<ChangeId, seq<CommitId>>, after: map<ChangeId, seq<CommitId>>,
    added: ChangeId, commit: CommitId, id: ChangeId, c: CommitId)
    requires var there := if added in sofar then sofar[added] else [];
             after == if commit in there then sofar else sofar[added := there + [commit]]
    ensures ListedUnder(after, id, c) <==> ListedUnder(sofar, id, c) || (id == added && c == commit)
  {
    if id != added {
      assert id in after <==> id in sofar;
    }
  }

  ghost predicate Gathered(bearers: map<ChangeId, seq<CommitId>>, commits: seq<Listed>) {
    && (forall id <- bearers :: bearers[id] != [])
    && forall id, c :: ListedUnder(bearers, id, c) <==> Bears(commits, c, id)
  }

  lemma {:induction false} GatherOne(before: map<ChangeId, seq<CommitId>>, after: map<ChangeId, seq<CommitId>>,
    commits: seq<Listed>, i: nat)
    requires i < |commits| && Gathered(before, commits[..i]) && Extends(before, after, commits[i].commit, commits[i].trailers)
    ensures Gathered(after, commits[..i + 1])
  {
    assert commits[..i + 1] == commits[..i] + [commits[i]];
    forall id, c ensures Bears(commits[..i + 1], c, id) <==>
        Bears(commits[..i], c, id) || (c == commits[i].commit && id in commits[i].trailers) {
      BearsMore(commits[..i], commits[i], c, id);
    }
  }

  lemma {:induction false} BearsMore(commits: seq<Listed>, e: Listed, c: CommitId, id: ChangeId)
    ensures Bears(commits + [e], c, id) <==> Bears(commits, c, id) || (e.commit == c && id in e.trailers)
  {
    var more := commits + [e];
    if i :| 0 <= i < |commits| && commits[i].commit == c && id in commits[i].trailers { assert more[i] == commits[i]; }
    if e.commit == c && id in e.trailers { assert more[|commits|] == e; }
    if i :| 0 <= i < |more| && more[i].commit == c && id in more[i].trailers {
      if i < |commits| { assert commits[i] == more[i]; }
    }
  }

  /** Two of some commits have no chain of edges between them. */
  ghost predicate Apart(edges: seq<Edge>, bearers: seq<CommitId>) {
    exists a, b :: a in bearers && b in bearers && !Linked(edges, a, b)
  }

  ghost predicate Collides(commits: seq<Listed>, edges: seq<Edge>, id: ChangeId) {
    exists a, b :: Bears(commits, a, id) && Bears(commits, b, id) && !Linked(edges, a, b)
  }

  /** Sorts the bearers of one Change-Id into groups by representative, and says
      whether there is more than one group. */
  method Spread(components: Components, bearers: seq<CommitId>) returns (apart: bool)
    requires components.Valid()
    modifies components
    ensures components.Valid() && components.edges == old(components.edges)
    ensures apart <==> Apart(components.edges, bearers)
  {
    hide Forest, Linked, Classes;
    var roots: set<CommitId> := {};
    for i := 0 to |bearers|
      invariant components.Valid() && components.edges == old(components.edges)
      invariant forall k :: 0 <= k < i ==> bearers[k] in components.top && components.top[bearers[k]] in roots
      invariant forall r <- roots :: exists k :: 0 <= k < i && bearers[k] in components.top && components.top[bearers[k]] == r
    {
      ghost var before := components.top;
      var root := components.Find(bearers[i]);
      forall k | 0 <= k < i ensures bearers[k] in components.top && components.top[bearers[k]] == before[bearers[k]] {}
      roots := roots + {root};
    }
    apart := |roots| > 1;
    ApartIffUnlinked(components.top, components.edges, bearers, roots);
  }

  lemma {:induction false} ApartIffUnlinked(top: Parents, edges: seq<Edge>, bearers: seq<CommitId>, roots: set<CommitId>)
    requires Classes(top, edges)
    requires forall k :: 0 <= k < |bearers| ==> bearers[k] in top && top[bearers[k]] in roots
    requires forall r <- roots :: exists k :: 0 <= k < |bearers| && bearers[k] in top && top[bearers[k]] == r
    ensures |roots| > 1 <==> Apart(edges, bearers)
  {
    hide Linked;
    if |roots| > 1 {
      var r :| r in roots;
      assert |roots - {r}| > 0;
      var t :| t in roots - {r};
      var i :| 0 <= i < |bearers| && bearers[i] in top && top[bearers[i]] == r;
      var j :| 0 <= j < |bearers| && bearers[j] in top && top[bearers[j]] == t;
      assert !Linked(edges, bearers[i], bearers[j]);
    }
    if a, b :| a in bearers && b in bearers && !Linked(edges, a, b) {
      var i :| 0 <= i < |bearers| && bearers[i] == a;
      var j :| 0 <= j < |bearers| && bearers[j] == b;
      assert top[a] != top[b];
      assert {top[a], top[b]} <= roots;
      Larger({top[a], top[b]}, roots);
    }
  }

  lemma {:induction false} Larger(small: set<CommitId>, large: set<CommitId>)
    requires small <= large
    ensures |small| <= |large|
  {
    assert large == small + (large - small);
  }

  /** A Change-Id collides exactly when two of its bearers are not linked by any
      chain of recorded identity-preserving applications. */
  method AuditCollisions(commits: seq<Listed>, records: seq<Application>) returns (collisions: set<ChangeId>)
    ensures forall id :: id in collisions <==> Collides(commits, IdentityPreservingEdges(records), id)
  {
    hide Linked, Forest, Classes, Apart, Collides, Bears;
    var edges := IdentityPreservingEdges(records);
    var components := new Components();
    for i := 0 to |edges|
      invariant components.Valid() && components.edges == edges[..i] && fresh(components)
    {
      components.Union(edges[i].0, edges[i].1);
    }
    assert edges[..|edges|] == edges;
    var bearers := CommitsByChangeId(commits);
    collisions := {};
    var rest := bearers.Keys;
    while rest != {}
      invariant rest <= bearers.Keys && collisions !! rest && collisions <= bearers.Keys
      invariant components.Valid() && components.edges == edges && fresh(components)
      invariant forall id <- bearers.Keys - rest :: id in collisions <==> Apart(edges, bearers[id])
      decreases |rest|
    {
      var id :| id in rest;
      rest := rest - {id};
      var apart := Spread(components, bearers[id]);
      if |bearers[id]| >= 2 && apart {
        collisions := collisions + {id};
      } else if apart {
        OneIsLinked(edges, bearers[id]);
      }
    }
    forall id ensures id in collisions <==> Collides(commits, edges, id) {
      if Collides(commits, edges, id) { Separates(commits, edges, bearers, id); }
      if id in bearers { Separates(commits, edges, bearers, id); }
    }
  }

  lemma {:induction false} Separates(commits: seq<Listed>, edges: seq<Edge>, bearers: map<ChangeId, seq<CommitId>>, id: ChangeId)
    requires forall id, c :: ListedUnder(bearers, id, c) <==> Bears(commits, c, id)
    ensures Collides(commits, edges, id) <==> id in bearers && Apart(edges, bearers[id])
  {
    hide Linked, Bears;
  }

  lemma {:induction false} OneIsLinked(edges: seq<Edge>, bearers: seq<CommitId>)
    requires |bearers| < 2
    ensures !Apart(edges, bearers)
  {
    forall a, b | a in bearers && b in bearers ensures Linked(edges, a, b) { LinkedToItself(edges, a); }
  }
}
