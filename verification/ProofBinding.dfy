/** Checking a proof bundle without the repository it speaks of: every
    conclusion rests on object ids recomputed from carried bytes. */
module ProofBinding {
  import opened Git
  import opened RebaseTopology
  import opened MergePlan

  type Oid = CommitId
  type Text = nat

  datatype Kind = CommitKind | TreeKind | BlobKind

  /** Raw object bytes under their type. */
  datatype Raw = Raw(kind: Kind, bytes: nat)

  datatype ParsedCommit = ParsedCommit(tree: Option<Oid>, parents: seq<Oid>, changeId: Option<ChangeId>, subject: Text)

  /** How ids are computed and commits are read. `idOf` is the identity a commit
      without a Change-Id has from its own id. */
  datatype Format = Format(hash: Raw -> Oid, commit: nat -> ParsedCommit, idOf: Oid -> ChangeId)

  ghost predicate CollisionFree(f: Format) {
    forall a, b :: f.hash(a) == f.hash(b) ==> a == b
  }

  datatype Change = Change(commit: Oid, changeId: ChangeId, subject: Text, status: Status, proof: Proof)

  datatype PathClaim = PathClaim(subject: Oid, from: Oid, to: Oid, commits: seq<Oid>)

  datatype Bundle = Bundle(
    objects: map<Oid, Raw>,
    targetHead: Oid, sourceHead: Oid, physicalBase: Oid,
    inventory: seq<Oid>,
    changes: seq<Change>,
    paths: seq<PathClaim>,
    attachments: set<Oid>)

  type Carried = map<Oid, Raw>

  function CommitAt(f: Format, carried: Carried, oid: Oid): Option<ParsedCommit> {
    if oid in carried && carried[oid].kind == CommitKind then Some(f.commit(carried[oid].bytes)) else None
  }

  ghost predicate Hashed(f: Format, carried: Carried) {
    forall o <- carried :: f.hash(carried[o]) == o
  }

  function Identity(f: Format, oid: Oid, c: ParsedCommit): ChangeId {
    if c.changeId.Some? then c.changeId.value else f.idOf(oid)
  }

  /** Keeps the objects whose bytes hash to the id they are carried under. */
  method CheckObjects(f: Format, objects: map<Oid, Raw>) returns (carried: Carried, problems: nat)
    ensures Hashed(f, carried) && carried.Keys <= objects.Keys && forall o <- carried :: carried[o] == objects[o]
    ensures problems == 0 <==> Hashed(f, objects)
    ensures problems == 0 ==> carried == objects
  {
    carried, problems := map[], 0;
    var rest := objects.Keys;
    while rest != {}
      invariant rest <= objects.Keys && carried.Keys <= objects.Keys - rest
      invariant forall o <- carried :: carried[o] == objects[o] && f.hash(objects[o]) == o
      invariant problems == 0 <==> forall o <- objects.Keys - rest :: f.hash(objects[o]) == o
      invariant problems == 0 ==> carried.Keys == objects.Keys - rest
      decreases |rest|
    {
      var o :| o in rest;
      rest := rest - {o};
      if f.hash(objects[o]) != o {
        problems := problems + 1;
      } else {
        carried := carried[o := objects[o]];
      }
    }
  }

  // The inventory walk.

  /** A chain of carried parent links from the source head that does not pass
      through the base. */
  ghost predicate WalkPath(f: Format, carried: Carried, head: Oid, base: Oid, p: seq<Oid>) {
    && p != [] && p[0] == head
    && forall i :: 0 <= i < |p| - 1 ==> WalkLink(f, carried, base, p[i], p[i + 1])
  }

  ghost predicate WalkLink(f: Format, carried: Carried, base: Oid, a: Oid, b: Oid) {
    a != base && CommitAt(f, carried, a).Some? && b in CommitAt(f, carried, a).value.parents
  }

  ghost predicate Walked(f: Format, carried: Carried, head: Oid, base: Oid, o: Oid) {
    exists p :: WalkPath(f, carried, head, base, p) && p[|p| - 1] == o
  }

  lemma {:induction false} WalkOn(f: Format, carried: Carried, head: Oid, base: Oid, a: Oid, b: Oid)
    requires Walked(f, carried, head, base, a) && WalkLink(f, carried, base, a, b)
    ensures Walked(f, carried, head, base, b)
  {
    var p :| WalkPath(f, carried, head, base, p) && p[|p| - 1] == a;
    var q := p + [b];
    forall i | 0 <= i < |q| - 1 ensures WalkLink(f, carried, base, q[i], q[i + 1]) {
      if i < |p| - 1 { assert WalkLink(f, carried, base, p[i], p[i + 1]); }
    }
    assert WalkPath(f, carried, head, base, q);
  }

  /** A set that holds the head and every parent of its members holds all that
      is walked. */
  lemma {:induction false} ClosedHoldsWalked(f: Format, carried: Carried, head: Oid, base: Oid, closed: set<Oid>, o: Oid)
    requires head in closed && Walked(f, carried, head, base, o)
    requires forall a, b :: a in closed && WalkLink(f, carried, base, a, b) ==> b in closed
    ensures o in closed
  {
    var p :| WalkPath(f, carried, head, base, p) && p[|p| - 1] == o;
    var i := 0;
    while i < |p| - 1
      invariant 0 <= i < |p| && p[i] in closed
    {
      assert WalkLink(f, carried, base, p[i], p[i + 1]);
      i := i + 1;
    }
  }

  function ParentsIn(f: Format, carried: Carried): set<Oid> {
    set o, i | o in carried && carried[o].kind == CommitKind && 0 <= i < |f.commit(carried[o].bytes).parents|
      :: f.commit(carried[o].bytes).parents[i]
  }

  /** Walks parents from the source head down to the base. */
  method Walk(f: Format, carried: Carried, head: Oid, base: Oid) returns (visited: set<Oid>, missing: nat)
    ensures forall o :: o in visited <==> Walked(f, carried, head, base, o)
    ensures missing == 0 <==> AllCarried(f, carried, base, visited)
  {
    hide CommitAt, Walked, Walking, AllCarried, ParentsIn;
    visited, missing := {}, 0;
    var queue := [head];
    ghost var universe := {head} + ParentsIn(f, carried);
    WalkStarts(f, carried, head, base, universe);
    while queue != []
      invariant Walking(f, carried, head, base, universe, visited, queue)
      invariant missing == 0 <==> AllCarried(f, carried, base, visited)
      decreases |universe - visited|, |queue|
    {
      var oid := queue[0];
      var commit := CommitAt(f, carried, oid);
      var parents := if oid == base || commit.None? then [] else commit.value.parents;
      WalkStep(f, carried, head, base, universe, visited, queue, parents);
      queue := queue[1..];
      if oid !in visited {
        Shrinks(universe, visited, oid);
        OneMore(f, carried, base, visited, oid);
        visited := visited + {oid};
        if oid != base && commit.None? { missing := missing + 1; }
        queue := queue + parents;
      }
    }
    WalkEnds(f, carried, head, base, universe, visited);
  }

  ghost predicate AllCarried(f: Format, carried: Carried, base: Oid, visited: set<Oid>) {
    forall o <- visited :: o == base || CommitAt(f, carried, o).Some?
  }

  lemma {:induction false} OneMore(f: Format, carried: Carried, base: Oid, visited: set<Oid>, o: Oid)
    ensures AllCarried(f, carried, base, visited + {o}) <==>
            AllCarried(f, carried, base, visited) && (o == base || CommitAt(f, carried, o).Some?)
  {}

  lemma {:induction false} WalkStarts(f: Format, carried: Carried, head: Oid, base: Oid, universe: set<Oid>)
    requires head in universe
    ensures Walking(f, carried, head, base, universe, {}, [head])
    ensures AllCarried(f, carried, base, {})
  {
    HeadIsWalked(f, carried, head, base);
  }

  ghost predicate Walking(f: Format, carried: Carried, head: Oid, base: Oid, universe: set<Oid>, visited: set<Oid>, queue: seq<Oid>) {
    && (forall o <- visited :: Walked(f, carried, head, base, o) && o in universe)
    && (forall o <- queue :: Walked(f, carried, head, base, o) && o in universe)
    && (head in visited || head in queue)
    && (forall a, b :: a in visited && WalkLink(f, carried, base, a, b) ==> b in visited || b in queue)
  }

  lemma {:induction false} WalkStep(f: Format, carried: Carried, head: Oid, base: Oid, universe: set<Oid>, visited: set<Oid>,
    queue: seq<Oid>, parents: seq<Oid>)
    requires queue != [] && Walking(f, carried, head, base, universe, visited, queue)
    requires universe == {head} + ParentsIn(f, carried)
    requires queue[0] !in visited ==>
               parents == if queue[0] == base || CommitAt(f, carried, queue[0]).None? then []
                          else CommitAt(f, carried, queue[0]).value.parents
    ensures queue[0] in universe
    ensures queue[0] in visited ==> Walking(f, carried, head, base, universe, visited, queue[1..])
    ensures queue[0] !in visited ==> Walking(f, carried, head, base, universe, visited + {queue[0]}, queue[1..] + parents)
    ensures queue[0] !in visited && parents == [] ==> Walking(f, carried, head, base, universe, visited + {queue[0]}, queue[1..])
  {
    hide Walked;
    var oid := queue[0];
    assert oid in queue && queue == [oid] + queue[1..];
    if oid !in visited && parents != [] {
      ParentsAreKnown(f, carried, oid);
      forall b | b in parents ensures Walked(f, carried, head, base, b) {
        WalkOn(f, carried, head, base, oid, b);
      }
    }
    assert queue[1..] + [] == queue[1..];
  }

  lemma {:induction false} WalkEnds(f: Format, carried: Carried, head: Oid, base: Oid, universe: set<Oid>, visited: set<Oid>)
    requires Walking(f, carried, head, base, universe, visited, [])
    ensures forall o :: o in visited <==> Walked(f, carried, head, base, o)
  {
    hide Walked, WalkLink;
    forall o | Walked(f, carried, head, base, o) ensures o in visited {
      ClosedHoldsWalked(f, carried, head, base, visited, o);
    }
  }

  lemma {:induction false} Shrinks(universe: set<Oid>, visited: set<Oid>, o: Oid)
    requires o in universe && o !in visited
    ensures |universe - (visited + {o})| < |universe - visited|
  {
    assert universe - (visited + {o}) == (universe - visited) - {o};
  }

  lemma {:induction false} ParentsAreKnown(f: Format, carried: Carried, o: Oid)
    requires CommitAt(f, carried, o).Some?
    ensures forall b <- CommitAt(f, carried, o).value.parents :: b in ParentsIn(f, carried)
  {}

  // The inventory check.

  function ChangeCommits(changes: seq<Change>): (r: seq<Oid>)
    ensures |r| == |changes|
  {
    seq(|changes|, i requires 0 <= i < |changes| => changes[i].commit)
  }

  predicate Identified(f: Format, carried: Carried, c: Change) {
    var commit := CommitAt(f, carried, c.commit);
    commit.Some? && c.changeId == Identity(f, c.commit, commit.value) && c.subject == commit.value.subject
  }

  ghost predicate InventoryHolds(f: Format, carried: Carried, b: Bundle) {
    && b.inventory == ChangeCommits(b.changes)
    && Walked(f, carried, b.sourceHead, b.physicalBase, b.physicalBase)
    && (forall o :: Walked(f, carried, b.sourceHead, b.physicalBase, o) && o != b.physicalBase ==> CommitAt(f, carried, o).Some?)
    && (forall o <- b.inventory :: Walked(f, carried, b.sourceHead, b.physicalBase, o) && o != b.physicalBase)
    && (b.sourceHead == b.physicalBase || b.sourceHead in b.inventory)
    && (forall i :: 0 <= i < |b.changes| ==> Identified(f, carried, b.changes[i]))
  }

  method VerifyInventory(f: Format, carried: Carried, b: Bundle) returns (problems: nat)
    ensures problems == 0 <==> InventoryHolds(f, carried, b)
  {
    hide Walked, CommitAt, Identity;
    problems := if b.inventory == ChangeCommits(b.changes) then 0 else 1;
    var visited, missing := Walk(f, carried, b.sourceHead, b.physicalBase);
    problems := problems + missing;
    if b.physicalBase !in visited { problems := problems + 1; }
    var walked := visited - {b.physicalBase};
    var absent := CountAbsent(b.inventory, walked);
    problems := problems + absent;
    if b.sourceHead in walked && b.sourceHead !in b.inventory { problems := problems + 1; }
    HeadIsWalked(f, carried, b.sourceHead, b.physicalBase);
    var misnamed := CountMisnamed(f, carried, b.changes);
    problems := problems + misnamed;
  }

  lemma {:induction false} HeadIsWalked(f: Format, carried: Carried, head: Oid, base: Oid)
    ensures Walked(f, carried, head, base, head)
  {
    assert WalkPath(f, carried, head, base, [head]);
  }

  method CountAbsent(claimed: seq<Oid>, walked: set<Oid>) returns (n: nat)
    ensures n == 0 <==> forall o <- claimed :: o in walked
  {
    n := 0;
    for i := 0 to |claimed|
      invariant n == 0 <==> forall o <- claimed[..i] :: o in walked
    {
      assert claimed[..i + 1] == claimed[..i] + [claimed[i]];
      if claimed[i] !in walked { n := n + 1; }
    }
    assert claimed[..|claimed|] == claimed;
  }

  method CountMisnamed(f: Format, carried: Carried, changes: seq<Change>) returns (n: nat)
    ensures n == 0 <==> forall i :: 0 <= i < |changes| ==> Identified(f, carried, changes[i])
  {
    n := 0;
    for i := 0 to |changes|
      invariant n == 0 <==> forall j :: 0 <= j < i ==> Identified(f, carried, changes[j])
    {
      var commit := CommitAt(f, carried, changes[i].commit);
      if commit.None? {
        n := n + 1;
        continue;
      }
      if changes[i].changeId != Identity(f, changes[i].commit, commit.value) { n := n + 1; }
      if changes[i].subject != commit.value.subject { n := n + 1; }
    }
  }

  // Coverage.

  ghost predicate ChainHolds(f: Format, carried: Carried, chain: seq<Oid>) {
    && chain != []
    && forall i :: 0 <= i < |chain| - 1 ==>
         CommitAt(f, carried, chain[i]).Some? && chain[i + 1] in CommitAt(f, carried, chain[i]).value.parents
  }

  /** A path of real links from the target head to a carried commit. */
  ghost predicate Runs(f: Format, carried: Carried, b: Bundle, p: PathClaim) {
    && p.from == b.targetHead && ChainHolds(f, carried, p.commits)
    && p.commits[0] == p.from && p.commits[|p.commits| - 1] == p.to
    && CommitAt(f, carried, p.to).Some?
  }

  /** A path that runs to a commit that bears the claim out. */
  ghost predicate Bears(f: Format, carried: Carried, b: Bundle, c: Change, p: PathClaim) {
    && Runs(f, carried, b, p)
    && match c.proof
       case CommitAncestry => p.to == c.commit
       case StableChangeId => Identity(f, p.to, CommitAt(f, carried, p.to).value) == c.changeId
       case _ => p.to in b.attachments
  }

  /** A path that raises a problem. One that runs, but not to the commit of an
      ancestry claim, is passed over without one. */
  ghost predicate Complains(f: Format, carried: Carried, b: Bundle, c: Change, p: PathClaim) {
    !Bears(f, carried, b, c, p) && !(c.proof == CommitAncestry && Runs(f, carried, b, p))
  }

  ghost predicate Proven(f: Format, carried: Carried, b: Bundle, c: Change) {
    exists p :: p in b.paths && p.subject == c.commit && Bears(f, carried, b, c, p)
  }

  /** Whether no path of a change before the `n`-th bears it out. */
  ghost predicate NoneBefore(f: Format, carried: Carried, b: Bundle, c: Change, n: nat) {
    forall k :: 0 <= k < n && k < |b.paths| && b.paths[k].subject == c.commit ==> !Bears(f, carried, b, c, b.paths[k])
  }

  /** A covered change raises no problem: it has a path, and none that is looked
      at before one bears it out complains. */
  ghost predicate Quiet(f: Format, carried: Carried, b: Bundle, c: Change) {
    && (exists j :: 0 <= j < |b.paths| && b.paths[j].subject == c.commit)
    && forall j :: 0 <= j < |b.paths| && b.paths[j].subject == c.commit && NoneBefore(f, carried, b, c, j) ==>
         !Complains(f, carried, b, c, b.paths[j])
  }

  method PathHolds(f: Format, carried: Carried, b: Bundle, c: Change, p: PathClaim) returns (holds: bool, problems: nat)
    ensures holds <==> Bears(f, carried, b, c, p)
    ensures problems == 0 <==> !Complains(f, carried, b, c, p)
  {
    if p.from != b.targetHead { return false, 1; }
    var chain := p.commits;
    if chain == [] || chain[0] != p.from || chain[|chain| - 1] != p.to { return false, 1; }
    for index := 0 to |chain| - 1
      invariant forall i :: 0 <= i < index ==>
                  CommitAt(f, carried, chain[i]).Some? && chain[i + 1] in CommitAt(f, carried, chain[i]).value.parents
    {
      var commit := CommitAt(f, carried, chain[index]);
      if commit.None? || chain[index + 1] !in commit.value.parents { return false, 1; }
    }
    var end := CommitAt(f, carried, p.to);
    if end.None? { return false, 1; }
    match c.proof
    case CommitAncestry => return p.to == c.commit, 0;
    case StableChangeId =>
      holds := Identity(f, p.to, end.value) == c.changeId;
      problems := if holds then 0 else 1;
    case _ =>
      holds := p.to in b.attachments;
      problems := if holds then 0 else 1;
  }

  /** Which covered changes are proven, each by the first carried path that holds,
      and how many problems that raised. */
  method VerifyCoverage(f: Format, carried: Carried, b: Bundle) returns (proven: seq<bool>, problems: nat)
    ensures |proven| == |b.changes|
    ensures forall i :: 0 <= i < |b.changes| ==>
              (proven[i] <==> b.changes[i].status == Covered && Proven(f, carried, b, b.changes[i]))
    ensures problems == 0 <==> forall i :: 0 <= i < |b.changes| && b.changes[i].status == Covered ==> Quiet(f, carried, b, b.changes[i])
  {
    hide Bears, Complains, Quiet, Proven;
    proven, problems := [], 0;
    for i := 0 to |b.changes|
      invariant |proven| == i
      invariant forall k :: 0 <= k < i ==>
                  (proven[k] <==> b.changes[k].status == Covered && Proven(f, carried, b, b.changes[k]))
      invariant problems == 0 <==> forall k :: 0 <= k < i && b.changes[k].status == Covered ==> Quiet(f, carried, b, b.changes[k])
    {
      var c := b.changes[i];
      var valid := false;
      if c.status == Covered {
        var raised;
        valid, raised := SomePathHolds(f, carried, b, c);
        problems := problems + raised;
      }
      proven := proven + [valid];
    }
  }

  method SomePathHolds(f: Format, carried: Carried, b: Bundle, c: Change) returns (valid: bool, problems: nat)
    ensures valid <==> Proven(f, carried, b, c)
    ensures problems == 0 <==> Quiet(f, carried, b, c)
  {
    hide Bears, Complains;
    problems := 0;
    var candidates := 0;
    for j := 0 to |b.paths|
      invariant NoneBefore(f, carried, b, c, j)
      invariant candidates == 0 <==> forall k :: 0 <= k < j ==> b.paths[k].subject != c.commit
      invariant problems == 0 <==> forall k :: 0 <= k < j && b.paths[k].subject == c.commit ==> !Complains(f, carried, b, c, b.paths[k])
    {
      if b.paths[j].subject == c.commit {
        candidates := candidates + 1;
        var holds, raised := PathHolds(f, carried, b, c, b.paths[j]);
        problems := problems + raised;
        if holds {
          LaterOnesAreNotReached(f, carried, b, c, j);
          return true, problems;
        }
      }
    }
    if candidates == 0 { problems := problems + 1; }
    valid := false;
  }

  lemma {:induction false} LaterOnesAreNotReached(f: Format, carried: Carried, b: Bundle, c: Change, j: nat)
    requires j < |b.paths| && b.paths[j].subject == c.commit && Bears(f, carried, b, c, b.paths[j]) && NoneBefore(f, carried, b, c, j)
    ensures Quiet(f, carried, b, c) <==>
            forall k :: 0 <= k < j && b.paths[k].subject == c.commit ==> !Complains(f, carried, b, c, b.paths[k])
  {
    hide Runs;
    forall k | 0 <= k < |b.paths| && b.paths[k].subject == c.commit ensures NoneBefore(f, carried, b, c, k) <==> k <= j {}
  }

  /** A change that raises no problem is proven, but for an ancestry claim whose
      paths all run elsewhere. */
  lemma {:induction false} QuietIsProvenIff(f: Format, carried: Carried, b: Bundle, c: Change)
    requires Quiet(f, carried, b, c)
    ensures Proven(f, carried, b, c) <==>
            !(c.proof == CommitAncestry &&
              forall j :: 0 <= j < |b.paths| && b.paths[j].subject == c.commit ==> b.paths[j].to != c.commit || !Runs(f, carried, b, b.paths[j]))
  {
    if !Proven(f, carried, b, c) {
      forall j | 0 <= j < |b.paths| && b.paths[j].subject == c.commit ensures !Bears(f, carried, b, c, b.paths[j]) {
        assert b.paths[j] in b.paths;
      }
      var j :| 0 <= j < |b.paths| && b.paths[j].subject == c.commit;
      assert NoneBefore(f, carried, b, c, j);
    }
  }

  // What a clean verdict means.

  /** A repository: every object is stored under its own id, with its parents. */
  ghost predicate Repository(f: Format, repo: map<Oid, Raw>) {
    && Hashed(f, repo)
    && forall o <- repo :: repo[o].kind == CommitKind ==> forall p <- f.commit(repo[o].bytes).parents :: p in repo && repo[p].kind == CommitKind
  }

  ghost function RealHistory(f: Format, repo: map<Oid, Raw>): History {
    map o | o in repo && repo[o].kind == CommitKind :: f.commit(repo[o].bytes).parents
  }

  /** What is carried under an id the repository knows is what it holds there. */
  lemma {:induction false} CarriedIsReal(f: Format, repo: map<Oid, Raw>, carried: Carried, o: Oid)
    requires CollisionFree(f) && Hashed(f, repo) && Hashed(f, carried) && o in repo && o in carried
    ensures carried[o] == repo[o]
  {}

  lemma {:induction false} ChainIsReal(f: Format, repo: map<Oid, Raw>, carried: Carried, chain: seq<Oid>)
    requires CollisionFree(f) && Repository(f, repo) && Hashed(f, carried)
    requires ChainHolds(f, carried, chain) && chain[0] in RealHistory(f, repo)
    ensures Reachable(RealHistory(f, repo), chain[0], chain[|chain| - 1])
    ensures chain[|chain| - 1] in RealHistory(f, repo)
  {
    var h := RealHistory(f, repo);
    var i := 0;
    while i < |chain| - 1
      invariant 0 <= i < |chain| && chain[i] in h
      invariant forall j :: 0 <= j < i ==> chain[j] in h && chain[j + 1] in h[chain[j]]
    {
      CarriedIsReal(f, repo, carried, chain[i]);
      i := i + 1;
    }
    assert IsPath(h, chain);
  }

  /** Whatever a producer put in a bundle: a change proven by ancestry is an
      ancestor of the target head, and one proven by a stable id has an ancestor
      of the target head that really carries that id, in its message or, without a
      trailer there, as the id its own object id stands for. */
  lemma {:induction false} ProvenCoverageIsReal(f: Format, repo: map<Oid, Raw>, carried: Carried, b: Bundle, c: Change, p: PathClaim)
    requires CollisionFree(f) && Repository(f, repo) && Hashed(f, carried) && b.targetHead in RealHistory(f, repo)
    requires Bears(f, carried, b, c, p)
    ensures var h := RealHistory(f, repo);
            && (c.proof == CommitAncestry ==> IsAncestor(h, c.commit, b.targetHead))
            && (c.proof == StableChangeId ==>
                  exists o :: IsAncestor(h, o, b.targetHead) && o in repo && repo[o].kind == CommitKind &&
                              var declared := f.commit(repo[o].bytes).changeId;
                              if declared.Some? then declared.value == c.changeId else f.idOf(o) == c.changeId)
  {
    ChainIsReal(f, repo, carried, p.commits);
    CarriedIsReal(f, repo, carried, p.to);
  }

  lemma {:induction false} WalkIsChain(f: Format, carried: Carried, head: Oid, base: Oid, p: seq<Oid>)
    requires WalkPath(f, carried, head, base, p)
    ensures ChainHolds(f, carried, p)
  {
    forall i | 0 <= i < |p| - 1
      ensures CommitAt(f, carried, p[i]).Some? && p[i + 1] in CommitAt(f, carried, p[i]).value.parents
    {
      assert WalkLink(f, carried, base, p[i], p[i + 1]);
    }
  }

  /** ... and every commit of an inventory that holds is an ancestor of the
      source head whose own bytes give the stated identity and subject. */
  lemma {:induction false} InventoryIsReal(f: Format, repo: map<Oid, Raw>, carried: Carried, b: Bundle, i: nat)
    requires CollisionFree(f) && Repository(f, repo) && Hashed(f, carried) && b.sourceHead in RealHistory(f, repo)
    requires InventoryHolds(f, carried, b) && i < |b.changes|
    ensures var c := b.changes[i];
            && IsAncestor(RealHistory(f, repo), c.commit, b.sourceHead)
            && c.commit in repo && repo[c.commit].kind == CommitKind
            && var parsed := f.commit(repo[c.commit].bytes);
               && c.subject == parsed.subject
               && if parsed.changeId.Some? then c.changeId == parsed.changeId.value else c.changeId == f.idOf(c.commit)
  {
    var c := b.changes[i];
    assert ChangeCommits(b.changes)[i] == c.commit;
    assert c.commit in b.inventory;
    var p :| WalkPath(f, carried, b.sourceHead, b.physicalBase, p) && p[|p| - 1] == c.commit;
    WalkIsChain(f, carried, b.sourceHead, b.physicalBase, p);
    ChainIsReal(f, repo, carried, p);
    assert Identified(f, carried, c);
    CarriedIsReal(f, repo, carried, c.commit);
  }

  // What an inventory that holds may leave out.

  function Members(list: seq<Oid>): set<Oid> {
    set o | o in list
  }

  predicate NoRepeats(list: seq<Oid>) {
    forall i, j :: 0 <= i < j < |list| ==> list[i] != list[j]
  }

  ghost predicate AllListed(f: Format, carried: Carried, b: Bundle) {
    forall o :: Walked(f, carried, b.sourceHead, b.physicalBase, o) && o != b.physicalBase ==> o in b.inventory
  }

  lemma {:induction false} MembersOfDistinct(list: seq<Oid>)
    requires NoRepeats(list)
    ensures |Members(list)| == |list|
  {
    if list != [] {
      var rest, last := list[..|list| - 1], list[|list| - 1];
      assert list == rest + [last];
      MembersOfDistinct(rest);
      assert Members(list) == Members(rest) + {last};
    }
  }

  lemma {:induction false} SubsetOfSameSize(small: set<Oid>, large: set<Oid>)
    requires small <= large
    ensures |small| <= |large| && (|small| == |large| <==> small == large)
  {
    assert |large - small| == |large| - |small|;
    if |small| == |large| { assert large - small == {}; }
  }

  /** Given an inventory that holds, everything walked above the base is listed if
      and only if the list has as many members as commits were visited, the base
      aside. A list without repetitions has as many members as entries. */
  lemma {:induction false} InventoryIsCompleteIff(f: Format, carried: Carried, b: Bundle, visited: set<Oid>)
    requires InventoryHolds(f, carried, b)
    requires forall o :: o in visited <==> Walked(f, carried, b.sourceHead, b.physicalBase, o)
    ensures AllListed(f, carried, b) <==> |visited| - 1 == |Members(b.inventory)|
    ensures NoRepeats(b.inventory) ==> |Members(b.inventory)| == |b.inventory|
  {
    hide Walked, CommitAt, Identified;
    var walked := visited - {b.physicalBase};
    assert |walked| == |visited| - 1;
    assert Members(b.inventory) <= walked;
    SubsetOfSameSize(Members(b.inventory), walked);
    assert AllListed(f, carried, b) <==> walked <= Members(b.inventory) by {
      forall o ensures o in walked <==> Walked(f, carried, b.sourceHead, b.physicalBase, o) && o != b.physicalBase {}
    }
    if NoRepeats(b.inventory) { MembersOfDistinct(b.inventory); }
  }

  /** A linear history of three commits, 3 <- 6 <- 9, under ids no two objects share. */
  const OMITTING_FORMAT := Format(
    (r: Raw) => r.bytes * 3 + (if r.kind == CommitKind then 0 else if r.kind == TreeKind then 1 else 2),
    (n: nat) => ParsedCommit(None, if n == 3 then [6] else if n == 2 then [3] else [], Some(n), 0),
    (o: Oid) => o)
  const OMITTING_OBJECTS: Carried := map[3 := Raw(CommitKind, 1), 6 := Raw(CommitKind, 2), 9 := Raw(CommitKind, 3)]
  const OMITTING_BUNDLE := Bundle(OMITTING_OBJECTS, 12, 9, 3, [9], [Change(9, 3, 0, New, NoProof)], [], {})

  /** The inventory check does not prove completeness: commit 6 is walked and
      neither listed nor the source head, and nothing is reported. */
  lemma {:induction false} InventoryMayOmit()
    ensures CollisionFree(OMITTING_FORMAT) && Hashed(OMITTING_FORMAT, OMITTING_OBJECTS)
    ensures InventoryHolds(OMITTING_FORMAT, OMITTING_OBJECTS, OMITTING_BUNDLE)
    ensures Walked(OMITTING_FORMAT, OMITTING_OBJECTS, 9, 3, 6) && 6 !in OMITTING_BUNDLE.inventory
  {
    var f, carried, b := OMITTING_FORMAT, OMITTING_OBJECTS, OMITTING_BUNDLE;
    assert CommitAt(f, carried, 9) == Some(ParsedCommit(None, [6], Some(3), 0));
    assert CommitAt(f, carried, 6) == Some(ParsedCommit(None, [3], Some(2), 0));
    HeadIsWalked(f, carried, 9, 3);
    WalkOn(f, carried, 9, 3, 9, 6);
    WalkOn(f, carried, 9, 3, 6, 3);
    forall o | Walked(f, carried, 9, 3, o) ensures o in {3, 6, 9} {
      ClosedHoldsWalked(f, carried, 9, 3, {3, 6, 9}, o);
    }
    assert Identified(f, carried, b.changes[0]);
  }
}
