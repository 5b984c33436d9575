/** Keeping objects alive: retention commits whose parents and tree name every
    object a published record depends on. */
module GitCarriers {
  import opened Git
  import opened NoteRecords

  /** A commit the retention ref can reach. Objects are content addressed, so a
      carrier is known by its tree and its parents. */
  datatype Carrier =
    | Leaf(oid: Oid)
    | Carrier(tree: set<Oid>, parents: seq<Carrier>)

  const MAX_PARENTS := 64

  /** Every object reachable from a carrier. */
  function Reach(c: Carrier): set<Oid>
    decreases c, 0
  {
    match c
    case Leaf(oid) => {oid}
    case Carrier(tree, parents) => tree + ReachAll(parents)
  }

  function ReachAll(cs: seq<Carrier>): set<Oid>
    decreases cs, 0
  {
    if cs == [] then {} else Reach(cs[0]) + ReachAll(cs[1..])
  }

  ghost predicate Ancestor(a: Carrier, c: Carrier)
    decreases c
  {
    a == c || (c.Carrier? && exists p <- c.parents :: Ancestor(a, p))
  }

  /** Every commit from `c` down to the commits it was built over names at most
      64 parents. */
  ghost predicate Narrow(c: Carrier, over: seq<Carrier>)
    decreases c
  {
    c in over || (c.Carrier? && |c.parents| <= MAX_PARENTS && forall p <- c.parents :: Narrow(p, over))
  }

  lemma {:induction false} ReachAllContains(cs: seq<Carrier>)
    ensures forall x :: x in ReachAll(cs) <==> exists i :: 0 <= i < |cs| && x in Reach(cs[i])
  {
    if cs != [] {
      ReachAllContains(cs[1..]);
      forall x ensures x in ReachAll(cs) <==> exists i :: 0 <= i < |cs| && x in Reach(cs[i]) {
        if x in ReachAll(cs[1..]) {
          var i :| 0 <= i < |cs[1..]| && x in Reach(cs[1..][i]);
          assert x in Reach(cs[i + 1]);
        }
        if i :| 0 <= i < |cs| && x in Reach(cs[i]) {
          if i > 0 { assert x in Reach(cs[1..][i - 1]); }
        }
      }
    }
  }

  /** The first occurrence of each element. */
  method Distinct(parents: seq<Carrier>) returns (r: seq<Carrier>)
    ensures forall c :: c in r <==> c in parents
    ensures forall i, j :: 0 <= i < j < |r| ==> r[i] != r[j]
  {
    r := [];
    for i := 0 to |parents|
      invariant forall c :: c in r <==> c in parents[..i]
      invariant forall i, j :: 0 <= i < j < |r| ==> r[i] != r[j]
    {
      if parents[i] !in r { r := r + [parents[i]]; }
    }
  }

  /** What a layer of commits still carries of the distinct parents below it. */
  ghost predicate Carries(layer: seq<Carrier>, tree: set<Oid>, below: seq<Carrier>) {
    && (forall p <- below :: Covered(p, layer))
    && (forall i :: 0 <= i < |layer| ==> Narrow(layer[i], below))
    && ReachAll(below) <= ReachAll(layer) <= tree + ReachAll(below)
  }

  /** One commit over any number of parents, built in layers of at most 64. */
  method CommitWithParents(tree: set<Oid>, parents: seq<Carrier>) returns (c: Carrier)
    ensures c.Carrier? && c.tree == tree && |c.parents| <= 64
    ensures forall p <- parents :: Ancestor(p, c)
    ensures forall i :: 0 <= i < |c.parents| ==> Narrow(c.parents[i], parents)
    ensures Reach(c) == tree + ReachAll(parents)
  {
    hide Ancestor, Narrow, ReachAll;
    var layer := Distinct(parents);
    DistinctCarries(tree, parents, layer);
    while |layer| > MAX_PARENTS
      invariant Carries(layer, tree, parents)
      decreases |layer|
    {
      var next := NextLayer(tree, layer);
      GroupsCarry(next, tree, layer, parents);
      layer := next;
    }
    c := Carrier(tree, layer);
    forall p | p in parents ensures Ancestor(p, c) {
      assert Covered(p, layer);
      CoveredBelow(p, c);
    }
  }

  /** One pass of the grouping loop. */
  method NextLayer(tree: set<Oid>, layer: seq<Carrier>) returns (next: seq<Carrier>)
    requires |layer| > MAX_PARENTS
    ensures Groups(next, tree, layer)
    ensures |next| < |layer|
  {
    next := [];
    var index := 0;
    while index < |layer|
      invariant index == |next| * MAX_PARENTS
      invariant Groups(next, tree, layer[..if index < |layer| then index else |layer|])
      invariant index < |layer| + MAX_PARENTS
      decreases |layer| - index
    {
      var end := if index + MAX_PARENTS < |layer| then index + MAX_PARENTS else |layer|;
      var group := layer[index..end];
      assert layer[..end] == layer[..index] + group;
      AddGroup(next, tree, layer[..index], group);
      next := next + [Carrier(tree, group)];
      index := index + MAX_PARENTS;
    }
    assert layer[..|layer|] == layer;
  }

  /** `p` is below one of the commits of a layer. */
  ghost predicate Covered(p: Carrier, layer: seq<Carrier>) {
    exists i :: 0 <= i < |layer| && Ancestor(p, layer[i])
  }

  lemma {:induction false} CoveredBelow(p: Carrier, c: Carrier)
    requires c.Carrier? && Covered(p, c.parents)
    ensures Ancestor(p, c)
  {
    var i :| 0 <= i < |c.parents| && Ancestor(p, c.parents[i]);
    assert c.parents[i] in c.parents;
  }

  /** `c` is new: it has the tree, and at most 64 parents taken from `layer`. */
  ghost predicate GroupOver(c: Carrier, tree: set<Oid>, layer: seq<Carrier>) {
    && c.Carrier? && c.tree == tree && |c.parents| <= MAX_PARENTS
    && forall p <- c.parents :: p in layer
  }

  ghost predicate Grouped(p: Carrier, next: seq<Carrier>) {
    exists i :: 0 <= i < |next| && next[i].Carrier? && p in next[i].parents
  }

  /** `next` groups the commits of `layer`, each under one new commit. */
  ghost predicate Groups(next: seq<Carrier>, tree: set<Oid>, layer: seq<Carrier>) {
    && (forall i :: 0 <= i < |next| ==> GroupOver(next[i], tree, layer))
    && (forall p <- layer :: Grouped(p, next))
  }

  lemma {:induction false} AddGroup(next: seq<Carrier>, tree: set<Oid>, layer: seq<Carrier>, group: seq<Carrier>)
    requires Groups(next, tree, layer) && |group| <= MAX_PARENTS
    ensures Groups(next + [Carrier(tree, group)], tree, layer + group)
  {
    var more := next + [Carrier(tree, group)];
    forall p | p in layer + group ensures Grouped(p, more) {
      if p in group {
        assert p in more[|next|].parents;
      } else {
        assert Grouped(p, next);
        var i :| 0 <= i < |next| && next[i].Carrier? && p in next[i].parents;
        assert more[i] == next[i];
      }
    }
    forall i | 0 <= i < |more| ensures GroupOver(more[i], tree, layer + group) {
      if i < |next| { assert GroupOver(next[i], tree, layer); }
    }
  }

  lemma {:induction false} GroupsCarry(next: seq<Carrier>, tree: set<Oid>, layer: seq<Carrier>, below: seq<Carrier>)
    requires Groups(next, tree, layer) && Carries(layer, tree, below)
    ensures Carries(next, tree, below)
  {
    hide Ancestor, ReachAll;
    forall p | p in below ensures Covered(p, next) {
      assert Covered(p, layer);
      var i :| 0 <= i < |layer| && Ancestor(p, layer[i]);
      assert Grouped(layer[i], next);
      var k :| 0 <= k < |next| && next[k].Carrier? && layer[i] in next[k].parents;
      var j :| 0 <= j < |next[k].parents| && next[k].parents[j] == layer[i];
      CoveredBelow(p, next[k]);
    }
    forall k | 0 <= k < |next| ensures Narrow(next[k], below) {
      assert GroupOver(next[k], tree, layer);
      forall p | p in next[k].parents ensures Narrow(p, below) {
        var i :| 0 <= i < |layer| && layer[i] == p;
      }
    }
    GroupsReach(next, tree, layer);
  }

  lemma {:induction false} GroupsReach(next: seq<Carrier>, tree: set<Oid>, layer: seq<Carrier>)
    requires Groups(next, tree, layer)
    ensures ReachAll(layer) <= ReachAll(next) <= tree + ReachAll(layer)
  {
    hide ReachAll;
    ReachAllContains(layer);
    ReachAllContains(next);
    forall x | x in ReachAll(layer) ensures x in ReachAll(next) {
      var i :| 0 <= i < |layer| && x in Reach(layer[i]);
      assert Grouped(layer[i], next);
      var k :| 0 <= k < |next| && next[k].Carrier? && layer[i] in next[k].parents;
      var j :| 0 <= j < |next[k].parents| && next[k].parents[j] == layer[i];
      ReachAllContains(next[k].parents);
      assert x in Reach(next[k]);
    }
    forall x | x in ReachAll(next) && x !in tree ensures x in ReachAll(layer) {
      var k :| 0 <= k < |next| && x in Reach(next[k]);
      assert GroupOver(next[k], tree, layer);
      ReachAllContains(next[k].parents);
      assert x in next[k].tree + ReachAll(next[k].parents);
      var j :| 0 <= j < |next[k].parents| && x in Reach(next[k].parents[j]);
      assert next[k].parents[j] in next[k].parents;
      var i :| 0 <= i < |layer| && layer[i] == next[k].parents[j];
    }
  }

  lemma {:induction false} DistinctCarries(tree: set<Oid>, parents: seq<Carrier>, layer: seq<Carrier>)
    requires forall c :: c in layer <==> c in parents
    ensures Carries(layer, tree, parents)
  {
    forall p | p in parents ensures Covered(p, layer) {
      var i :| 0 <= i < |layer| && layer[i] == p;
      assert Ancestor(p, layer[i]);
    }
    forall i | 0 <= i < |layer| ensures Narrow(layer[i], parents) {
      assert layer[i] in layer;
    }
    SameReach(layer, parents);
  }

  lemma {:induction false} SameReach(a: seq<Carrier>, b: seq<Carrier>)
    requires forall c :: c in a <==> c in b
    ensures ReachAll(a) == ReachAll(b)
  {
    ReachAllContains(a);
    ReachAllContains(b);
    forall x ensures x in ReachAll(a) <==> x in ReachAll(b) {
      if i :| 0 <= i < |a| && x in Reach(a[i]) { assert a[i] in b; }
      if i :| 0 <= i < |b| && x in Reach(b[i]) { assert b[i] in a; }
    }
  }

  /** What lies below an ancestor lies below its descendants. */
  lemma {:induction false} AncestorReach(a: Carrier, c: Carrier)
    requires Ancestor(a, c)
    ensures Reach(a) <= Reach(c)
    decreases c
  {
    if a != c {
      var p :| p in c.parents && Ancestor(a, p);
      AncestorReach(a, p);
      ReachAllContains(c.parents);
    }
  }

  /** The objects one published record depends on: what it is attached to and
      everything it references. */
  function Needs(e: Entry): seq<Reference> {
    [Reference(e.attachment, CommitObject)] + e.record.references
  }

  /** The commit an entry is attached to, or an object its record references. */
  ghost predicate Wanted(entries: seq<Entry>, ref: Reference) {
    exists i :: 0 <= i < |entries| && (ref == Reference(entries[i].attachment, CommitObject) || ref in entries[i].record.references)
  }

  /** What entries need, by their fields. */
  lemma {:induction false} NeedsAre(entries: seq<Entry>)
    ensures forall ref :: ref in AllNeeds(entries) <==> Wanted(entries, ref)
  {
    if entries != [] {
      var rest, last := entries[..|entries| - 1], entries[|entries| - 1];
      NeedsAre(rest);
      forall ref ensures ref in AllNeeds(entries) <==> Wanted(entries, ref) {
        if Wanted(rest, ref) {
          var i :| 0 <= i < |rest| && (ref == Reference(rest[i].attachment, CommitObject) || ref in rest[i].record.references);
          assert entries[i] == rest[i];
        }
        if Wanted(entries, ref) {
          var i :| 0 <= i < |entries| && (ref == Reference(entries[i].attachment, CommitObject) || ref in entries[i].record.references);
          if i < |rest| { assert rest[i] == entries[i]; }
        }
        assert ref in Needs(last) <==> ref == Reference(last.attachment, CommitObject) || ref in last.record.references;
      }
    }
  }

  lemma {:induction false} TwoKinds(needs: seq<Reference>, entries: seq<Entry>)
    requires forall ref :: ref in needs <==> Wanted(entries, ref)
    ensures Contradicts(needs) <==> exists a, b :: Wanted(entries, a) && Wanted(entries, b) && a.oid == b.oid && a.kind != b.kind
  {
    hide Wanted;
    if Contradicts(needs) {
      var i, j :| 0 <= i < j < |needs| && needs[i].oid == needs[j].oid && needs[i].kind != needs[j].kind;
      assert needs[i] in needs && needs[j] in needs;
    }
    if a, b :| Wanted(entries, a) && Wanted(entries, b) && a.oid == b.oid && a.kind != b.kind {
      assert a in needs && b in needs;
      var i :| 0 <= i < |needs| && needs[i] == a;
      var j :| 0 <= j < |needs| && needs[j] == b;
      assert i < j || j < i;
    }
  }

  lemma {:induction false} AllThere(needs: seq<Reference>, entries: seq<Entry>, store: map<Oid, Kind>)
    requires forall ref :: ref in needs <==> Wanted(entries, ref)
    ensures Available(needs, store) <==> forall ref :: Wanted(entries, ref) ==> ref.oid in store && store[ref.oid] == ref.kind
  {
    hide Wanted;
    forall i | 0 <= i < |needs| ensures Wanted(entries, needs[i]) { assert needs[i] in needs; }
    forall ref | Wanted(entries, ref) ensures exists i :: 0 <= i < |needs| && needs[i] == ref { assert ref in needs; }
  }

  /** What was collected, entry by entry. */
  lemma {:induction false} CollectedFields(dependencies: map<Oid, Kind>, entries: seq<Entry>)
    requires Collected(dependencies, AllNeeds(entries))
    ensures forall i :: 0 <= i < |entries| ==>
              && entries[i].attachment in dependencies && dependencies[entries[i].attachment] == CommitObject
              && forall ref <- entries[i].record.references :: ref.oid in dependencies && dependencies[ref.oid] == ref.kind
    ensures forall o <- dependencies ::
              exists i :: 0 <= i < |entries| && (o == entries[i].attachment || exists ref <- entries[i].record.references :: ref.oid == o)
  {
    NeedsAre(entries);
    hide AllNeeds;
    forall i | 0 <= i < |entries|
      ensures entries[i].attachment in dependencies && dependencies[entries[i].attachment] == CommitObject
      ensures forall ref <- entries[i].record.references :: ref.oid in dependencies && dependencies[ref.oid] == ref.kind
    {
      assert Wanted(entries, Reference(entries[i].attachment, CommitObject));
      forall ref | ref in entries[i].record.references ensures ref.oid in dependencies && dependencies[ref.oid] == ref.kind {
        assert Wanted(entries, ref) && Reference(ref.oid, ref.kind) == ref;
      }
    }
    forall o | o in dependencies
      ensures exists i :: 0 <= i < |entries| && (o == entries[i].attachment || exists ref <- entries[i].record.references :: ref.oid == o)
    {
      assert Wanted(entries, Reference(o, dependencies[o]));
    }
  }

  function AllNeeds(entries: seq<Entry>): seq<Reference> {
    if entries == [] then [] else AllNeeds(entries[..|entries| - 1]) + Needs(entries[|entries| - 1])
  }

  /** One object is given two kinds. */
  predicate Contradicts(needs: seq<Reference>) {
    exists i, j :: 0 <= i < j < |needs| && needs[i].oid == needs[j].oid && needs[i].kind != needs[j].kind
  }

  predicate Available(needs: seq<Reference>, store: map<Oid, Kind>) {
    forall i :: 0 <= i < |needs| ==> needs[i].oid in store && store[needs[i].oid] == needs[i].kind
  }

  function Oids(needs: seq<Reference>): set<Oid> {
    set i | 0 <= i < |needs| :: needs[i].oid
  }

  /** Collects what the entries depend on, refusing two kinds for one object
      and, when validating, an object the repository does not have as that kind. */
  method RecordDependencies(entries: seq<Entry>, store: map<Oid, Kind>, validate: bool)
    returns (r: Option<map<Oid, Kind>>)
    ensures r.None? <==>
            || (exists a, b :: Wanted(entries, a) && Wanted(entries, b) && a.oid == b.oid && a.kind != b.kind)
            || (validate && exists ref :: Wanted(entries, ref) && !(ref.oid in store && store[ref.oid] == ref.kind))
    ensures r.Some? ==>
              forall i :: 0 <= i < |entries| ==>
                && entries[i].attachment in r.value && r.value[entries[i].attachment] == CommitObject
                && forall ref <- entries[i].record.references :: ref.oid in r.value && r.value[ref.oid] == ref.kind
    ensures r.Some? ==>
              forall o <- r.value ::
                exists i :: 0 <= i < |entries| && (o == entries[i].attachment || exists ref <- entries[i].record.references :: ref.oid == o)
    ensures r.Some? && validate ==> forall o <- r.value :: o in store && store[o] == r.value[o]
  {
    NeedsAre(entries);
    TwoKinds(AllNeeds(entries), entries);
    AllThere(AllNeeds(entries), entries, store);
    hide AllNeeds, Contradicts, Needs, Available, Wanted;
    var dependencies: map<Oid, Kind> := map[];
    NoNeeds();
    for i := 0 to |entries|
      invariant Collected(dependencies, AllNeeds(entries[..i]))
    {
      NeedsPrefix(entries, i + 1);
      MoreNeeds(entries, i);
      var more := AddNeeds(dependencies, Needs(entries[i]), AllNeeds(entries[..i]), AllNeeds(entries));
      if more.None? { return None; }
      dependencies := more.value;
    }
    assert entries[..|entries|] == entries;
    NoClash(dependencies, AllNeeds(entries));
    AvailableAll(dependencies, AllNeeds(entries), store);
    CollectedFields(dependencies, entries);
    if validate && !forall o <- dependencies :: o in store && store[o] == dependencies[o] {
      return None;
    }
    return Some(dependencies);
  }

  method AddNeeds(dependencies: map<Oid, Kind>, needs: seq<Reference>, ghost before: seq<Reference>, ghost all: seq<Reference>)
    returns (r: Option<map<Oid, Kind>>)
    requires Collected(dependencies, before) && before + needs <= all
    ensures r.Some? ==> Collected(r.value, before + needs)
    ensures r.None? ==> Contradicts(all)
  {
    hide Contradicts;
    var more: map<Oid, Kind> := dependencies;
    for j := 0 to |needs|
      invariant Collected(more, before + needs[..j])
    {
      assert before + needs[..j + 1] == (before + needs[..j]) + [needs[j]];
      assert before + needs[..j + 1] <= all;
      if needs[j].oid in more && more[needs[j].oid] != needs[j].kind {
        Clash(more, before + needs[..j], needs[j], all);
        return None;
      }
      more := more[needs[j].oid := needs[j].kind];
    }
    assert needs[..|needs|] == needs;
    return Some(more);
  }

  lemma {:induction false} NoNeeds()
    ensures AllNeeds([]) == []
  {}

  lemma {:induction false} MoreNeeds(entries: seq<Entry>, i: nat)
    requires i < |entries|
    ensures AllNeeds(entries[..i + 1]) == AllNeeds(entries[..i]) + Needs(entries[i])
  {
    assert entries[..i + 1][..i] == entries[..i];
  }

  lemma {:induction false} AvailableAll(dependencies: map<Oid, Kind>, needs: seq<Reference>, store: map<Oid, Kind>)
    requires Collected(dependencies, needs)
    ensures Available(needs, store) <==> forall o <- dependencies :: o in store && store[o] == dependencies[o]
  {
    forall i | 0 <= i < |needs| ensures needs[i].oid in dependencies && dependencies[needs[i].oid] == needs[i].kind {
      assert Reference(needs[i].oid, needs[i].kind) in needs;
    }
    forall o | o in dependencies ensures exists i :: 0 <= i < |needs| && needs[i] == Reference(o, dependencies[o]) {
      assert Reference(o, dependencies[o]) in needs;
    }
  }

  ghost predicate Collected(dependencies: map<Oid, Kind>, needs: seq<Reference>) {
    forall o, k :: o in dependencies && dependencies[o] == k <==> Reference(o, k) in needs
  }

  lemma {:induction false} NeedsPrefix(entries: seq<Entry>, n: nat)
    requires n <= |entries|
    ensures AllNeeds(entries[..n]) <= AllNeeds(entries)
    decreases |entries| - n
  {
    if n < |entries| {
      NeedsPrefix(entries, n + 1);
      assert entries[..n + 1][..n] == entries[..n];
    } else {
      assert entries[..n] == entries;
    }
  }

  lemma {:induction false} Clash(dependencies: map<Oid, Kind>, before: seq<Reference>, next: Reference, needs: seq<Reference>)
    requires Collected(dependencies, before) && before + [next] <= needs
    requires next.oid in dependencies && dependencies[next.oid] != next.kind
    ensures Contradicts(needs)
  {
    assert Reference(next.oid, dependencies[next.oid]) in before;
    var i :| 0 <= i < |before| && before[i] == Reference(next.oid, dependencies[next.oid]);
    assert needs[i] == (before + [next])[i] && needs[|before|] == (before + [next])[|before|];
  }

  lemma {:induction false} NoClash(dependencies: map<Oid, Kind>, needs: seq<Reference>)
    requires Collected(dependencies, needs)
    ensures !Contradicts(needs)
  {
    forall i, j | 0 <= i < j < |needs| && needs[i].oid == needs[j].oid ensures needs[i].kind == needs[j].kind {
      assert Reference(needs[i].oid, needs[i].kind) in needs && Reference(needs[j].oid, needs[j].kind) in needs;
    }
  }

  function Retained(tip: Option<Carrier>): set<Oid> {
    if tip.Some? then Reach(tip.value) else {}
  }

  /** A next tip of the retention ref: over the one before it and exactly the
      objects it was built for. */
  ghost predicate Retains(next: Carrier, objects: set<Oid>, previous: Option<Carrier>) {
    Reach(next) == objects + Retained(previous) && (previous.Some? ==> Ancestor(previous.value, next))
  }

  /** Commits become parents; trees and blobs go into the commit's own tree. */
  method BuildRetentionCommit(dependencies: map<Oid, Kind>, previous: Option<Carrier>) returns (c: Carrier)
    ensures Retains(c, dependencies.Keys, previous)
    ensures c.Carrier? && |c.parents| <= MAX_PARENTS
    ensures c.tree <= dependencies.Keys && forall o <- dependencies :: o in c.tree <==> dependencies[o] in {TreeObject, BlobObject}
  {
    hide ReachAll, Ancestor, Narrow;
    var listed := set o | o in dependencies && dependencies[o] != CommitObject;
    var parents := RetentionParents(dependencies.Keys - listed, previous);
    c := CommitWithParents(listed, parents);
  }

  method RetentionParents(commits: set<Oid>, previous: Option<Carrier>) returns (parents: seq<Carrier>)
    ensures previous.Some? ==> previous.value in parents
    ensures ReachAll(parents) == Retained(previous) + commits
  {
    hide ReachAll, Retained;
    parents := if previous.Some? then [previous.value] else [];
    StartReach(previous);
    var rest := commits;
    ghost var done: set<Oid> := {};
    while rest != {}
      invariant rest + done == commits
      invariant previous.Some? ==> 0 < |parents| && parents[0] == previous.value
      invariant ReachAll(parents) == Retained(previous) + done
      decreases |rest|
    {
      var oid :| oid in rest;
      LeafReach(parents, oid);
      assert Retained(previous) + done + {oid} == Retained(previous) + (done + {oid});
      parents := parents + [Leaf(oid)];
      rest, done := rest - {oid}, done + {oid};
    }
    assert done == commits;
  }

  lemma {:induction false} StartReach(previous: Option<Carrier>)
    ensures ReachAll(if previous.Some? then [previous.value] else []) == Retained(previous) + {}
  {
    if previous.Some? {
      ReachAllContains([previous.value]);
      assert forall x :: x in Reach(previous.value) ==> x in Reach([previous.value][0]);
    }
  }

  lemma {:induction false} LeafReach(parents: seq<Carrier>, oid: Oid)
    ensures ReachAll(parents + [Leaf(oid)]) == ReachAll(parents) + {oid}
  {
    var more := parents + [Leaf(oid)];
    ReachAllContains(parents);
    ReachAllContains(more);
    forall x ensures x in ReachAll(more) <==> x in ReachAll(parents) + {oid} {
      if x == oid { assert x in Reach(more[|parents|]); }
      if i :| 0 <= i < |parents| && x in Reach(parents[i]) { assert x in Reach(more[i]); }
    }
  }
}
