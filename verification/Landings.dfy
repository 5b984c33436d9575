/** Publishing work onto a target, and what a later plan then makes of it. */
module Landings {
  import opened Git
  import opened RebaseTopology
  import opened MergePlan

  /** A repository as a planner sees it. `patch` is the patch id of a commit
      that has one. */
  datatype World = World(history: History, changeId: CommitId -> ChangeId, patch: CommitId -> Option<nat>, catalog: Catalog)

  /** The evidence a plan against `target` rests on. */
  ghost predicate EvidenceFor(w: World, target: CommitId, e: Evidence) {
    && (forall c :: c in e.direct.commits <==> Reachable(w.history, target, c))
    && (forall id :: id in e.direct.changeIds <==> exists c :: Reachable(w.history, target, c) && w.changeId(c) == id)
    && CoverageOf(w.catalog, e.direct.commits, e.receipt)
    && (forall c <- e.patchEquivalent :: exists t :: Reachable(w.history, target, t) && SamePatch(w, c, t))
  }

  predicate SamePatch(w: World, c: CommitId, t: CommitId) {
    w.patch(c).Some? && w.patch(t) == w.patch(c)
  }

  function StatusOf(w: World, c: CommitId, e: Evidence): Status {
    Classify(c, w.changeId(c), e).0
  }

  /** A receipt in the notes that no reader excludes. */
  ghost predicate InForce(w: World, target: CommitId, f: Fact) {
    f.body.Receipt? && f in w.catalog.facts && f.id !in w.catalog.conflicting && Reachable(w.history, target, f.attachedTo)
  }

  /** Every commit a receipt in force names is covered, whatever is amended. */
  lemma {:induction false} ReceiptCovers(w: World, target: CommitId, e: Evidence, f: Fact, c: CommitId)
    requires EvidenceFor(w, target, e) && InForce(w, target, f) && c in f.body.absorbedCommits
    ensures StatusOf(w, c, e) == Covered
  {
    assert Counts(w.catalog, e.direct.commits, f);
    assert f in e.receipt.receipts;
  }

  // A landing.

  datatype Mode = Compact | Squash

  /** The commits a landing absorbs, with the identities they carry. */
  ghost predicate Absorbs(w: World, base: CommitId, sourceHead: CommitId, commits: seq<CommitId>) {
    forall c :: c in commits <==> Reachable(w.history, sourceHead, c) && !Reachable(w.history, base, c)
  }

  function IdsOf(w: World, commits: seq<CommitId>): seq<ChangeId> {
    if commits == [] then [] else IdsOf(w, commits[..|commits| - 1]) + [w.changeId(commits[|commits| - 1])]
  }

  lemma {:induction false} IdsAre(w: World, commits: seq<CommitId>)
    ensures |IdsOf(w, commits)| == |commits| && forall i :: 0 <= i < |commits| ==> IdsOf(w, commits)[i] == w.changeId(commits[i])
  {
    if commits != [] { IdsAre(w, commits[..|commits| - 1]); }
  }

  /** A commit id that nothing in the history uses yet. */
  ghost predicate Unused(h: History, c: CommitId) {
    c !in h && forall d <- h :: c !in h[d]
  }

  class Target {
    var world: World
    var head: CommitId

    constructor (w: World, c: CommitId)
      ensures world == w && head == c
    {
      world, head := w, c;
    }

    /** Commits the merge or squash and then attaches the receipt to it; a merge
        that conflicts leaves everything as it was. From then on every plan of the
        source finds all of it covered; only a compact landing puts the source's
        own commits under the target. */
    method Land(mode: Mode, sourceHead: CommitId, absorbed: seq<CommitId>, clean: bool, landing: CommitId, id: FactId)
      returns (receipt: Option<Fact>)
      modifies this
      ensures receipt.Some? == clean
      ensures !clean ==> world == old(world) && head == old(head)
      ensures clean ==> world == Landed(old(world), old(head), mode, sourceHead, landing, receipt.value) && head == landing
      ensures clean ==>
                && receipt.value.id == id && receipt.value.attachedTo == landing && receipt.value.body.Receipt?
                && receipt.value.body.sourceHead == Some(sourceHead) && receipt.value.body.absorbedCommits == absorbed
                && |receipt.value.body.absorbedChanges| == |absorbed|
                && forall i :: 0 <= i < |absorbed| ==> receipt.value.body.absorbedChanges[i] == old(world).changeId(absorbed[i])
      ensures clean && Unused(old(world).history, landing) && landing != old(head) && landing != sourceHead && id !in old(world).catalog.conflicting ==>
                forall base: CommitId, e: Evidence, c: CommitId ::
                  (Absorbs(old(world), base, sourceHead, absorbed) && landing != base &&
                   Reachable(old(world).history, old(head), base) && Reachable(old(world).history, sourceHead, base) &&
                   EvidenceFor(world, head, e) && Reachable(old(world).history, sourceHead, c)) ==> StatusOf(world, c, e) == Covered
      ensures clean && Unused(old(world).history, landing) && landing != old(head) && landing != sourceHead ==>
                && (forall c :: Reachable(old(world).history, old(head), c) ==> Reachable(world.history, head, c))
                && (mode == Compact ==> Reachable(world.history, head, sourceHead))
                && (mode == Squash ==>
                      (Reachable(world.history, head, sourceHead) <==> Reachable(old(world).history, old(head), sourceHead)))
    {
      if !clean { return None; }
      ghost var before, target := world, head;
      var parents := if mode == Compact then [head, sourceHead] else [head];
      var absorbedChanges := IdsOf(world, absorbed);
      world := world.(history := world.history[landing := parents]);
      head := landing;
      var fact := Fact(id, landing, Receipt(Some(sourceHead), absorbed, absorbedChanges));
      world := world.(catalog := world.catalog.(facts := world.catalog.facts + [fact]));
      receipt := Some(fact);
      IdsAre(before, absorbed);
      hide Reachable, EvidenceFor, StatusOf;
      if Unused(before.history, landing) && landing != target && landing != sourceHead && id !in before.catalog.conflicting {
        forall base: CommitId, e: Evidence, c: CommitId |
          Absorbs(before, base, sourceHead, absorbed) && landing != base && Reachable(before.history, target, base) &&
          Reachable(before.history, sourceHead, base) && EvidenceFor(world, head, e) && Reachable(before.history, sourceHead, c)
          ensures StatusOf(world, c, e) == Covered
        {
          assert Landing(before, target, mode, base, sourceHead, landing, fact);
          LandingClosesCoverage(before, target, mode, base, sourceHead, landing, fact, e, c);
        }
      }
      if Unused(before.history, landing) && landing != target && landing != sourceHead {
        WhatLandingReaches(before.history, target, mode, sourceHead, landing);
      }
    }
  }

  /** A landing puts all of the target under its commit, and the source only when
      it is compact. */
  lemma {:induction false} WhatLandingReaches(h: History, target: CommitId, mode: Mode, sourceHead: CommitId, landing: CommitId)
    requires Unused(h, landing) && landing != target && landing != sourceHead
    ensures var after := h[landing := if mode == Compact then [target, sourceHead] else [target]];
            && (forall c :: Reachable(h, target, c) ==> Reachable(after, landing, c))
            && (mode == Compact ==> Reachable(after, landing, sourceHead))
            && (mode == Squash ==> (Reachable(after, landing, sourceHead) <==> Reachable(h, target, sourceHead)))
  {
    hide Reachable;
    var parents := if mode == Compact then [target, sourceHead] else [target];
    var after := h[landing := parents];
    forall c | Reachable(h, target, c) ensures Reachable(after, landing, c) {
      OldReachStays(h, landing, parents, target, c);
      ReachesParent(after, landing, 0, c);
    }
    if mode == Compact {
      SelfReach(after, sourceHead);
      ReachesParent(after, landing, 1, sourceHead);
    } else if Reachable(after, landing, sourceHead) {
      ThroughTheOnlyParent(after, landing, target, sourceHead);
      OldReachStays(h, landing, parents, target, sourceHead);
    }
  }

  lemma {:induction false} ThroughTheOnlyParent(h: History, c: CommitId, parent: CommitId, to: CommitId)
    requires c in h && h[c] == [parent] && to != c && Reachable(h, c, to)
    ensures Reachable(h, parent, to)
  {
    var p :| IsPath(h, p) && p[0] == c && p[|p| - 1] == to;
    assert p[0] in h && p[0 + 1] in h[p[0]];
    var q := p[1..];
    forall i | 0 <= i < |q| - 1 ensures q[i] in h && q[i + 1] in h[q[i]] {
      assert p[i + 1] in h && p[i + 1 + 1] in h[p[i + 1]];
    }
    assert IsPath(h, q) && q[0] == parent && q[|q| - 1] == to;
  }

  function Landed(w: World, target: CommitId, mode: Mode, sourceHead: CommitId, landing: CommitId, receipt: Fact): World {
    World(w.history[landing := if mode == Compact then [target, sourceHead] else [target]], w.changeId, w.patch,
      w.catalog.(facts := w.catalog.facts + [receipt]))
  }

  /** Adding an unused commit leaves what other commits reach as it was. */
  lemma {:induction false} OldReachStays(h: History, c: CommitId, parents: seq<CommitId>, from: CommitId, to: CommitId)
    requires Unused(h, c) && from != c
    ensures Reachable(h[c := parents], from, to) <==> Reachable(h, from, to)
  {
    var h2 := h[c := parents];
    if Reachable(h, from, to) {
      var p :| IsPath(h, p) && p[0] == from && p[|p| - 1] == to;
      assert IsPath(h2, p);
    }
    if Reachable(h2, from, to) {
      var p :| IsPath(h2, p) && p[0] == from && p[|p| - 1] == to;
      var i := 0;
      while i < |p| - 1
        invariant 0 <= i < |p| && p[i] != c
        invariant forall j :: 0 <= j < i ==> p[j] in h && p[j + 1] in h[p[j]]
      {
        assert p[i] in h2 && p[i + 1] in h2[p[i]];
        i := i + 1;
      }
      assert IsPath(h, p);
    }
  }

  lemma {:induction false} ReachesParent(h: History, c: CommitId, i: nat, to: CommitId)
    requires c in h && i < |h[c]| && Reachable(h, h[c][i], to)
    ensures Reachable(h, c, to)
  {
    assert IsPath(h, [c, h[c][i]]);
    ReachableTransitive(h, c, h[c][i], to);
  }

  ghost predicate Landing(w: World, target: CommitId, mode: Mode, base: CommitId, sourceHead: CommitId, landing: CommitId, receipt: Fact) {
    && Unused(w.history, landing) && landing != target && landing != sourceHead && landing != base
    && Reachable(w.history, target, base) && Reachable(w.history, sourceHead, base)
    && receipt.body.Receipt? && receipt.body.sourceHead == Some(sourceHead) && receipt.attachedTo == landing
    && Absorbs(w, base, sourceHead, receipt.body.absorbedCommits)
    && receipt.id !in w.catalog.conflicting
  }

  /** After a landing, planning the same source again finds every one of its
      commits covered and nothing left to replay, by whatever base is chosen. */
  lemma {:induction false} LandingClosesCoverage(w: World, target: CommitId, mode: Mode, base: CommitId, sourceHead: CommitId,
    landing: CommitId, receipt: Fact, e: Evidence, c: CommitId)
    requires Landing(w, target, mode, base, sourceHead, landing, receipt)
    requires EvidenceFor(Landed(w, target, mode, sourceHead, landing, receipt), landing, e)
    requires Reachable(w.history, sourceHead, c)
    ensures StatusOf(w, c, e) == Covered
  {
    hide Reachable, CoverageOf;
    var after := Landed(w, target, mode, sourceHead, landing, receipt);
    var parents := after.history[landing];
    if Reachable(w.history, base, c) {
      ReachableTransitive(w.history, target, base, c);
      OldReachStays(w.history, landing, parents, target, c);
      ReachesParent(after.history, landing, 0, c);
      assert c in e.direct.commits;
    } else {
      SelfReach(after.history, landing);
      assert receipt in after.catalog.facts;
      ReceiptCovers(after, landing, e, receipt, c);
    }
  }

  lemma {:induction false} SelfReach(h: History, c: CommitId)
    ensures Reachable(h, c, c)
  {
    assert IsPath(h, [c]);
  }

  // The source grows.

  /** Histories that have the parents of all their commits. */
  ghost predicate Closed(h: History) {
    forall c <- h :: forall i :: 0 <= i < |h[c]| ==> h[c][i] in h
  }

  /** More commits, and what was there unchanged. */
  ghost predicate Extends(h: History, grown: History) {
    forall c <- h :: c in grown && grown[c] == h[c]
  }

  /** A commit made since: no commit of the target has its identity or its patch,
      and no receipt names it or its identity. */
  ghost predicate Fresh(w: World, target: CommitId, c: CommitId) {
    && c !in w.history
    && (forall t :: Reachable(w.history, target, t) ==> w.changeId(t) != w.changeId(c) && !SamePatch(w, c, t))
    && forall f <- w.catalog.facts :: f.body.Receipt? ==> c !in f.body.absorbedCommits && w.changeId(c) !in f.body.absorbedChanges
  }

  lemma {:induction false} ExtensionKeepsReach(h: History, grown: History, from: CommitId, to: CommitId)
    requires Closed(h) && Extends(h, grown) && from in h
    ensures Reachable(grown, from, to) <==> Reachable(h, from, to)
    ensures Reachable(h, from, to) ==> to in h
  {
    if Reachable(grown, from, to) {
      var p :| IsPath(grown, p) && p[0] == from && p[|p| - 1] == to;
      StaysIn(h, grown, p);
      assert IsPath(h, p);
    }
    if Reachable(h, from, to) {
      var p :| IsPath(h, p) && p[0] == from && p[|p| - 1] == to;
      assert Extends(h, h);
      StaysIn(h, h, p);
      assert IsPath(grown, p);
    }
  }

  lemma {:induction false} StaysIn(h: History, grown: History, p: seq<CommitId>)
    requires Closed(h) && Extends(h, grown) && IsPath(grown, p) && p[0] in h
    ensures forall i :: 0 <= i < |p| ==> p[i] in h
    ensures forall i :: 0 <= i < |p| - 1 ==> p[i + 1] in h[p[i]]
  {
    var i := 0;
    while i < |p| - 1
      invariant 0 <= i < |p| && forall j :: 0 <= j <= i ==> p[j] in h
      invariant forall j :: 0 <= j < i ==> p[j + 1] in h[p[j]]
    {
      assert p[i] in grown && p[i + 1] in grown[p[i]];
      i := i + 1;
    }
  }

  lemma {:induction false} LandedIsClosed(h: History, parents: seq<CommitId>, landing: CommitId)
    requires Closed(h) && forall i :: 0 <= i < |parents| ==> parents[i] in h
    ensures Closed(h[landing := parents])
  {}

  /** What a fresh commit leaves the evidence of a plan against the target without. */
  lemma {:induction false} FreshLeavesNoEvidence(w: World, target: CommitId, grown: History, e: Evidence, c: CommitId)
    requires Closed(w.history) && target in w.history && Extends(w.history, grown) && Fresh(w, target, c)
    requires EvidenceFor(w.(history := grown), target, e)
    ensures c !in e.direct.commits && w.changeId(c) !in e.direct.changeIds && c !in e.patchEquivalent
    ensures c !in e.receipt.commits && w.changeId(c) !in e.receipt.changeIds
  {
    hide Reachable;
    forall t ensures Reachable(grown, target, t) <==> Reachable(w.history, target, t) {
      ExtensionKeepsReach(w.history, grown, target, t);
    }
    ExtensionKeepsReach(w.history, grown, target, c);
    forall f | f in e.receipt.receipts ensures f in w.catalog.facts {
      assert Counts(w.catalog, e.direct.commits, f);
    }
  }

  /** When the source then grows by fresh commits, exactly those are new. */
  lemma {:induction false} ExactlyTheGrowthIsNew(w: World, target: CommitId, mode: Mode, base: CommitId, sourceHead: CommitId,
    landing: CommitId, receipt: Fact, grown: History, grownHead: CommitId, e: Evidence, c: CommitId)
    requires Landing(w, target, mode, base, sourceHead, landing, receipt)
    requires Closed(w.history) && target in w.history && sourceHead in w.history
    requires var after := Landed(w, target, mode, sourceHead, landing, receipt);
             && Extends(after.history, grown)
             && EvidenceFor(after.(history := grown), landing, e)
             && Reachable(grown, grownHead, c)
             && (Reachable(w.history, sourceHead, c) || Fresh(after, landing, c))
    ensures StatusOf(w, c, e) == New <==> !Reachable(w.history, sourceHead, c)
  {
    hide Reachable, CoverageOf, EvidenceFor, Fresh, Extends, Closed, Landing;
    var after := Landed(w, target, mode, sourceHead, landing, receipt);
    LandedIsClosed(w.history, after.history[landing], landing);
    if Reachable(w.history, sourceHead, c) {
      LandedEvidence(after, landing, grown, e);
      LandingClosesCoverage(w, target, mode, base, sourceHead, landing, receipt, e, c);
    } else {
      FreshLeavesNoEvidence(after, landing, grown, e, c);
    }
  }

  /** Commits nobody landed change nothing in what a plan against the target knows. */
  lemma {:induction false} LandedEvidence(w: World, target: CommitId, grown: History, e: Evidence)
    requires Closed(w.history) && target in w.history && Extends(w.history, grown) && EvidenceFor(w.(history := grown), target, e)
    ensures EvidenceFor(w, target, e)
  {
    hide Reachable;
    forall t ensures Reachable(grown, target, t) <==> Reachable(w.history, target, t) {
      ExtensionKeepsReach(w.history, grown, target, t);
    }
  }

  /** Choosing the effective base of the grown source, when that receipt is the
      only one of its history: it is the head that was landed. */
  method EffectiveBaseOfGrowth(ghost h: History, receipts: seq<Fact>, ghost receipt: Fact, ghost sourceHead: CommitId, grownHead: CommitId,
    ghost target: CommitId, physicalBase: CommitId, isAncestor: (CommitId, CommitId) -> bool)
    returns (effective: CommitId, reason: Option<FactId>)
    requires (forall a, b :: isAncestor(a, b) <==> IsAncestor(h, a, b)) && Acyclic(h)
    requires receipt in receipts && receipt.body.Receipt? && receipt.body.sourceHead == Some(sourceHead)
    requires IsAncestor(h, sourceHead, grownHead)
    requires forall f <- receipts :: Eligible(h, f, grownHead) ==> f.body.sourceHead.value == sourceHead
    requires IsAncestor(h, physicalBase, grownHead) && IsAncestor(h, physicalBase, target)
    requires forall c :: IsAncestor(h, c, grownHead) && !IsAncestor(h, c, sourceHead) ==> !IsAncestor(h, c, target)
    ensures effective == sourceHead
  {
    hide Reachable;
    effective, reason := ChooseEffectiveBase(h, physicalBase, receipts, grownHead, isAncestor);
    assert Eligible(h, receipt, grownHead);
  }
}
