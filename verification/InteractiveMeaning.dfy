/** From what a caller declares to the items a rewrite runs, said of the
    declarations and of the plan's changes alone. */
module InteractiveMeaning {
  import opened Git
  import opened RebaseTopology
  import opened RebaseFold
  import opened RebaseInteractive

  type Resolver = nat -> Option<CommitId>

  /** The expression names a commit the plan replays, and no merge. */
  ghost predicate NamesReplayed(changes: seq<PlanChange>, merges: set<CommitId>, resolve: Resolver, expression: nat) {
    && resolve(expression).Some?
    && resolve(expression).value !in merges
    && exists k :: 0 <= k < |changes| && changes[k].commit == resolve(expression).value && changes[k].planned == Replayed
  }

  /** One commit of the plan comes before another. */
  ghost predicate ComesBefore(changes: seq<PlanChange>, first: CommitId, second: CommitId) {
    exists k, l :: 0 <= k < l < |changes| && changes[k].commit == first && changes[l].commit == second
  }

  predicate Melds(d: Declaration) {
    d.verb == Squashed || d.verb == Fixed
  }

  lemma {:induction false} OrderedIff(changes: seq<PlanChange>, first: CommitId, second: CommitId)
    requires DistinctChanges(changes)
    ensures ComesBefore(changes, first, second) <==>
            Order(changes, first).Some? && Order(changes, second).Some? && Order(changes, first).value < Order(changes, second).value
  {
    if k, l :| 0 <= k < l < |changes| && changes[k].commit == first && changes[l].commit == second {
      OrderIs(changes, k);
      OrderIs(changes, l);
    }
  }

  lemma {:induction false} ResolvesIff(changes: seq<PlanChange>, merges: set<CommitId>, resolve: Resolver, d: Declaration)
    ensures Resolve(changes, merges, resolve, d).Some? <==>
            NamesReplayed(changes, merges, resolve, d.subject) &&
            (d.target.Some? ==> NamesReplayed(changes, merges, resolve, d.target.value))
    ensures Resolve(changes, merges, resolve, d).Some? ==>
              var a := Resolve(changes, merges, resolve, d).value;
              && a.verb == d.verb && resolve(d.subject) == Some(a.commit)
              && a.target == (if d.target.Some? then resolve(d.target.value) else None)
  {
    ReplayableIff(changes, merges, resolve, d.subject);
    if d.target.Some? { ReplayableIff(changes, merges, resolve, d.target.value); }
    hide Replayable;
  }

  lemma {:induction false} ReplayableIff(changes: seq<PlanChange>, merges: set<CommitId>, resolve: Resolver, expression: nat)
    ensures resolve(expression).Some? && Replayable(changes, merges, resolve(expression).value) <==>
            NamesReplayed(changes, merges, resolve, expression)
  {
    if resolve(expression).Some? {
      var c := resolve(expression).value;
      if k :| 0 <= k < |changes| && changes[k].commit == c && changes[k].planned == Replayed {
        assert changes[k] == PlanChange(c, Replayed);
      }
    }
  }

  /** The declarations are accepted if and only if every commit they name is
      replayed, none has two, each target comes before its subject in the range,
      and no target is itself melded into another commit. */
  lemma {:induction false} AcceptedIff(changes: seq<PlanChange>, merges: set<CommitId>, resolve: Resolver, ds: seq<Declaration>)
    requires DistinctChanges(changes)
    ensures Admissible(changes, merges, resolve, ds) <==>
            && (forall i :: 0 <= i < |ds| ==> NamesReplayed(changes, merges, resolve, ds[i].subject))
            && (forall i :: 0 <= i < |ds| && ds[i].target.Some? ==> NamesReplayed(changes, merges, resolve, ds[i].target.value))
            && (forall i, j :: 0 <= i < j < |ds| ==> resolve(ds[i].subject) != resolve(ds[j].subject))
            && (forall i :: 0 <= i < |ds| && ds[i].target.Some? ==>
                  ComesBefore(changes, resolve(ds[i].target.value).value, resolve(ds[i].subject).value))
            && (forall i, j :: 0 <= i < |ds| && 0 <= j < |ds| && ds[i].target.Some? && Melds(ds[j]) ==>
                  resolve(ds[i].target.value) != resolve(ds[j].subject))
  {
    hide Resolve, ComesBefore, Order;
    forall i | 0 <= i < |ds| { ResolvesIff(changes, merges, resolve, ds[i]); }
    forall i | 0 <= i < |ds| && ds[i].target.Some? && Resolve(changes, merges, resolve, ds[i]).Some?
      ensures InOrder(changes, Resolve(changes, merges, resolve, ds[i]).value) <==>
              ComesBefore(changes, resolve(ds[i].target.value).value, resolve(ds[i].subject).value)
    {
      OrderedIff(changes, resolve(ds[i].target.value).value, resolve(ds[i].subject).value);
    }
  }

  /** A declaration of some verbs about a commit. */
  ghost predicate Declared(resolve: Resolver, ds: seq<Declaration>, j: int, c: CommitId) {
    0 <= j < |ds| && resolve(ds[j].subject) == Some(c)
  }

  /** It melds the commit into another. */
  ghost predicate Into(resolve: Resolver, ds: seq<Declaration>, c: CommitId, survivor: CommitId) {
    exists j :: Declared(resolve, ds, j, c) && Melds(ds[j]) && ds[j].target.Some? && resolve(ds[j].target.value) == Some(survivor)
  }

  /** What the resolver hands on for accepted declarations. */
  ghost predicate ProgramFor(changes: seq<PlanChange>, merges: set<CommitId>, resolve: Resolver, ds: seq<Declaration>, p: Program) {
    && DistinctChanges(changes) && Admissible(changes, merges, resolve, ds)
    && (forall i :: 0 <= i < |ds| ==> RebaseInteractive.WellFormed(ds[i]))
    && (forall c :: c in p.byCommit <==> exists i :: 0 <= i < |ds| && Resolve(changes, merges, resolve, ds[i]).value.commit == c)
    && (forall i :: 0 <= i < |ds| ==>
          var a := Resolve(changes, merges, resolve, ds[i]).value;
          a.commit in p.byCommit && p.byCommit[a.commit] == a)
    && p.actions == InRangeOrder(changes, p.byCommit)
  }

  /** The verb on file for a commit is the one declared for it. */
  lemma {:induction false} FiledIff(changes: seq<PlanChange>, merges: set<CommitId>, resolve: Resolver, ds: seq<Declaration>, p: Program,
    c: CommitId)
    requires ProgramFor(changes, merges, resolve, ds, p)
    ensures c in p.byCommit <==> exists j :: Declared(resolve, ds, j, c)
    ensures forall j :: Declared(resolve, ds, j, c) ==>
              && c in p.byCommit && p.byCommit[c].commit == c && p.byCommit[c].verb == ds[j].verb
              && p.byCommit[c].target == (if ds[j].target.Some? then resolve(ds[j].target.value) else None)
  {
    hide Resolve, InRangeOrder;
    forall i | 0 <= i < |ds| { ResolvesIff(changes, merges, resolve, ds[i]); }
    if c in p.byCommit {
      var i :| 0 <= i < |ds| && Resolve(changes, merges, resolve, ds[i]).value.commit == c;
      assert Declared(resolve, ds, i, c);
    }
  }

  /** From declarations to items: a join is recreated; a replayed change nobody
      melds away is picked, reworded or edited exactly when that was declared, and
      takes in exactly what was melded into it, in the order of the range; every
      other commit is left to its parent's image. */
  lemma {:induction false} ItemsMean(steps: seq<RebaseTopology.Step>, changes: seq<PlanChange>, merges: set<CommitId>, resolve: Resolver,
    ds: seq<Declaration>, p: Program, i: nat)
    requires ProgramFor(changes, merges, resolve, ds, p) && i < |steps|
    ensures var item, c := RebaseProgram(steps, changes, p)[i], steps[i].commit;
            && item.step == steps[i]
            && (item.RecreateMerge? <==> steps[i].isMerge)
            && (item.Pick? <==>
                  && !steps[i].isMerge
                  && (exists k :: 0 <= k < |changes| && changes[k].commit == c && changes[k].planned == Replayed)
                  && !(exists j :: Declared(resolve, ds, j, c) && Melds(ds[j])))
            && (item.Pick? ==>
                  && (item.action == Reword <==> exists j :: Declared(resolve, ds, j, c) && ds[j].verb == Reworded)
                  && (item.action == Edit <==> exists j :: Declared(resolve, ds, j, c) && ds[j].verb == Edited)
                  && (forall x :: x in item.absorbs <==> Into(resolve, ds, x, c))
                  && forall a, b :: 0 <= a < b < |item.absorbs| ==> ComesBefore(changes, item.absorbs[a], item.absorbs[b]))
  {
    hide InRangeOrder, AbsorbedInto, Order, ComesBefore, Admissible, Resolve;
    var item, c := RebaseProgram(steps, changes, p)[i], steps[i].commit;
    ResolvedIsAccepted(changes, merges, resolve, ds, p);
    ItemAt(steps, changes, p, i);
    ExactlySurvivorsArePicked(steps, changes, p, i);
    FiledIff(changes, merges, resolve, ds, p, c);
    if item.Pick? {
      forall x ensures x in item.absorbs <==> Into(resolve, ds, x, c) { AbsorbedIff(changes, merges, resolve, ds, p, x, c); }
      forall a, b | 0 <= a < b < |item.absorbs| ensures ComesBefore(changes, item.absorbs[a], item.absorbs[b]) {
        OrderedIff(changes, item.absorbs[a], item.absorbs[b]);
      }
    }
  }

  lemma {:induction false} AbsorbedIff(changes: seq<PlanChange>, merges: set<CommitId>, resolve: Resolver, ds: seq<Declaration>,
    p: Program, x: CommitId, survivor: CommitId)
    requires ProgramFor(changes, merges, resolve, ds, p) && Accepted(changes, p)
    ensures x in AbsorbedInto(p.actions, survivor) <==> Into(resolve, ds, x, survivor)
  {
    hide InRangeOrder, AbsorbedInto, Admissible, Resolve;
    FiledIff(changes, merges, resolve, ds, p, x);
    InRangeOrderHolds(changes, p.byCommit);
    AbsorbedIntoHolds(p.actions, survivor, x);
    if x in p.byCommit {
      var kx :| 0 <= kx < |changes| && changes[kx] == PlanChange(x, Replayed);
      OrderIs(changes, kx);
      assert p.byCommit[x] in p.actions;
    }
  }
}
