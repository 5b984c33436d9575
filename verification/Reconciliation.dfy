/** Replaying the new changes of a source onto a target, pausing on conflicts,
    and the receipt that closes its coverage. */
module Reconciliation {
  import opened Git
  import opened RebaseTopology
  import opened MergePlan
  import opened Landings

  datatype Change = Change(commit: CommitId, changeId: ChangeId, status: Status)

  datatype Relation = CausalReconciliation | ContextualApplication | ContextualFork

  datatype Applied = Applied(origin: CommitId, commit: CommitId, relation: Relation)

  /** What Git makes of picking one change onto the tip: it applies, or the
      forecast's resolutions settle it, or it stops for a person. */
  datatype Picked = Clean(commit: CommitId) | Settled(commit: CommitId) | Stopped

  /** What a person brings back: the staged tree, and whether they asked for a fork. */
  datatype Decision = Decision(tree: TreeId, fork: bool)

  /** A decision given while the change at `index` waited. */
  datatype Given = Given(index: nat, decision: Decision)

  ghost predicate Asked(given: seq<Given>, index: nat) {
    exists g <- given :: g.index == index && g.decision.fork
  }

  lemma {:induction false} AskedMore(given: seq<Given>, last: Given, index: nat)
    ensures Asked(given + [last], index) <==> Asked(given, index) || (last.index == index && last.decision.fork)
  {
    if last.index == index && last.decision.fork { assert last in given + [last]; }
    if Asked(given, index) {
      var g :| g in given && g.index == index && g.decision.fork;
      assert g in given + [last];
    }
  }

  datatype RunState = Running | Paused | Mismatch | Complete

  datatype Summary = Summary(sourceHead: CommitId, resultCommit: CommitId, absorbed: seq<Change>, forked: set<CommitId>)

  function Select(changes: seq<Change>, keep: Change -> bool): seq<Change> {
    if changes == [] then []
    else
      var last := changes[|changes| - 1];
      Select(changes[..|changes| - 1], keep) + if keep(last) then [last] else []
  }

  const IsNew: Change -> bool := (c: Change) => c.status == New

  lemma {:induction false} SelectHolds(changes: seq<Change>, keep: Change -> bool)
    ensures forall c :: c in Select(changes, keep) <==> c in changes && keep(c)
  {
    if changes != [] {
      SelectHolds(changes[..|changes| - 1], keep);
      assert changes == changes[..|changes| - 1] + [changes[|changes| - 1]];
    }
  }

  lemma {:induction false} SelectNone(changes: seq<Change>, keep: Change -> bool)
    requires forall c <- changes :: !keep(c)
    ensures Select(changes, keep) == []
  {
    if changes != [] { SelectNone(changes[..|changes| - 1], keep); }
  }

  /** The places of what is kept, among the first ones, in order. */
  ghost function Places(changes: seq<Change>, n: nat, keep: Change -> bool): (r: seq<nat>)
    requires n <= |changes|
    ensures forall i :: 0 <= i < |r| ==> r[i] < n
    ensures forall i, j :: 0 <= i < j < |r| ==> r[i] < r[j]
  {
    if n == 0 then [] else Places(changes, n - 1, keep) + if keep(changes[n - 1]) then [n - 1] else []
  }

  lemma {:induction false} PlacesHold(changes: seq<Change>, n: nat, keep: Change -> bool)
    requires n <= |changes|
    ensures forall k: nat :: k in Places(changes, n, keep) <==> k < n && keep(changes[k])
  {
    if n > 0 { PlacesHold(changes, n - 1, keep); }
  }

  lemma {:induction false} SelectedAt(changes: seq<Change>, n: nat, keep: Change -> bool)
    requires n <= |changes|
    ensures var places, kept := Places(changes, n, keep), Select(changes[..n], keep);
            |kept| == |places| && forall i :: 0 <= i < |places| ==> kept[i] == changes[places[i]]
  {
    if n > 0 {
      SelectedAt(changes, n - 1, keep);
      assert changes[..n][..n - 1] == changes[..n - 1];
    }
  }

  /** The queue is exactly the new changes of the plan, in its order. */
  lemma {:induction false} QueueIs(plan: seq<Change>)
    ensures var places, queue := Places(plan, |plan|, IsNew), Select(plan, IsNew);
            && |queue| == |places|
            && (forall k: nat :: k in places <==> k < |plan| && plan[k].status == New)
            && (forall i, j :: 0 <= i < j < |places| ==> places[i] < places[j])
            && forall i :: 0 <= i < |places| ==> queue[i] == plan[places[i]]
  {
    SelectedAt(plan, |plan|, IsNew);
    PlacesHold(plan, |plan|, IsNew);
    assert plan[..|plan|] == plan;
  }

  function ForkedBy(applied: seq<Applied>): (r: set<CommitId>)
    ensures forall c :: c in r <==> exists a :: a in applied && a.origin == c && a.relation == ContextualFork
  {
    set i | 0 <= i < |applied| && applied[i].relation == ContextualFork :: applied[i].origin
  }

  /** What a receipt absorbs: everything but the forks and the candidates nobody
      accepted. */
  function AbsorbedBy(changes: seq<Change>, forked: set<CommitId>, acceptCandidates: bool): (r: seq<Change>)
    ensures forall c :: c in r <==> c in changes && c.commit !in forked && (c.status == CandidateEquivalent ==> acceptCandidates)
  {
    SelectHolds(changes, Absorbable(forked, acceptCandidates));
    Select(changes, Absorbable(forked, acceptCandidates))
  }

  /** What is absorbed is listed in the plan's order too. */
  lemma {:induction false} AbsorbedInOrder(plan: seq<Change>, forked: set<CommitId>, acceptCandidates: bool)
    ensures var places, absorbed := Places(plan, |plan|, Absorbable(forked, acceptCandidates)), AbsorbedBy(plan, forked, acceptCandidates);
            && |absorbed| == |places|
            && (forall i, j :: 0 <= i < j < |places| ==> places[i] < places[j])
            && (forall k: nat :: k in places <==>
                  k < |plan| && plan[k].commit !in forked && (plan[k].status == CandidateEquivalent ==> acceptCandidates))
            && forall i :: 0 <= i < |places| ==> absorbed[i] == plan[places[i]]
  {
    SelectedAt(plan, |plan|, Absorbable(forked, acceptCandidates));
    PlacesHold(plan, |plan|, Absorbable(forked, acceptCandidates));
    assert plan[..|plan|] == plan;
  }

  function Absorbable(forked: set<CommitId>, acceptCandidates: bool): Change -> bool {
    (c: Change) => c.commit !in forked && (c.status != CandidateEquivalent || acceptCandidates)
  }

  /** The commit a replay stands on. */
  function Tip(target: CommitId, applied: seq<Applied>): CommitId {
    if applied == [] then target else applied[|applied| - 1].commit
  }

  /** What picking made of a change on a commit, without anybody. */
  predicate MadeBy(pick: (CommitId, CommitId) -> Picked, onto: CommitId, a: Applied) {
    match a.relation
    case CausalReconciliation => pick(onto, a.origin) == Picked.Clean(a.commit)
    case ContextualApplication => pick(onto, a.origin) == Settled(a.commit)
    case ContextualFork => false
  }

  /** From a place on, every application is what Git made of the pick on the one
      before it. */
  ghost predicate MadeFrom(pick: (CommitId, CommitId) -> Picked, target: CommitId, applied: seq<Applied>, from: nat) {
    forall i :: from <= i < |applied| ==> MadeBy(pick, Tip(target, applied[..i]), applied[i])
  }

  lemma {:induction false} NothingMade(pick: (CommitId, CommitId) -> Picked, target: CommitId, applied: seq<Applied>, from: nat)
    requires |applied| <= from
    ensures MadeFrom(pick, target, applied, from)
  {}

  lemma {:induction false} MadeMore(pick: (CommitId, CommitId) -> Picked, target: CommitId, applied: seq<Applied>, a: Applied, from: nat)
    requires MadeFrom(pick, target, applied, from) && MadeBy(pick, Tip(target, applied), a)
    ensures MadeFrom(pick, target, applied + [a], from)
  {
    hide MadeBy, Tip;
    var more := applied + [a];
    forall i | from <= i < |more| ensures MadeBy(pick, Tip(target, more[..i]), more[i]) {
      if i < |applied| { assert more[..i] == applied[..i] && more[i] == applied[i]; } else { assert more[..i] == applied; }
    }
  }

  class Operation {
    const changes: seq<Change>
    const sourceHead: CommitId
    const target: CommitId
    const acceptCandidates: bool
    const queue: seq<Change>
    const predictedTree: Option<TreeId>
    var head: CommitId
    var nextIndex: nat
    var applied: seq<Applied>
    var state: RunState
    var forked: bool
    ghost var given: seq<Given>

    /** The journal: one application for every change already replayed, in order,
        a fork exactly when some decision given on it asked for one. */
    ghost predicate Journaled()
      reads `nextIndex, `applied, `head, `forked, `given
    {
      && nextIndex <= |queue| && |applied| == nextIndex
      && (forall i :: 0 <= i < nextIndex ==> applied[i].origin == queue[i].commit)
      && queue == Select(changes, IsNew)
      && head == Tip(target, applied)
      && (forall i :: 0 <= i < nextIndex ==> (applied[i].relation == ContextualFork <==> Asked(given, i)))
      && (forall g <- given :: g.index <= nextIndex)
      && (forked <==> Asked(given, nextIndex))
    }

    /** The changes somebody asked to fork. */
    ghost predicate ForkedExactly(forks: set<CommitId>)
      reads `given
    {
      forall c :: c in forks <==> exists i :: 0 <= i < |queue| && queue[i].commit == c && Asked(given, i)
    }

    constructor (plan: seq<Change>, source: CommitId, target: CommitId, accept: bool, predicted: Option<TreeId>)
      ensures Journaled() && changes == plan && sourceHead == source && this.target == target && acceptCandidates == accept
      ensures applied == [] && nextIndex == 0 && state == Running && head == target && predictedTree == predicted
      ensures !forked && given == []
    {
      changes, sourceHead, acceptCandidates, predictedTree := plan, source, accept, predicted;
      queue := Select(plan, IsNew);
      this.target, head, nextIndex, applied, state := target, target, 0, [], Running;
      forked, given := false, [];
    }

    method RecordSuccessfulApplication(commit: CommitId, relation: Relation)
      requires Journaled() && nextIndex < |queue| && (relation == ContextualFork <==> forked)
      modifies `applied, `nextIndex, `state, `head, `forked
      ensures Journaled() && nextIndex == old(nextIndex) + 1 && state == Running && head == commit && !forked
      ensures applied == old(applied) + [Applied(queue[old(nextIndex)].commit, commit, relation)]
    {
      hide Select;
      applied := applied + [Applied(queue[nextIndex].commit, commit, relation)];
      nextIndex, forked := nextIndex + 1, false;
      state := Running;
      head := commit;
    }

    /** Replays the next change, unless it stops for a person. */
    method ReplayNext(pick: (CommitId, CommitId) -> Picked) returns (stopped: bool)
      requires Journaled() && !forked && nextIndex < |queue|
      modifies `applied, `nextIndex, `state, `head, `forked
      ensures Journaled() && !forked
      ensures stopped <==> pick(old(head), queue[old(nextIndex)].commit) == Stopped
      ensures stopped ==> unchanged(`applied, `nextIndex, `head) && state == Paused
      ensures !stopped ==>
                && nextIndex == old(nextIndex) + 1 && |applied| == |old(applied)| + 1 && applied == old(applied) + [applied[|old(applied)|]]
                && MadeBy(pick, Tip(target, old(applied)), applied[|old(applied)|])
    {
      hide Select, Asked;
      match pick(head, queue[nextIndex].commit) {
        case Clean(commit) => RecordSuccessfulApplication(commit, CausalReconciliation);
        case Settled(commit) => RecordSuccessfulApplication(commit, ContextualApplication);
        case Stopped =>
          state := Paused;
          return true;
      }
      stopped := false;
    }

    /** Replays until the queue is empty or a change stops; the receipt exists
        only when every new change was replayed and the tree is the predicted one. */
    method RunReconciliationQueue(pick: (CommitId, CommitId) -> Picked, treeOf: CommitId -> TreeId) returns (receipt: Option<Summary>)
      requires Journaled() && !forked
      modifies `applied, `nextIndex, `state, `head, `forked
      ensures Journaled() && old(applied) <= applied && !forked && MadeFrom(pick, target, applied, old(nextIndex))
      ensures receipt.Some? ==>
                && nextIndex == |queue| && (predictedTree.Some? ==> treeOf(head) == predictedTree.value)
                && receipt.value == Summary(sourceHead, head, AbsorbedBy(changes, ForkedBy(applied), acceptCandidates), ForkedBy(applied))
                && ForkedExactly(receipt.value.forked)
      ensures receipt.Some? ==> state == Complete
      ensures receipt.None? ==> state == Mismatch || (nextIndex < |queue| && state == Paused && pick(head, queue[nextIndex].commit) == Stopped)
    {
      hide Select, Asked, MadeBy, MadeFrom;
      NothingMade(pick, target, applied, nextIndex);
      while nextIndex < |queue|
        invariant Journaled() && !forked && old(applied) <= applied && old(nextIndex) <= nextIndex
        invariant MadeFrom(pick, target, applied, old(nextIndex))
        decreases |queue| - nextIndex
      {
        ghost var before := applied;
        var stopped := ReplayNext(pick);
        if stopped { return None; }
        MadeMore(pick, target, before, applied[|before|], old(nextIndex));
      }
      receipt := FinalizeReconciliation(treeOf);
    }

    method FinalizeReconciliation(treeOf: CommitId -> TreeId) returns (receipt: Option<Summary>)
      requires Journaled() && nextIndex == |queue|
      modifies `state
      ensures receipt.Some? <==> (predictedTree.Some? ==> treeOf(head) == predictedTree.value)
      ensures receipt.Some? ==>
                && receipt.value == Summary(sourceHead, head, AbsorbedBy(changes, ForkedBy(applied), acceptCandidates), ForkedBy(applied))
                && ForkedExactly(receipt.value.forked)
      ensures state == if receipt.Some? then Complete else Mismatch
    {
      if predictedTree.Some? && predictedTree.value != treeOf(head) {
        state := Mismatch;
        return None;
      }
      var forked := ForkedBy(applied);
      var covered := AbsorbedBy(changes, forked, acceptCandidates);
      ForksWereAsked();
      state := Complete;
      return Some(Summary(sourceHead, head, covered, forked));
    }

    lemma {:induction false} ForksWereAsked()
      requires Journaled() && nextIndex == |queue|
      ensures ForkedExactly(ForkedBy(applied))
    {
      hide Asked, Select;
      forall c ensures c in ForkedBy(applied) <==> exists i :: 0 <= i < |queue| && queue[i].commit == c && Asked(given, i) {
        if c in ForkedBy(applied) {
          var i :| 0 <= i < |applied| && applied[i].origin == c && applied[i].relation == ContextualFork;
          assert queue[i].commit == c && Asked(given, i);
        }
        if i :| 0 <= i < |queue| && queue[i].commit == c && Asked(given, i) { assert applied[i] in applied; }
      }
    }

    /** A person settled the change that stopped, keeping its identity or forking
        it. A fork asked for stays with the change, even when Git then refuses to
        commit what was staged. */
    method ContinueReconciliation(d: Decision, commit: (CommitId, TreeId) -> CommitId, pick: (CommitId, CommitId) -> Picked,
      treeOf: CommitId -> TreeId)
      returns (refused: bool, receipt: Option<Summary>)
      requires Journaled() && nextIndex < |queue| && state == Paused
      modifies `applied, `nextIndex, `state, `head, `forked, `given
      ensures Journaled() && given == old(given) + [Given(old(nextIndex), d)] && old(applied) <= applied
      ensures refused <==> d.tree == treeOf(old(head))
      ensures refused ==>
                && receipt.None? && unchanged(`applied, `nextIndex, `state, `head)
                && (forked <==> Asked(given, nextIndex)) && (forked <==> old(forked) || d.fork)
      ensures !refused ==>
                && |applied| > old(nextIndex) && !forked && MadeFrom(pick, target, applied, old(nextIndex) + 1)
                && applied[old(nextIndex)] == Applied(queue[old(nextIndex)].commit, commit(old(head), d.tree),
                     if old(forked) || d.fork then ContextualFork else ContextualApplication)
      ensures !refused && receipt.None? ==> state == Mismatch || (nextIndex < |queue| && state == Paused)
      ensures receipt.Some? ==>
                && nextIndex == |queue| && state == Complete
                && receipt.value == Summary(sourceHead, head, AbsorbedBy(changes, ForkedBy(applied), acceptCandidates), ForkedBy(applied))
                && ForkedExactly(receipt.value.forked)
    {
      AskForFork(d);
      if d.tree == treeOf(head) { return true, None; }
      RecordSuccessfulApplication(commit(head, d.tree), if forked then ContextualFork else ContextualApplication);
      receipt := RunReconciliationQueue(pick, treeOf);
      refused := false;
    }

    method AskForFork(d: Decision)
      requires Journaled()
      modifies `forked, `given
      ensures Journaled() && given == old(given) + [Given(nextIndex, d)] && (forked <==> old(forked) || d.fork)
    {
      hide Select;
      ghost var before, last := given, Given(nextIndex, d);
      forall i: nat ensures Asked(before + [last], i) <==> Asked(before, i) || (last.index == i && last.decision.fork) {
        AskedMore(before, last, i);
      }
      hide Asked;
      given := given + [last];
      forked := forked || d.fork;
    }
  }

  /** Starting is refused while a candidate waits for a decision nobody made. */
  method Reconcile(plan: seq<Change>, source: CommitId, target: CommitId, accept: bool, predicted: Option<TreeId>)
    returns (operation: Option<Operation>)
    ensures operation.Some? <==> forall c <- plan :: c.status == CandidateEquivalent ==> accept
    ensures operation.Some? ==>
              && fresh(operation.value) && operation.value.Journaled()
              && operation.value.changes == plan && operation.value.acceptCandidates == accept
              && operation.value.sourceHead == source && operation.value.head == target && operation.value.predictedTree == predicted
              && operation.value.target == target && !operation.value.forked && operation.value.given == []
              && operation.value.applied == [] && operation.value.nextIndex == 0 && operation.value.state == Running
  {
    if !accept && exists c <- plan :: c.status == CandidateEquivalent { return None; }
    var started := new Operation(plan, source, target, accept, predicted);
    return Some(started);
  }

  /** A plan's change list, as the planner classified it. */
  ghost predicate Planned(w: World, e: Evidence, changes: seq<Change>) {
    forall c <- changes :: c.changeId == w.changeId(c.commit) && c.status == StatusOf(w, c.commit, e)
  }

  function Commits(changes: seq<Change>): (r: seq<CommitId>)
    ensures |r| == |changes|
  {
    seq(|changes|, i requires 0 <= i < |changes| => changes[i].commit)
  }

  /** The receipt of a completed reconciliation, on the commit it made. */
  function FactOf(id: FactId, summary: Summary): Fact {
    Fact(id, summary.resultCommit, Receipt(Some(summary.sourceHead), Commits(summary.absorbed), ChangeIds(summary.absorbed)))
  }

  function ChangeIds(changes: seq<Change>): (r: seq<ChangeId>)
    ensures |r| == |changes|
  {
    seq(|changes|, i requires 0 <= i < |changes| => changes[i].changeId)
  }

  /** What the receipt names: the source, and what was absorbed with the identity
      each carries. */
  lemma {:induction false} ReceiptNames(id: FactId, summary: Summary)
    ensures var f := FactOf(id, summary);
            && f.id == id && f.attachedTo == summary.resultCommit && f.body.Receipt? && f.body.sourceHead == Some(summary.sourceHead)
            && |f.body.absorbedCommits| == |f.body.absorbedChanges| == |summary.absorbed|
            && forall i :: 0 <= i < |summary.absorbed| ==>
                 f.body.absorbedCommits[i] == summary.absorbed[i].commit && f.body.absorbedChanges[i] == summary.absorbed[i].changeId
  {
    var f := FactOf(id, summary);
    assert forall i :: 0 <= i < |summary.absorbed| ==> f.body.absorbedChanges[i] == summary.absorbed[i].changeId;
  }

  /** Publishing adds one fact to those there are, and changes nothing else. */
  function Published(w: World, f: Fact): (r: World)
    ensures r.history == w.history && r.changeId == w.changeId && r.patch == w.patch
    ensures r.catalog.conflicting == w.catalog.conflicting && forall g :: g in r.catalog.facts <==> g in w.catalog.facts || g == f
  {
    w.(catalog := w.catalog.(facts := w.catalog.facts + [f]))
  }

  /** The changes of a source above a base, as a plan lists them. */
  ghost predicate ListsRange(h: History, base: CommitId, source: CommitId, changes: seq<Change>) {
    forall c :: (exists d <- changes :: d.commit == c) <==> Reachable(h, source, c) && !Reachable(h, base, c)
  }

  /** A plan of some of a source's changes, by whatever base, against a target
      that has the result of a reconciliation. */
  ghost predicate PlannedAgain(w: World, later: CommitId, source: CommitId, summary: Summary, e: Evidence, again: seq<Change>) {
    && Reachable(w.history, later, summary.resultCommit) && EvidenceFor(w, later, e)
    && Planned(w, e, again) && forall c <- again :: Reachable(w.history, source, c.commit)
  }

  /** After a completed reconciliation, planning the same source again, by
      whatever base, finds every change covered that was not forked; so the new
      replay queue holds only forked changes, and is empty when nothing was. */
  lemma {:induction false} ReconciliationClosesCoverage(w: World, base: CommitId, changes: seq<Change>, accept: bool, applied: seq<Applied>,
    source: CommitId, head: CommitId, summary: Summary, id: FactId, later: CommitId, e: Evidence, again: seq<Change>)
    requires forall c <- changes :: c.status == CandidateEquivalent ==> accept
    requires ListsRange(w.history, base, source, changes) && Reachable(w.history, head, base)
    requires summary == Summary(source, head, AbsorbedBy(changes, ForkedBy(applied), accept), ForkedBy(applied))
    requires id !in w.catalog.conflicting && PlannedAgain(Published(w, FactOf(id, summary)), later, source, summary, e, again)
    ensures forall c <- again :: c.commit !in summary.forked ==> c.status == Covered
    ensures forall c <- Select(again, IsNew) :: c.commit in summary.forked
    ensures summary.forked == {} ==> Select(again, IsNew) == []
  {
    hide ForkedBy, AbsorbedBy, EvidenceFor, Classify, Select, Reachable;
    var after, receipt := Published(w, FactOf(id, summary)), FactOf(id, summary);
    assert receipt in after.catalog.facts && InForce(after, later, receipt);
    forall c | c in again && c.commit !in summary.forked ensures c.status == Covered {
      if Reachable(w.history, base, c.commit) {
        UnderTheBase(after, later, head, base, e, c.commit);
      } else {
        var d :| d in changes && d.commit == c.commit;
        AbsorbedIsCovered(after, changes, accept, summary.forked, later, receipt, e, d);
      }
    }
    QueueIsForked(summary.forked, again);
  }

  /** What is below the old base is below every later target. */
  lemma {:induction false} UnderTheBase(w: World, later: CommitId, head: CommitId, base: CommitId, e: Evidence, c: CommitId)
    requires Reachable(w.history, later, head) && Reachable(w.history, head, base) && Reachable(w.history, base, c)
    requires EvidenceFor(w, later, e)
    ensures StatusOf(w, c, e) == Covered
  {
    hide Reachable;
    ReachableTransitive(w.history, head, base, c);
    ReachableTransitive(w.history, later, head, c);
    assert c in e.direct.commits;
  }

  lemma {:induction false} QueueIsForked(forked: set<CommitId>, again: seq<Change>)
    requires forall c <- again :: c.commit !in forked ==> c.status == Covered
    ensures forall c <- Select(again, IsNew) :: c.commit in forked
    ensures forked == {} ==> Select(again, IsNew) == []
  {
    SelectHolds(again, IsNew);
    if forked == {} {
      forall c | c in again ensures !IsNew(c) {
        assert c !in Select(again, IsNew);
      }
      SelectNone(again, IsNew);
    }
  }

  /** Git commits a pick, and what a person staged, onto the tip. */
  ghost predicate CommitsOnTip(h: History, pick: (CommitId, CommitId) -> Picked, commit: (CommitId, TreeId) -> CommitId) {
    && (forall t, c :: !pick(t, c).Stopped? ==> Reachable(h, pick(t, c).commit, t))
    && forall t, tree :: Reachable(h, commit(t, tree), t)
  }

  /** Every change of a source is covered in any later plan of it, but the forked. */
  ghost predicate ClosedBut(w: World, source: CommitId, id: FactId, summary: Summary) {
    forall later: CommitId, e: Evidence, again: seq<Change> ::
      PlannedAgain(Published(w, FactOf(id, summary)), later, source, summary, e, again) ==>
        && (forall c <- again :: c.commit !in summary.forked ==> c.status == Covered)
        && (summary.forked == {} ==> Select(again, IsNew) == [])
  }

  /** A whole operation: start it, bring back decisions while it waits, and plan
      the source again. Only what somebody asked to fork can be left. */
  method ReconcileToTheEnd(w: World, ghost base: CommitId, plan: seq<Change>, source: CommitId, target: CommitId, accept: bool,
    predicted: Option<TreeId>, decisions: seq<Decision>, commit: (CommitId, TreeId) -> CommitId, pick: (CommitId, CommitId) -> Picked,
    treeOf: CommitId -> TreeId, id: FactId)
    returns (summary: Option<Summary>)
    requires ListsRange(w.history, base, source, plan) && Reachable(w.history, target, base)
    requires CommitsOnTip(w.history, pick, commit) && id !in w.catalog.conflicting
    ensures summary.Some? ==> ClosedBut(w, source, id, summary.value) && summary.value.sourceHead == source
    ensures summary.Some? && (forall d <- decisions :: !d.fork) ==> summary.value.forked == {}
  {
    hide Reachable, ListsRange, CommitsOnTip, ClosedBut, Select, ForkedBy, AbsorbedBy, MadeBy, Asked;
    var started := Reconcile(plan, source, target, accept, predicted);
    if started.None? { return None; }
    var operation := started.value;
    summary := FirstRun(w.history, operation, commit, pick, treeOf);
    hide Stands;
    for i := 0 to |decisions|
      invariant fresh(operation) && Stands(w.history, operation, summary)
      invariant forall g <- operation.given :: g.decision in decisions
    {
      if summary.Some? || operation.state != Paused { break; }
      summary := BringBack(w.history, operation, decisions[i], commit, pick, treeOf);
    }
    if summary.Some? {
      StandsOnBase(w.history, operation, base, summary.value);
      NobodyAsked(operation, summary.value.forked, decisions);
      ClosesCoverage(w, base, plan, accept, operation.applied, source, summary.value, id);
    }
  }

  lemma {:induction false} StandsOnBase(h: History, operation: Operation, base: CommitId, s: Summary)
    requires Stands(h, operation, Some(s)) && Reachable(h, operation.target, base)
    ensures Reachable(h, s.resultCommit, base) && operation.ForkedExactly(s.forked)
    ensures s == Summary(operation.sourceHead, s.resultCommit,
                   AbsorbedBy(operation.changes, ForkedBy(operation.applied), operation.acceptCandidates), ForkedBy(operation.applied))
  {
    hide Reachable;
    ReachableTransitive(h, operation.head, operation.target, base);
  }

  /** An operation on top of its target: waiting, ended badly, or with its receipt. */
  ghost predicate Stands(h: History, operation: Operation, summary: Option<Summary>)
    reads operation
  {
    && operation.Journaled() && Reachable(h, operation.head, operation.target)
    && match summary
       case None => operation.state == Mismatch || (operation.nextIndex < |operation.queue| && operation.state == Paused)
       case Some(s) =>
         && operation.ForkedExactly(s.forked)
         && s == Summary(operation.sourceHead, operation.head,
                   AbsorbedBy(operation.changes, ForkedBy(operation.applied), operation.acceptCandidates), ForkedBy(operation.applied))
  }

  method FirstRun(ghost h: History, operation: Operation, ghost commit: (CommitId, TreeId) -> CommitId,
    pick: (CommitId, CommitId) -> Picked, treeOf: CommitId -> TreeId)
    returns (summary: Option<Summary>)
    requires operation.Journaled() && operation.applied == [] && !operation.forked && CommitsOnTip(h, pick, commit)
    modifies operation
    ensures Stands(h, operation, summary) && operation.given == old(operation.given)
  {
    hide Reachable, CommitsOnTip, Select, ForkedBy, AbsorbedBy, MadeBy, Asked;
    SelfReach(h, operation.target);
    summary := operation.RunReconciliationQueue(pick, treeOf);
    StackReaches(h, pick, commit, operation.target, operation.applied, 0);
  }

  /** One decision for the change that waits. */
  method BringBack(ghost h: History, operation: Operation, d: Decision, commit: (CommitId, TreeId) -> CommitId,
    pick: (CommitId, CommitId) -> Picked, treeOf: CommitId -> TreeId)
    returns (summary: Option<Summary>)
    requires Stands(h, operation, None) && operation.state == Paused && CommitsOnTip(h, pick, commit)
    modifies operation
    ensures Stands(h, operation, summary) && operation.given == old(operation.given) + [Given(old(operation.nextIndex), d)]
  {
    hide Reachable, CommitsOnTip, Select, ForkedBy, AbsorbedBy, MadeBy, Asked;
    ghost var before := operation.applied;
    var refused, receipt := operation.ContinueReconciliation(d, commit, pick, treeOf);
    if refused { return None; }
    summary := receipt;
    ghost var settled := operation.applied[|before|];
    assert operation.applied[..|before|] == before && operation.applied[..|before| + 1] == before + [settled];
    SettledReaches(h, pick, commit, operation.target, before, settled, d.tree);
    StackReaches(h, pick, commit, operation.target, operation.applied, |before| + 1);
  }

  lemma {:induction false} NobodyAsked(operation: Operation, forks: set<CommitId>, decisions: seq<Decision>)
    requires operation.ForkedExactly(forks) && forall g <- operation.given :: g.decision in decisions
    ensures (forall d <- decisions :: !d.fork) ==> forks == {}
  {}

  lemma {:induction false} SettledReaches(h: History, pick: (CommitId, CommitId) -> Picked, commit: (CommitId, TreeId) -> CommitId,
    target: CommitId, applied: seq<Applied>, a: Applied, tree: TreeId)
    requires CommitsOnTip(h, pick, commit) && Reachable(h, Tip(target, applied), target)
    requires a.commit == commit(Tip(target, applied), tree)
    ensures Reachable(h, Tip(target, applied + [a]), target)
  {
    hide Reachable;
    ReachableTransitive(h, a.commit, Tip(target, applied), target);
  }

  /** What is replayed stands on the target. */
  lemma {:induction false} StackReaches(h: History, pick: (CommitId, CommitId) -> Picked, commit: (CommitId, TreeId) -> CommitId,
    target: CommitId, applied: seq<Applied>, from: nat)
    requires CommitsOnTip(h, pick, commit) && from <= |applied| && Reachable(h, Tip(target, applied[..from]), target)
    requires MadeFrom(pick, target, applied, from)
    ensures Reachable(h, Tip(target, applied), target)
    decreases |applied|
  {
    hide Reachable;
    if from == |applied| {
      assert applied[..from] == applied;
    } else {
      var rest, a := applied[..|applied| - 1], applied[|applied| - 1];
      assert rest[..from] == applied[..from];
      forall i | from <= i < |rest| ensures MadeBy(pick, Tip(target, rest[..i]), rest[i]) {
        assert rest[..i] == applied[..i] && rest[i] == applied[i];
      }
      StackReaches(h, pick, commit, target, rest, from);
      assert MadeBy(pick, Tip(target, applied[..|applied| - 1]), a);
      ReachableTransitive(h, a.commit, Tip(target, rest), target);
    }
  }

  lemma {:induction false} ClosesCoverage(w: World, base: CommitId, plan: seq<Change>, accept: bool, applied: seq<Applied>,
    source: CommitId, summary: Summary, id: FactId)
    requires forall c <- plan :: c.status == CandidateEquivalent ==> accept
    requires ListsRange(w.history, base, source, plan) && Reachable(w.history, summary.resultCommit, base)
    requires summary == Summary(source, summary.resultCommit, AbsorbedBy(plan, ForkedBy(applied), accept), ForkedBy(applied))
    requires id !in w.catalog.conflicting
    ensures ClosedBut(w, source, id, summary)
  {
    hide PlannedAgain, Reachable, ListsRange, AbsorbedBy, ForkedBy, Select;
    forall later: CommitId, e: Evidence, again: seq<Change> | PlannedAgain(Published(w, FactOf(id, summary)), later, source, summary, e, again)
      ensures (forall c <- again :: c.commit !in summary.forked ==> c.status == Covered) && (summary.forked == {} ==> Select(again, IsNew) == [])
    {
      ReconciliationClosesCoverage(w, base, plan, accept, applied, source, summary.resultCommit, summary, id, later, e, again);
    }
  }

  lemma {:induction false} AbsorbedIsCovered(w: World, changes: seq<Change>, accept: bool, forked: set<CommitId>,
    target: CommitId, receipt: Fact, e: Evidence, c: Change)
    requires c in changes && c.commit !in forked && (c.status == CandidateEquivalent ==> accept)
    requires receipt.body.Receipt? && receipt.body.absorbedCommits == Commits(AbsorbedBy(changes, forked, accept))
    requires InForce(w, target, receipt) && EvidenceFor(w, target, e)
    ensures StatusOf(w, c.commit, e) == Covered
  {
    hide InForce, EvidenceFor;
    SelectHolds(changes, Absorbable(forked, accept));
    var absorbed := AbsorbedBy(changes, forked, accept);
    var i :| 0 <= i < |absorbed| && absorbed[i] == c;
    assert Commits(absorbed)[i] == c.commit;
    ReceiptCovers(w, target, e, receipt, c.commit);
  }
}
