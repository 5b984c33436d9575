/** What a rewrite leaves when it does not end well: a process that dies while
    publishing, an abort that follows, and a receipt that claims lost work. */
module RebaseAftermath {
  import opened Git
  import opened RebaseTopology
  import opened RebaseFold
  import opened RebaseOperations
  import opened MergePlan
  import opened RebasePublication
  import Landings
  import RebaseInteractive

  // The operation a finished run publishes.

  /** The id of a commit. Every commit made during a run is a new object. */
  type Naming = Commit -> CommitId

  ghost predicate Names(name: Naming, h: History) {
    && (forall c: CommitId :: name(Original(c)) == c)
    && forall origin: CommitId, tree: TreeId, parents: seq<Commit> :: name(Rewritten(origin, tree, parents)) !in h
  }

  /** The ids minted for the facts of an operation, the resolutions captured for
      a step, and the provenance carried from one. */
  datatype Minted = Minted(application: CommitId -> FactId, amendment: CommitId -> FactId, absorption: CommitId -> FactId,
    receipt: FactId, resolutions: CommitId -> seq<ResolutionId>, provenance: CommitId -> seq<FactId>)

  datatype Plan = Plan(merging: bool, sourceHead: CommitId, changes: seq<PlanChange>, acceptCandidates: bool, changeId: CommitId -> ChangeId)

  /** The commit an application made of an origin. */
  function CommitFor(applied: seq<Application>, origin: CommitId): (r: Option<Commit>)
    ensures r.Some? ==> exists i :: 0 <= i < |applied| && applied[i].origin == origin && applied[i].commit == r.value
    ensures r.None? ==> forall i :: 0 <= i < |applied| ==> applied[i].origin != origin
  {
    if applied == [] then None
    else if applied[|applied| - 1].origin == origin then Some(applied[|applied| - 1].commit)
    else CommitFor(applied[..|applied| - 1], origin)
  }

  /** Every amendment and every absorption belongs to an application. */
  predicate Attributed(line: Line) {
    && (forall i :: 0 <= i < |line.amendments| ==> CommitFor(line.applied, line.amendments[i].origin).Some?)
    && (forall i :: 0 <= i < |line.absorptions| ==> CommitFor(line.applied, line.absorptions[i].survivor).Some?)
  }

  function CarriedFrom(ids: seq<FactId>, commit: CommitId): seq<Carried> {
    if ids == [] then [] else CarriedFrom(ids[..|ids| - 1], commit) + [Carried(ids[|ids| - 1], commit)]
  }

  function ProvenanceOf(applied: seq<Application>, name: Naming, m: Minted): seq<Carried> {
    if applied == [] then []
    else
      var last := applied[|applied| - 1];
      ProvenanceOf(applied[..|applied| - 1], name, m) + CarriedFrom(m.provenance(last.origin), name(last.commit))
  }

  /** What a run that ended in `line` publishes. */
  function OperationOf(line: Line, name: Naming, m: Minted, plan: Plan): Operation
    requires Attributed(line)
  {
    Operation(plan.merging, plan.sourceHead, name(line.head), m.receipt, plan.changes, plan.acceptCandidates,
      seq(|line.applied|, i requires 0 <= i < |line.applied| =>
        var a := line.applied[i];
        Applied(m.application(a.origin), a.origin, name(a.commit), a.relation.ContextualFork?, m.resolutions(a.origin))),
      ProvenanceOf(line.applied, name, m),
      seq(|line.joins|, i requires 0 <= i < |line.joins| =>
        Joined(line.joins[i].origin, name(line.joins[i].commit), m.resolutions(line.joins[i].origin))),
      seq(|line.amendments|, i requires 0 <= i < |line.amendments| && Attributed(line) =>
        var a := line.amendments[i];
        Amended(m.amendment(a.origin), name(CommitFor(line.applied, a.origin).value), plan.changeId(a.origin))),
      seq(|line.absorptions|, i requires 0 <= i < |line.absorptions| && Attributed(line) =>
        var a := line.absorptions[i];
        Melded(m.absorption(a.survivor), name(CommitFor(line.applied, a.survivor).value), a.absorbed)),
      line.rewritten.Keys)
  }

  /** What is published of a run, record by record: each application under its own
      commit, as a fork only when it was one; exactly the provenance of every
      applied change, carried to the commit that replaced it; each amendment and
      absorption on the commit its change was applied as; and the tip. */
  lemma {:induction false} OperationMeans(line: Line, name: Naming, m: Minted, plan: Plan)
    requires Attributed(line)
    ensures var op := OperationOf(line, name, m, plan);
            && |op.applied| == |line.applied| && |op.joins| == |line.joins|
            && |op.amendments| == |line.amendments| && |op.absorptions| == |line.absorptions|
            && (forall i :: 0 <= i < |line.applied| ==>
                  && op.applied[i].origin == line.applied[i].origin && op.applied[i].commit == name(line.applied[i].commit)
                  && (op.applied[i].forked <==> line.applied[i].relation == ContextualFork))
            && (forall id, c :: Carried(id, c) in op.provenance <==>
                  exists i :: 0 <= i < |line.applied| && id in m.provenance(line.applied[i].origin) && c == name(line.applied[i].commit))
            && (forall i :: 0 <= i < |line.joins| ==>
                  op.joins[i].origin == line.joins[i].origin && op.joins[i].commit == name(line.joins[i].commit))
            && (forall i :: 0 <= i < |line.amendments| ==>
                  && op.amendments[i].changeId == plan.changeId(line.amendments[i].origin)
                  && exists k :: 0 <= k < |line.applied| && line.applied[k].origin == line.amendments[i].origin &&
                                 op.amendments[i].commit == name(line.applied[k].commit))
            && (forall i :: 0 <= i < |line.absorptions| ==>
                  && op.absorptions[i].absorbed == line.absorptions[i].absorbed
                  && exists k :: 0 <= k < |line.applied| && line.applied[k].origin == line.absorptions[i].survivor &&
                                 op.absorptions[i].survivor == name(line.applied[k].commit))
            && op.resultCommit == name(line.head) && op.sourceHead == plan.sourceHead && op.rewritten == line.rewritten.Keys
  {
    ProvenanceIs(line.applied, name, m);
  }

  lemma {:induction false} ProvenanceIs(applied: seq<Application>, name: Naming, m: Minted)
    ensures forall id, c :: Carried(id, c) in ProvenanceOf(applied, name, m) <==>
              exists i :: 0 <= i < |applied| && id in m.provenance(applied[i].origin) && c == name(applied[i].commit)
  {
    if applied != [] {
      var rest, last := applied[..|applied| - 1], applied[|applied| - 1];
      ProvenanceIs(rest, name, m);
      CarriedIs(m.provenance(last.origin), name(last.commit));
      assert forall i :: 0 <= i < |rest| ==> rest[i] == applied[i];
      assert forall i :: 0 <= i < |applied| ==> applied[i] == if i < |rest| then rest[i] else last;
    }
  }

  lemma {:induction false} CarriedIs(ids: seq<FactId>, commit: CommitId)
    ensures forall id, c :: Carried(id, c) in CarriedFrom(ids, commit) <==> id in ids && c == commit
  {
    if ids != [] {
      CarriedIs(ids[..|ids| - 1], commit);
      assert ids == ids[..|ids| - 1] + [ids[|ids| - 1]];
    }
  }

  /** Where a run's commits come from: what it applied is rewritten, what it
      amended or melded was applied, and HEAD moved unless nothing ran. */
  ghost predicate Hangs(line: Line, onto: CommitId, executed: nat) {
    && Attributed(line)
    && (forall i :: 0 <= i < |line.applied| ==> line.applied[i].commit.Rewritten?)
    && if executed > 0 then line.head.Rewritten? else line.head == Original(onto)
  }

  lemma {:induction false} RunHangs(ctx: Context, queue: seq<Item>, k: nat)
    requires WellFormedQueue(queue) && k <= |queue| && FoldTo(ctx, queue, k).Next?
    ensures Hangs(FoldTo(ctx, queue, k).line, ctx.onto, Executed(queue, k))
  {
    hide StepOn;
    if k > 0 {
      RunHangs(ctx, queue, k - 1);
      var before, after := FoldTo(ctx, queue, k - 1).line, FoldTo(ctx, queue, k).line;
      StepGrows(ctx, queue[k - 1], before);
      StillAttributed(before, after, queue[k - 1].step.commit);
    }
  }

  /** What one step adds. */
  ghost predicate Grows(before: Line, after: Line, omitted: bool, change: CommitId) {
    && (omitted ==> after.head == before.head && after.applied == before.applied)
    && (!omitted ==> after.head.Rewritten?)
    && (after.applied == before.applied ||
        (|after.applied| == |before.applied| + 1 && after.applied[..|before.applied|] == before.applied &&
         after.applied[|before.applied|].origin == change && after.applied[|before.applied|].commit.Rewritten?))
    && (after.amendments == before.amendments ||
        (|after.amendments| == |before.amendments| + 1 && after.amendments[..|before.amendments|] == before.amendments &&
         after.amendments[|before.amendments|].origin == change && after.applied != before.applied))
    && (after.absorptions == before.absorptions ||
        (|after.absorptions| == |before.absorptions| + 1 && after.absorptions[..|before.absorptions|] == before.absorptions &&
         after.absorptions[|before.absorptions|].survivor == change && after.applied != before.applied))
  }

  lemma {:induction false} StepGrows(ctx: Context, item: Item, line: Line)
    requires WellFormed(item) && StepOn(ctx, item, line).Next?
    ensures Grows(line, StepOn(ctx, item, line).line, item.Omit?, item.step.commit)
  {
    hide AbsorbAll, SettledPick, SettledJoin, PickChange;
  }

  lemma {:induction false} StillAttributed(before: Line, after: Line, change: CommitId)
    requires Attributed(before) && (Grows(before, after, true, change) || Grows(before, after, false, change))
    ensures Attributed(after)
  {
    forall origin | CommitFor(before.applied, origin).Some? ensures CommitFor(after.applied, origin).Some? {
      var i :| 0 <= i < |before.applied| && before.applied[i].origin == origin;
      assert after.applied[i] == before.applied[i] by { assert after.applied[..|before.applied|] == before.applied; }
    }
    if after.applied != before.applied { assert CommitFor(after.applied, change).Some?; }
    forall i | 0 <= i < |after.amendments| ensures CommitFor(after.applied, after.amendments[i].origin).Some? {
      if i < |before.amendments| { assert after.amendments[i] == before.amendments[i]; }
    }
    forall i | 0 <= i < |after.absorptions| ensures CommitFor(after.applied, after.absorptions[i].survivor).Some? {
      if i < |before.absorptions| { assert after.absorptions[i] == before.absorptions[i]; }
    }
  }

  // Where the facts of an operation hang.

  lemma {:induction false} ApplicationFacts(applied: seq<Applied>, f: Fact)
    requires AppendFact(f) in ApplicationEffects(applied)
    ensures exists i :: 0 <= i < |applied| && applied[i].commit == f.attachedTo
  {
    var rest, a := applied[..|applied| - 1], applied[|applied| - 1];
    if AppendFact(f) in ApplicationEffects(rest) {
      ApplicationFacts(rest, f);
      var i :| 0 <= i < |rest| && rest[i].commit == f.attachedTo;
      assert applied[i].commit == f.attachedTo;
    } else {
      ResolutionsHaveNoFacts(a.resolutions, f);
      assert applied[|applied| - 1].commit == f.attachedTo;
    }
  }

  lemma {:induction false} ResolutionsHaveNoFacts(rs: seq<ResolutionId>, f: Fact)
    ensures AppendFact(f) !in Resolutions(rs)
  {
    if rs != [] { ResolutionsHaveNoFacts(rs[..|rs| - 1], f); }
  }

  lemma {:induction false} JoinsHaveNoFacts(joins: seq<Joined>, f: Fact)
    ensures AppendFact(f) !in JoinEffects(joins)
  {
    if joins != [] {
      JoinsHaveNoFacts(joins[..|joins| - 1], f);
      ResolutionsHaveNoFacts(joins[|joins| - 1].resolutions, f);
    }
  }

  lemma {:induction false} ProvenanceFacts(carried: seq<Carried>, f: Fact)
    requires AppendFact(f) in ProvenanceEffects(carried)
    ensures exists i :: 0 <= i < |carried| && carried[i].commit == f.attachedTo
  {
    var rest := carried[..|carried| - 1];
    if AppendFact(f) in ProvenanceEffects(rest) {
      ProvenanceFacts(rest, f);
      var i :| 0 <= i < |rest| && rest[i].commit == f.attachedTo;
      assert carried[i].commit == f.attachedTo;
    } else {
      assert carried[|carried| - 1].commit == f.attachedTo;
    }
  }

  lemma {:induction false} AmendmentFacts(amended: seq<Amended>, f: Fact)
    requires AppendFact(f) in AmendmentEffects(amended)
    ensures exists i :: 0 <= i < |amended| && amended[i].commit == f.attachedTo
  {
    var rest := amended[..|amended| - 1];
    if AppendFact(f) in AmendmentEffects(rest) {
      AmendmentFacts(rest, f);
      var i :| 0 <= i < |rest| && rest[i].commit == f.attachedTo;
      assert amended[i].commit == f.attachedTo;
    } else {
      assert amended[|amended| - 1].commit == f.attachedTo;
    }
  }

  lemma {:induction false} AbsorptionFacts(melded: seq<Melded>, f: Fact)
    requires AppendFact(f) in AbsorptionEffects(melded)
    ensures exists i :: 0 <= i < |melded| && melded[i].survivor == f.attachedTo
  {
    var rest := melded[..|melded| - 1];
    if AppendFact(f) in AbsorptionEffects(rest) {
      AbsorptionFacts(rest, f);
      var i :| 0 <= i < |rest| && rest[i].survivor == f.attachedTo;
      assert melded[i].survivor == f.attachedTo;
    } else {
      assert melded[|melded| - 1].survivor == f.attachedTo;
    }
  }

  lemma {:induction false} CarriedAt(ids: seq<FactId>, commit: CommitId, c: Carried)
    requires c in CarriedFrom(ids, commit)
    ensures c.commit == commit
  {
    if c in CarriedFrom(ids[..|ids| - 1], commit) { CarriedAt(ids[..|ids| - 1], commit, c); }
  }

  lemma {:induction false} ProvenanceAt(applied: seq<Application>, name: Naming, m: Minted, c: Carried)
    requires c in ProvenanceOf(applied, name, m)
    ensures exists i :: 0 <= i < |applied| && c.commit == name(applied[i].commit)
  {
    var rest, last := applied[..|applied| - 1], applied[|applied| - 1];
    if c in ProvenanceOf(rest, name, m) {
      ProvenanceAt(rest, name, m, c);
      var i :| 0 <= i < |rest| && c.commit == name(rest[i].commit);
      assert c.commit == name(applied[i].commit);
    } else {
      CarriedAt(m.provenance(last.origin), name(last.commit), c);
      assert c.commit == name(applied[|applied| - 1].commit);
    }
  }

  /** Everything a run publishes before its receipt hangs on a commit that it made. */
  lemma {:induction false} FactsHangOnNewCommits(line: Line, onto: CommitId, executed: nat, name: Naming, m: Minted, plan: Plan,
    h: History, f: Fact)
    requires Hangs(line, onto, executed) && Names(name, h)
    requires AppendFact(f) in Before(OperationOf(line, name, m, plan))
    ensures f.attachedTo !in h
  {
    hide ApplicationEffects, ProvenanceEffects, AmendmentEffects, AbsorptionEffects, JoinEffects, ProvenanceOf, CommitFor;
    var op := OperationOf(line, name, m, plan);
    JoinsHaveNoFacts(op.joins, f);
    if AppendFact(f) in ApplicationEffects(op.applied) {
      ApplicationFacts(op.applied, f);
    } else if AppendFact(f) in ProvenanceEffects(op.provenance) {
      ProvenanceFacts(op.provenance, f);
      var i :| 0 <= i < |op.provenance| && op.provenance[i].commit == f.attachedTo;
      ProvenanceAt(line.applied, name, m, op.provenance[i]);
    } else if AppendFact(f) in AmendmentEffects(op.amendments) {
      AmendmentFacts(op.amendments, f);
      var i :| 0 <= i < |op.amendments| && op.amendments[i].commit == f.attachedTo;
      AppliedIsNew(line, onto, executed, name, h, line.amendments[i].origin);
    } else {
      AbsorptionFacts(op.absorptions, f);
      var i :| 0 <= i < |op.absorptions| && op.absorptions[i].survivor == f.attachedTo;
      AppliedIsNew(line, onto, executed, name, h, line.absorptions[i].survivor);
    }
  }

  lemma {:induction false} AppliedIsNew(line: Line, onto: CommitId, executed: nat, name: Naming, h: History, origin: CommitId)
    requires Hangs(line, onto, executed) && Names(name, h) && CommitFor(line.applied, origin).Some?
    ensures name(CommitFor(line.applied, origin).value) !in h
  {
    var i :| 0 <= i < |line.applied| && line.applied[i].origin == origin && line.applied[i].commit == CommitFor(line.applied, origin).value;
    var c := line.applied[i].commit;
    assert c == Rewritten(c.origin, c.tree, c.parents);
  }

  /** The result commit is under an old tip exactly when no step ran and the new
      base is. */
  lemma {:induction false} ResultIsOldIff(line: Line, onto: CommitId, executed: nat, name: Naming, h: History, tip: CommitId)
    requires Hangs(line, onto, executed) && Names(name, h) && Landings.Closed(h) && tip in h
    ensures Reachable(h, tip, name(line.head)) <==> executed == 0 && Reachable(h, tip, onto)
  {
    hide Reachable;
    if executed > 0 {
      var c := line.head;
      assert c == Rewritten(c.origin, c.tree, c.parents);
      if Reachable(h, tip, name(c)) { ReachesWhatIsThere(h, tip, name(c)); }
    }
  }

  lemma {:induction false} ReachesWhatIsThere(h: History, tip: CommitId, c: CommitId)
    requires Landings.Closed(h) && tip in h && Reachable(h, tip, c)
    ensures c in h
  {
    var path :| IsPath(h, path) && path[0] == tip && path[|path| - 1] == c;
    var i := 0;
    while i < |path| - 1
      invariant 0 <= i < |path| && path[i] in h
    {
      assert path[i + 1] in h[path[i]];
      i := i + 1;
    }
  }

  // Killed while publishing, and aborted.

  ghost predicate SameCoverage(a: Coverage, b: Coverage) {
    && a.commits == b.commits && a.changeIds == b.changeIds && a.amended == b.amended
    && a.quarantined == b.quarantined && forall f :: f in a.receipts <==> f in b.receipts
  }

  /** Publishing up to some effect, then dying and aborting. */
  function KilledThenAborted(d: Disk, op: Operation, n: nat): Disk
    requires d.journal.Some? && n < |Effects(op)|
  {
    JournalStays(d, op, n);
    Aborted(PerformAll(d, op, Effects(op)[..n]), op.merging)
  }

  lemma {:induction false} JournalStays(d: Disk, op: Operation, n: nat)
    requires n < |Effects(op)|
    ensures PerformAll(d, op, Effects(op)[..n]).journal == d.journal
  {
    var es := Effects(op);
    forall i | 0 <= i < n ensures !es[i].ClearJournal? {
      if i < |Before(op)| { NothingClears(op, es[i]); assert es[i] == Before(op)[i]; }
    }
    JournalKept(d, op, es[..n]);
  }

  lemma {:induction false} JournalKept(d: Disk, op: Operation, es: seq<Effect>)
    requires forall i :: 0 <= i < |es| ==> !es[i].ClearJournal?
    ensures PerformAll(d, op, es).journal == d.journal
  {
    if es != [] { JournalKept(d, op, es[..|es| - 1]); }
  }

  lemma {:induction false} NothingClears(op: Operation, e: Effect)
    ensures e in Before(op) ==> !e.ClearJournal?
  {
    NoClear(op.applied, op.joins);
    ProvenanceNoClear(op.provenance);
    AmendmentsNoClear(op.amendments);
    AbsorptionsNoClear(op.absorptions);
  }

  lemma {:induction false} NoClear(applied: seq<Applied>, joins: seq<Joined>)
    ensures ClearJournal !in ApplicationEffects(applied) && ClearJournal !in JoinEffects(joins)
    decreases |applied| + |joins|
  {
    if applied != [] {
      NoClear(applied[..|applied| - 1], joins);
      ResolutionsNoClear(applied[|applied| - 1].resolutions);
    } else if joins != [] {
      NoClear(applied, joins[..|joins| - 1]);
      ResolutionsNoClear(joins[|joins| - 1].resolutions);
    }
  }

  lemma {:induction false} ResolutionsNoClear(rs: seq<ResolutionId>)
    ensures ClearJournal !in Resolutions(rs)
  {
    if rs != [] { ResolutionsNoClear(rs[..|rs| - 1]); }
  }

  lemma {:induction false} ProvenanceNoClear(carried: seq<Carried>)
    ensures ClearJournal !in ProvenanceEffects(carried)
  {
    if carried != [] { ProvenanceNoClear(carried[..|carried| - 1]); }
  }

  lemma {:induction false} AmendmentsNoClear(amended: seq<Amended>)
    ensures ClearJournal !in AmendmentEffects(amended)
  {
    if amended != [] { AmendmentsNoClear(amended[..|amended| - 1]); }
  }

  lemma {:induction false} AbsorptionsNoClear(melded: seq<Melded>)
    ensures ClearJournal !in AbsorptionEffects(melded)
  {
    if melded != [] { AbsorptionsNoClear(melded[..|melded| - 1]); }
  }

  ghost function OperationOfRun(ctx: Context, queue: seq<Item>, name: Naming, m: Minted, plan: Plan): Operation
    requires WellFormedQueue(queue) && FoldTo(ctx, queue, |queue|).Next?
  {
    RunHangs(ctx, queue, |queue|);
    OperationOf(FoldTo(ctx, queue, |queue|).line, name, m, plan)
  }

  /** A run killed anywhere while publishing and then aborted leaves what receipts
      say of the original tip as it was, if and only if its receipt was not out
      yet or its result is not under that tip; and the result is under it exactly
      when no step ran and the new base is. */
  lemma {:induction false} KilledThenAbortedCoversTheSameIff(ctx: Context, queue: seq<Item>, name: Naming, m: Minted, plan: Plan,
    h: History, tip: CommitId, d: Disk, n: nat, direct: set<CommitId>, conflicting: set<FactId>, r: Coverage, after: Coverage)
    requires WellFormedQueue(queue) && FoldTo(ctx, queue, |queue|).Next?
    requires Names(name, h) && Landings.Closed(h) && tip in h && forall c :: c in direct <==> Reachable(h, tip, c)
    requires var op := OperationOfRun(ctx, queue, name, m, plan);
             && d.journal.Some? && n < |Effects(op)|
             && CoverageOf(Catalog(KilledThenAborted(d, op, n).facts, conflicting), direct, after)
    requires CoverageOf(Catalog(d.facts, conflicting), direct, r)
    requires m.receipt !in conflicting && forall f <- d.facts :: f.id != m.receipt
    ensures var op := OperationOfRun(ctx, queue, name, m, plan);
            && (SameCoverage(r, after) <==> n <= |Before(op)| || op.resultCommit !in direct)
            && (op.resultCommit in direct <==> Executed(queue, |queue|) == 0 && Reachable(h, tip, ctx.onto))
  {
    hide CoverageOf, Effects, Before, Reachable, FoldTo, Attributed, Names, SameCoverage, ReceiptOf;
    var line, executed := FoldTo(ctx, queue, |queue|).line, Executed(queue, |queue|);
    RunHangs(ctx, queue, |queue|);
    var op := OperationOf(line, name, m, plan);
    ResultIsOldIff(line, ctx.onto, executed, name, h, tip);
    PublishedSoFar(d, op, n);
    forall f | f in FactsIn(Before(op)) ensures f.attachedTo !in direct {
      FactsComeFromEffects(Before(op), f);
      FactsHangOnNewCommits(line, ctx.onto, executed, name, m, plan, h, f);
      if f.attachedTo in direct { ReachesWhatIsThere(h, tip, f.attachedTo); }
    }
    var more := PublishedBy(d, op, n);
    if n <= |Before(op)| || op.resultCommit !in direct {
      ReceiptAt(op);
      UnreachableFactsDoNotCount(d.facts, more, direct, conflicting, r, after);
    } else {
      ReceiptAt(op);
      assert more[|more| - 1] == ReceiptOf(op);
      ReceiptCounts(d.facts, more, ReceiptOf(op), direct, conflicting, r, after);
    }
  }

  lemma {:induction false} ReceiptAt(op: Operation)
    ensures ReceiptOf(op).id == op.receiptId && ReceiptOf(op).attachedTo == op.resultCommit && ReceiptOf(op).body.Receipt?
  {}

  /** The facts out after a number of effects. */
  ghost function PublishedBy(d: Disk, op: Operation, n: nat): seq<Fact>
    requires n < |Effects(op)|
  {
    if n > |Before(op)| then FactsIn(Before(op)) + [ReceiptOf(op)] else FactsIn(Before(op)[..n])
  }

  lemma {:induction false} PublishedSoFar(d: Disk, op: Operation, n: nat)
    requires d.journal.Some? && n < |Effects(op)|
    ensures KilledThenAborted(d, op, n).facts == d.facts + PublishedBy(d, op, n)
    ensures forall f <- PublishedBy(d, op, n) :: f in FactsIn(Before(op)) || (n > |Before(op)| && f == ReceiptOf(op))
  {
    hide Before, ReceiptOf;
    JournalStays(d, op, n);
    ReceiptComesLast(d, op, n);
    if n > |Before(op)| {
      assert d.facts + FactsIn(Before(op)) + [ReceiptOf(op)] == d.facts + PublishedBy(d, op, n);
    } else {
      FactsAfter(d, op, Before(op)[..n]);
      forall f | f in PublishedBy(d, op, n) ensures f in FactsIn(Before(op)) {
        FactsComeFromEffects(Before(op)[..n], f);
        FactsComeFromEffects(Before(op), f);
      }
    }
  }

  lemma {:induction false} ReceiptCounts(facts: seq<Fact>, more: seq<Fact>, receipt: Fact, direct: set<CommitId>, conflicting: set<FactId>,
    r: Coverage, after: Coverage)
    requires receipt in more && receipt.body.Receipt? && receipt.attachedTo in direct
    requires receipt.id !in conflicting && forall f <- facts :: f.id != receipt.id
    requires CoverageOf(Catalog(facts, conflicting), direct, r) && CoverageOf(Catalog(facts + more, conflicting), direct, after)
    ensures receipt in after.receipts && receipt !in r.receipts && !SameCoverage(r, after)
  {
    assert Counts(Catalog(facts + more, conflicting), direct, receipt);
  }

  lemma {:induction false} UnreachableFactsDoNotCount(facts: seq<Fact>, more: seq<Fact>, direct: set<CommitId>, conflicting: set<FactId>,
    r: Coverage, after: Coverage)
    requires forall f <- more :: f.attachedTo !in direct
    requires CoverageOf(Catalog(facts, conflicting), direct, r) && CoverageOf(Catalog(facts + more, conflicting), direct, after)
    ensures SameCoverage(r, after)
  {
    var a, b := Catalog(facts, conflicting), Catalog(facts + more, conflicting);
    assert forall f :: Counts(b, direct, f) <==> Counts(a, direct, f);
    assert forall f: Fact :: f in b.facts && f.attachedTo in direct <==> f in a.facts && f.attachedTo in direct;
    assert forall f: Fact :: f in after.receipts <==> f in r.receipts;
    assert forall c :: c in after.commits <==> c in r.commits;
    assert forall c :: c in after.changeIds <==> c in r.changeIds;
    assert forall c :: c in after.amended <==> c in r.amended;
    assert forall i :: i in after.quarantined <==> i in r.quarantined;
  }

  /** It can change: the one commit of `1..2` was omitted, so the result is the new
      base, which the old tip has below it. A process killed once the receipt is
      out leaves a receipt that covers the tip, and the abort does not take it back. */
  lemma {:induction false} AllOmittedRunCoversItsOwnSource(r: Coverage, after: Coverage)
    requires CoverageOf(Catalog([], {}), {0, 1, 2}, r)
    requires CoverageOf(Catalog(KilledThenAborted(OMITTED_DISK, OmittedOperation(), 1).facts, {}), {0, 1, 2}, after)
    ensures 2 !in r.commits && 2 in after.commits
  {
    var op := OmittedOperation();
    assert Before(op) == [];
    PublishedSoFar(OMITTED_DISK, op, 1);
    assert FactsIn([]) == [];
    var receipt := ReceiptOf(op);
    assert KilledThenAborted(OMITTED_DISK, op, 1).facts == [receipt];
    assert receipt.body.absorbedCommits == [2] by { assert op.changes[..0] == []; }
    assert Counts(Catalog([receipt], {}), {0, 1, 2}, receipt);
    assert receipt in after.receipts;
  }

  // How the plan of that input comes to omit: both commits carry one identity.

  const OMITTED_WORLD: Landings.World := Landings.World(OMITTED_HISTORY, OMITTED_PLAN.changeId, c => None, Catalog([], {}))
  const OMITTED_EVIDENCE := Evidence(Direct({0, 1}, {0, 7}), Coverage([], {}, {}, {}, {}), {})
  const OMITTED_NODES := [Node(2, [1])]

  /** What a plan makes of a status before anything is declared. */
  function PlannedAs(status: Status): RebaseInteractive.Planned {
    match status
    case New => RebaseInteractive.Replayed
    case Covered => RebaseInteractive.Covered
    case CandidateEquivalent => RebaseInteractive.Review
  }

  lemma {:induction false} OmittedReach()
    ensures forall c: CommitId :: c in {0, 1} <==> Reachable(OMITTED_HISTORY, 1, c)
    ensures forall c: CommitId :: c in {0, 1, 2} <==> Reachable(OMITTED_HISTORY, 2, c)
  {
    assert IsPath(OMITTED_HISTORY, [1]) && IsPath(OMITTED_HISTORY, [1, 0]);
    assert IsPath(OMITTED_HISTORY, [2]) && IsPath(OMITTED_HISTORY, [2, 1]) && IsPath(OMITTED_HISTORY, [2, 1, 0]);
    assert [2][0] == 2 && [2, 1][1] == 1 && [2, 1, 0][2] == 0 && [1][0] == 1 && [1, 0][1] == 0;
    forall c: CommitId | Reachable(OMITTED_HISTORY, 2, c) ensures c in {0, 1, 2} {
      ReachesWhatIsThere(OMITTED_HISTORY, 2, c);
    }
    forall c: CommitId | Reachable(OMITTED_HISTORY, 1, c) ensures c in {0, 1} {
      var h: History := map[0 := [], 1 := [0]];
      var p :| IsPath(OMITTED_HISTORY, p) && p[0] == 1 && p[|p| - 1] == c;
      Landings.StaysIn(h, OMITTED_HISTORY, p);
    }
  }

  lemma {:induction false} OmittedIsEvidence()
    ensures Landings.EvidenceFor(OMITTED_WORLD, 1, OMITTED_EVIDENCE)
  {
    OmittedReach();
    hide Reachable;
    assert OMITTED_WORLD.changeId(1) == 7 && OMITTED_WORLD.changeId(0) == 0;
    assert Reachable(OMITTED_HISTORY, 1, 0) && Reachable(OMITTED_HISTORY, 1, 1);
  }

  lemma {:induction false} OmittedIsTheRange()
    ensures IsRange(OMITTED_HISTORY, 1, 2, OMITTED_NODES) && StepOf(OMITTED_NODES[0], Commits(OMITTED_NODES)) == OMITTED_QUEUE[0].step
  {
    OmittedReach();
    hide Reachable;
    assert Commits(OMITTED_NODES) == {2} by { assert OMITTED_NODES[0] in OMITTED_NODES; }
    assert ParentsOf(OMITTED_NODES[0], {2}) == [NewBase(Some(1))];
  }

  /** The planner covers commit 2 by the identity that the new base carries, and
      the program of that plan omits it. */
  lemma {:induction false} OmittedIsPlanned()
    ensures Landings.EvidenceFor(OMITTED_WORLD, 1, OMITTED_EVIDENCE) && OMITTED_WORLD.catalog.facts == OMITTED_DISK.facts
    ensures IsRange(OMITTED_HISTORY, 1, 2, OMITTED_NODES)
    ensures Classify(2, OMITTED_WORLD.changeId(2), OMITTED_EVIDENCE) == (Covered, StableChangeId)
    ensures var status := Classify(2, OMITTED_WORLD.changeId(2), OMITTED_EVIDENCE).0;
            OMITTED_QUEUE == RebaseInteractive.RebaseProgram([StepOf(OMITTED_NODES[0], Commits(OMITTED_NODES))],
                               [RebaseInteractive.PlanChange(2, PlannedAs(status))], RebaseInteractive.Program([], map[]))
  {
    OmittedIsEvidence();
    OmittedIsTheRange();
    hide Landings.EvidenceFor, IsRange, StepOf, Commits;
  }

  /** The input is a run of its program over its history. */
  lemma {:induction false} OmittedRunIsARun()
    ensures WellFormedQueue(OMITTED_QUEUE) && FoldTo(OMITTED_CONTEXT, OMITTED_QUEUE, 1) == Next(OmittedLine())
    ensures OmittedOperation() == OperationOfRun(OMITTED_CONTEXT, OMITTED_QUEUE, OMITTED_NAMES, OMITTED_IDS, OMITTED_PLAN)
    ensures Names(OMITTED_NAMES, OMITTED_HISTORY) && Landings.Closed(OMITTED_HISTORY)
    ensures forall c: CommitId :: c in {0, 1, 2} <==> Reachable(OMITTED_HISTORY, 2, c)
  {
    assert FoldTo(OMITTED_CONTEXT, OMITTED_QUEUE, 1) == StepOn(OMITTED_CONTEXT, OMITTED_QUEUE[0], Start(1));
    OmittedReach();
  }

  const OMITTED_HISTORY: History := map[0 := [], 1 := [0], 2 := [1]]
  const OMITTED_CONTEXT := Context(LOST_GIT, 1, ByPerson, Answers(c => None, c => None, c => None, c => None))
  const OMITTED_QUEUE := [Omit(Step(false, 2, [NewBase(Some(1))]))]
  const OMITTED_NAMES: Naming := (c: Commit) => if c.Original? then c.id else 9
  const OMITTED_IDS := Minted(c => 0, c => 0, c => 0, 7, c => [], c => [])
  const OMITTED_PLAN: Plan := Plan(false, 2, [PlanChange(2, 7, false)], false, c => if c == 0 then 0 else 7)
  const OMITTED_DISK := Disk(1, NothingPending, false, map[], Some(Journal(2, map[2 := 1], false, false, false)), [], [])

  function OmittedLine(): Line {
    Start(1).(rewritten := map[2 := Original(1)])
  }

  function OmittedOperation(): Operation {
    OperationOf(OmittedLine(), OMITTED_NAMES, OMITTED_IDS, OMITTED_PLAN)
  }

  // What the receipt claims.

  lemma {:induction false} ClaimedHolds(changes: seq<PlanChange>, forked: set<CommitId>, accept: bool, c: PlanChange)
    ensures c in Claimed(changes, forked, accept) <==> c in changes && c.commit !in forked && (!c.review || accept)
  {
    if changes != [] {
      ClaimedHolds(changes[..|changes| - 1], forked, accept, c);
      assert changes == changes[..|changes| - 1] + [changes[|changes| - 1]];
    }
  }

  lemma {:induction false} CommitsHold(changes: seq<PlanChange>, c: PlanChange)
    requires c in changes
    ensures c.commit in CommitsOf(changes)
  {
    var rest, last := changes[..|changes| - 1], changes[|changes| - 1];
    assert changes == rest + [last];
    if c != last { CommitsHold(rest, c); }
  }

  /** The receipt claims every change declared into a survivor. That work is in
      the result if and only if the survivor's own pick was clean. */
  lemma {:induction false} ClaimOfAbsorbedWorkHoldsIff(ctx: Context, queue: seq<Item>, i: nat, c: PlanChange,
    changes: seq<PlanChange>, forked: set<CommitId>, accept: bool)
    requires WellFormedQueue(queue) && i < |queue| && FoldTo(ctx, queue, |queue|).Next? && AbsorbedOnlyBy(queue, i, c.commit)
    requires c in changes && c.commit !in forked && !c.review
    ensures c.commit in CommitsOf(Claimed(changes, forked, accept))
    ensures TimesAbsorbed(FoldTo(ctx, queue, |queue|).line.absorptions, c.commit) == 1 <==> PickedCleanly(ctx, queue, i)
    ensures !PickedCleanly(ctx, queue, i) ==> TimesAbsorbed(FoldTo(ctx, queue, |queue|).line.absorptions, c.commit) == 0
  {
    hide FoldTo, PickedCleanly, AbsorbedOnlyBy, TimesAbsorbed;
    ClaimedHolds(changes, forked, accept, c);
    CommitsHold(Claimed(changes, forked, accept), c);
    AbsorbedOnceIffSurvivorClean(ctx, queue, |queue|, i, c.commit);
  }

  const LOST_GIT := Git(c => c, c => if c == 2 then 1 else 0, t => 0, (a, b, o, t) => Conflicted([[]]), (b, o, t, rs) => 0,
    (a, b) => true, (a, b) => Clean(0), (a, b, rs) => 0)

  const LOST_CONTEXT := Context(LOST_GIT, 0, ByPerson, Answers(c => Some(Resolution(9, false)), c => None, c => None, c => None))
  const LOST_QUEUE := [Pick(Step(false, 1, [NewBase(Some(0))]), Replay, [2]), Omit(Step(false, 2, [InRange(1)]))]
  const LOST_CHANGES := [PlanChange(1, 1, false), PlanChange(2, 2, false)]

  /** The survivor's own pick conflicts and is settled by a person. */
  lemma {:induction false} SurvivorConflicts()
    ensures WellFormedQueue(LOST_QUEUE)
    ensures var one := FoldTo(LOST_CONTEXT, LOST_QUEUE, 1);
            one.Next? && one.line.absorptions == [] && 1 in one.line.rewritten
  {
    assert PickChange(LOST_GIT, 1, 0) == Conflicted([[]]);
    var start := Start(0);
    var parents := ResolveStepParents(LOST_QUEUE[0].step.parents, 0, start.rewritten);
    assert parents.Some? && |parents.value| == 1 && parents.value[0] == Original(0);
    assert FoldTo(LOST_CONTEXT, LOST_QUEUE, 1) == StepOn(LOST_CONTEXT, LOST_QUEUE[0], start);
  }

  /** It can be lost: the survivor conflicts, a person settles it, its absorption
      never runs, and the receipt still claims the change. */
  lemma {:induction false} ReceiptCanClaimLostWork()
    ensures WellFormedQueue(LOST_QUEUE) && FoldTo(LOST_CONTEXT, LOST_QUEUE, 2).Next?
    ensures FoldTo(LOST_CONTEXT, LOST_QUEUE, 2).line.absorptions == []
    ensures 2 in LOST_QUEUE[0].absorbs && 2 in CommitsOf(Claimed(LOST_CHANGES, {}, false))
  {
    hide PickStep, LOST_GIT;
    SurvivorConflicts();
    var one := FoldTo(LOST_CONTEXT, LOST_QUEUE, 1).line;
    assert FoldTo(LOST_CONTEXT, LOST_QUEUE, 2) == StepOn(LOST_CONTEXT, LOST_QUEUE[1], one);
    hide FoldTo, StepOn;
    ClaimedHolds(LOST_CHANGES, {}, false, LOST_CHANGES[1]);
    assert LOST_CHANGES[1] in LOST_CHANGES;
    CommitsHold(Claimed(LOST_CHANGES, {}, false), LOST_CHANGES[1]);
  }

  // A fork that was asked for.

  /** The receipt of a finished run leaves out a change it applied if and only if
      a decision on it asked for a fork, refused or not, or nobody accepted it. */
  lemma {:induction false} ForkIsUnclaimedIff(op: RebaseOperation, name: Naming, m: Minted, plan: Plan, c: PlanChange)
    requires op.Coherent() && op.state == Running && op.nextIndex == |op.queue| && op.nodes != []
    requires exists i :: 0 <= i < |op.applied| && op.applied[i].origin == c.commit
    ensures var published := OperationOfRun(op.Ctx(), op.queue, name, m, plan);
            c in Claimed(plan.changes, Forked(published.applied), plan.acceptCandidates) <==>
              c in plan.changes && (!c.review || plan.acceptCandidates) && !Asked(op.given, c.commit)
  {
    hide FoldTo, StepOn, Asked, Claimed;
    op.ExhaustedIsTheFold();
    var line, published := FoldTo(op.Ctx(), op.queue, |op.queue|).line, OperationOfRun(op.Ctx(), op.queue, name, m, plan);
    ClaimedHolds(plan.changes, Forked(published.applied), plan.acceptCandidates, c);
    assert |published.applied| == |line.applied|;
    assert forall i :: 0 <= i < |line.applied| ==>
        && published.applied[i].origin == line.applied[i].origin
        && (published.applied[i].forked <==> line.applied[i].relation == ContextualFork);
    var i :| 0 <= i < |line.applied| && line.applied[i].origin == c.commit;
    assert published.applied[i].forked ==> c.commit in Forked(published.applied);
  }

  const FORK_QUEUE := [Pick(Step(false, 1, [NewBase(Some(0))]), Replay, [])]
  const FORK_NODES := [Node(1, [0])]
  const FORK_ANSWERS := Answers(c => Some(Resolution(9, true)), c => None, c => None, c => None)

  lemma {:induction false} ForkIsAProgram()
    ensures Rooted(FORK_NODES) && ProgramOf(FORK_NODES, FORK_QUEUE) && WellFormedQueue(FORK_QUEUE)
  {
    assert Commits(FORK_NODES) == {1} by { assert FORK_NODES[0] in FORK_NODES; }
  }

  /** Nobody was asked yet, so the operation waits at its only conflict. */
  lemma {:induction false} WaitsAtTheConflict(op: RebaseOperation)
    requires op.Coherent() && !op.tampered && op.given == [] && op.state != Running
    requires IsForkRun(op)
    ensures op.state == AwaitingResolution && op.nextIndex == 0 && op.current.value.before == 0 && !op.current.value.forked
  {
    hide FoldTo, StepOn;
    assert op.nextIndex == 0;
    if op.InStep() {
      assert op.Parents().value[0] == Original(0);
      assert PickChange(LOST_GIT, 1, 0) == Conflicted([[]]);
    }
  }

  /** The answer held for its conflict is a fork, so it is not passed before
      someone asked for one. */
  lemma {:induction false} NotPassedUnasked(op: RebaseOperation)
    requires op.Coherent() && op.given == []
    requires IsForkRun(op)
    ensures op.nextIndex == 0
  {
    ForkRecords(op.Ctx());
    hide FoldTo, StepOn;
  }

  lemma {:induction false} ForkRecords(ctx: Context)
    requires ctx == Context(LOST_GIT, 0, ByPerson, FORK_ANSWERS) && WellFormedQueue(FORK_QUEUE)
    ensures var after := FoldTo(ctx, FORK_QUEUE, 1);
            after.Next? && |after.line.applied| == 1 && after.line.applied[0].relation == ContextualFork && after.line.applied[0].origin == 1
  {
    var start := Start(0);
    var parents := ResolveStepParents(FORK_QUEUE[0].step.parents, 0, start.rewritten);
    assert parents.Some? && |parents.value| == 1 && parents.value[0] == Original(0);
    assert PickChange(LOST_GIT, 1, 0) == Conflicted([[]]);
    assert FoldTo(ctx, FORK_QUEUE, 1) == StepOn(ctx, FORK_QUEUE[0], start);
  }

  ghost predicate IsForkRun(op: RebaseOperation) {
    op.git == LOST_GIT && op.onto == 0 && op.queue == FORK_QUEUE && op.approval.None? && op.answers == FORK_ANSWERS
  }

  lemma {:induction false} RecordedAsAFork(op: RebaseOperation)
    requires op.Coherent() && op.nextIndex == 1 && IsForkRun(op)
    ensures |op.applied| == 1 && op.applied[0].origin == 1 && op.applied[0].relation == ContextualFork
  {
    ForkRecords(op.Ctx());
    hide FoldTo, StepOn;
  }

  method RunToTheConflict() returns (op: RebaseOperation)
    ensures fresh(op) && IsForkRun(op) && op.Coherent() && op.state == AwaitingResolution && op.nextIndex == 0 && op.given == []
    ensures op.current.Some? && op.current.value.before == 0 && !op.current.value.forked
  {
    hide FoldTo, StepOn;
    ForkIsAProgram();
    op := new RebaseOperation(LOST_GIT, 0, FORK_QUEUE, None, FORK_NODES, FORK_ANSWERS);
    var exit := op.RunRebaseQueue();
    NotPassedUnasked(op);
    WaitsAtTheConflict(op);
  }

  /** A fork is asked for with nothing resolved, and Git refuses the empty
      commit. The plain decision that follows is recorded as a fork. */
  method RefusedForkStays() returns (first: Exit, second: Exit, op: RebaseOperation)
    ensures first == Refused && second == Exhausted
    ensures op.Coherent() && op.given == [Given(1, Decision(0, true, false)), Given(1, Decision(9, false, false))]
    ensures |op.applied| == 1 && op.applied[0].origin == 1 && op.applied[0].relation == ContextualFork
  {
    hide FoldTo, StepOn, LOST_GIT;
    op := RunToTheConflict();
    first := op.ContinueRebase(Decision(0, true, false));
    second := op.ContinueRebase(Decision(9, false, false));
    RecordedAsAFork(op);
  }

  // Aborting an operation whose worktree nobody touched.

  /** What an operation at rest has left on disk by itself. Folding works in the
      index and the worktree, without a pick that Git knows of; every other step
      that stops leaves a pick or a join pending, or nothing. */
  ghost predicate Untouched(op: RebaseOperation, d: Disk)
    reads op
  {
    && d.journal.Some? && !d.journal.value.overlayRematerialized
    && d.journal.value.awaitingAbsorption == (op.state == AwaitingAbsorption)
    && if Folding(op) then
         d.pending == NothingPending && (d.dirty <==> op.state == AwaitingAbsorption || op.Uncommitted())
       else
         d.dirty ==> d.pending != NothingPending
  }

  ghost predicate Folding(op: RebaseOperation)
    reads op
  {
    op.current.Some? && op.current.value.absorption.Some?
  }

  /** Abort refuses the dirt an untouched operation made itself in exactly two
      states: the survivor was cancelled by what it absorbed, or folding was
      blocked after at least one change was staged. */
  lemma {:induction false} UntouchedAbortIsRefusedIff(op: RebaseOperation, d: Disk)
    requires op.Coherent() && Untouched(op, d)
    ensures !Abortable(d) <==> op.state == Applying || (op.state == Blocked && op.Uncommitted())
    ensures op.state == Applying ==> op.Cancelled()
    ensures op.state == Blocked && op.Uncommitted() ==> op.CannotApply() && Folding(op) && op.current.value.absorption.value.next > 0
  {
    hide FoldTo, StepOn;
    if op.state == Applying { CancelledIsUncommitted(op); }
    if op.state == Blocked && op.Uncommitted() { BlockedAfterOne(op); }
    if op.state == AwaitingMessage || op.state == AwaitingContent { assert op.Survived(); }
  }

  lemma {:induction false} CancelledIsUncommitted(op: RebaseOperation)
    requires op.Cancelled()
    ensures op.Uncommitted()
  {
    hide FoldTo, StepOn;
  }

  lemma {:induction false} BlockedAfterOne(op: RebaseOperation)
    requires op.CannotApply() && op.Uncommitted()
    ensures op.current.value.absorption.value.next > 0
  {
    hide FoldTo, StepOn;
  }

  /** A process that dies while folding leaves its journal at `applying`. Its
      abort is refused exactly when a change was left half merged, or what is
      staged is not what HEAD holds; while nothing was folded it is not. */
  lemma {:induction false} KilledWhileFoldingIsRefusedIff(op: RebaseOperation, d: Disk, unmerged: bool)
    requires op.state == Applying && op.InStep() && Folding(op) && op.Absorbing(op.current.value.absorption.value)
    requires d.journal.Some? && !d.journal.value.overlayRematerialized && !d.journal.value.awaitingAbsorption
    requires d.pending == NothingPending && (d.dirty <==> unmerged || op.Uncommitted())
    ensures var cursor := op.current.value.absorption.value;
            var picked := PickChange(op.git, op.Change(), op.current.value.before);
            && picked.Clean?
            && (!Abortable(d) <==> unmerged || AbsorbAll(op.Ctx(), cursor.items[..cursor.next], picked.tree) != Some(picked.tree))
            && (cursor.next == 0 && !unmerged ==> Abortable(d))
  {
    hide FoldTo, StepOn;
    var cursor := op.current.value.absorption.value;
    if cursor.next == 0 { assert cursor.items[..0] == []; }
  }

  // A survivor that absorbs its own inverse.

  const INVERSE_GIT := Git(c => if c == 1 then 1 else 0, c => if c == 2 then 1 else 0, t => 0,
    (a: Attributes, b: TreeId, o: TreeId, t: TreeId) => if o == b then Clean(t) else Conflicted([[]]), (b, o, t, rs) => 0,
    (a, b) => true, (a, b) => Clean(0), (a, b, rs) => 0)
  const INVERSE_NODES := [Node(1, [0]), Node(2, [1])]
  const INVERSE_QUEUE := [Pick(Step(false, 1, [NewBase(Some(0))]), Replay, [2]), Omit(Step(false, 2, [InRange(1)]))]
  const NOBODY := Answers(c => None, c => None, c => None, c => None)

  lemma {:induction false} InverseIsAProgram()
    ensures Rooted(INVERSE_NODES) && ProgramOf(INVERSE_NODES, INVERSE_QUEUE)
  {
    assert Commits(INVERSE_NODES) == {1, 2} by {
      assert INVERSE_NODES[0] in INVERSE_NODES && INVERSE_NODES[1] in INVERSE_NODES;
    }
    assert INVERSE_NODES[1].parents[0] == INVERSE_NODES[0].commit;
    assert IsParent(INVERSE_NODES, 0, 1);
  }

  /** Its fold is stuck at the first step. */
  lemma {:induction false} InverseIsStuck()
    requires WellFormedQueue(INVERSE_QUEUE)
    ensures FoldTo(Context(INVERSE_GIT, 0, ByPerson, NOBODY), INVERSE_QUEUE, 1) == Stuck(EmptyResult)
  {
    var ctx, start := Context(INVERSE_GIT, 0, ByPerson, NOBODY), Start(0);
    var parents := ResolveStepParents(INVERSE_QUEUE[0].step.parents, 0, start.rewritten);
    assert parents.Some? && |parents.value| == 1 && parents.value[0] == Original(0);
    assert PickChange(INVERSE_GIT, 1, 0) == Clean(1);
    assert MergeChange(INVERSE_GIT, 2, 1) == Clean(0);
    assert AbsorbAll(ctx, [2], 1) == Some(0) by { assert [2][1..] == []; }
    assert FoldTo(ctx, INVERSE_QUEUE, 1) == StepOn(ctx, INVERSE_QUEUE[0], start);
  }

  lemma {:induction false} InverseIsCancelled(op: RebaseOperation)
    requires op.Coherent() && !op.tampered && op.state != Running
    requires op.git == INVERSE_GIT && op.onto == 0 && op.queue == INVERSE_QUEUE && op.approval.None? && op.answers == NOBODY
    ensures op.state == Applying
  {
    InverseIsStuck();
    var ctx := op.Ctx();
    if op.nextIndex > 0 { FoldToEarlier(ctx, op.queue, op.nextIndex, 1); }
    hide FoldTo, StepOn;
    assert op.nextIndex == 0;
    if op.InStep() {
      assert op.Parents().value[0] == Original(0);
      assert PickChange(INVERSE_GIT, 1, 0) == Clean(1);
      assert MergeChange(INVERSE_GIT, 2, 1) == Clean(0);
      assert [2][..0] == [] && [2][..1] == [2] && [2][1..] == [];
      assert AbsorbAll(ctx, [2], 1) == Some(0);
    }
  }

  /** The operation stops with the inverse staged, and abort refuses the dirt
      that the operation made. */
  method AbortAfterAbsorbingTheInverse() returns (done: bool)
    ensures !done
  {
    InverseIsAProgram();
    InverseIsStuck();
    var op := new RebaseOperation(INVERSE_GIT, 0, INVERSE_QUEUE, None, INVERSE_NODES, NOBODY);
    var exit := op.RunRebaseQueue();
    NotToTheEnd(op);
    InverseIsCancelled(op);
    CancelledIsUncommitted(op);
    var left := Disk(1, NothingPending, op.staged != Tree(op.git, op.head), map[],
      Some(Journal(2, map[], op.state == AwaitingAbsorption, false, false)), [], []);
    assert Untouched(op, left);
    UntouchedAbortIsRefusedIff(op, left);
    var session := new Session(left);
    done := session.AbortRebase(false);
  }

  lemma {:induction false} NotToTheEnd(op: RebaseOperation)
    requires op.Coherent() && op.git == INVERSE_GIT && op.onto == 0 && op.queue == INVERSE_QUEUE && op.approval.None? && op.answers == NOBODY
    ensures op.nextIndex == 0
  {
    InverseIsStuck();
    if op.nextIndex > 0 { FoldToEarlier(op.Ctx(), op.queue, op.nextIndex, 1); }
  }
}
