/** The end of a rewrite: the checks before anything is published, the order of
    what is, the abort that undoes the rest, and a process that dies anywhere
    between. */
module RebasePublication {
  import opened Git
  import opened RebaseTopology
  import opened RebaseFold
  import opened MergePlan

  datatype Pending = NothingPending | PickPending | JoinPending

  /** What the journal on disk says of the operation in progress. */
  datatype Journal = Journal(originalHead: CommitId, rewritten: map<CommitId, CommitId>, awaitingAbsorption: bool,
    mismatch: bool, overlayRematerialized: bool)

  /** Everything a process that dies leaves behind. An anchor is a ref named
      after a commit of the range, at the commit that replaced it. */
  datatype Disk = Disk(head: CommitId, pending: Pending, dirty: bool, anchors: map<CommitId, CommitId>, journal: Option<Journal>,
    facts: seq<Fact>, resolutions: seq<ResolutionId>)

  datatype Applied = Applied(id: FactId, origin: CommitId, commit: CommitId, forked: bool, resolutions: seq<ResolutionId>)
  datatype Joined = Joined(origin: CommitId, commit: CommitId, resolutions: seq<ResolutionId>)
  datatype Amended = Amended(id: FactId, commit: CommitId, changeId: ChangeId)
  datatype Melded = Melded(id: FactId, survivor: CommitId, absorbed: seq<CommitId>)
  datatype Carried = Carried(id: FactId, commit: CommitId)
  datatype PlanChange = PlanChange(commit: CommitId, changeId: ChangeId, review: bool)

  /** A finished operation, ready to be published. */
  datatype Operation = Operation(
    merging: bool,
    sourceHead: CommitId, resultCommit: CommitId, receiptId: FactId,
    changes: seq<PlanChange>, acceptCandidates: bool,
    applied: seq<Applied>, provenance: seq<Carried>, joins: seq<Joined>,
    amendments: seq<Amended>, absorptions: seq<Melded>,
    rewritten: set<CommitId>)

  // The receipt.

  function Forked(applied: seq<Applied>): set<CommitId> {
    set i | 0 <= i < |applied| && applied[i].forked :: applied[i].origin
  }

  /** The changes the receipt claims: not forked, and decided. */
  function Claimed(changes: seq<PlanChange>, forked: set<CommitId>, accept: bool): seq<PlanChange> {
    if changes == [] then []
    else
      var last := changes[|changes| - 1];
      Claimed(changes[..|changes| - 1], forked, accept) +
      if last.commit !in forked && (!last.review || accept) then [last] else []
  }

  function CommitsOf(changes: seq<PlanChange>): (r: seq<CommitId>)
    ensures |r| == |changes|
  {
    if changes == [] then [] else CommitsOf(changes[..|changes| - 1]) + [changes[|changes| - 1].commit]
  }

  function IdsOf(changes: seq<PlanChange>): seq<ChangeId> {
    if changes == [] then [] else IdsOf(changes[..|changes| - 1]) + [changes[|changes| - 1].changeId]
  }

  function ReceiptOf(op: Operation): Fact {
    var claimed := Claimed(op.changes, Forked(op.applied), op.acceptCandidates);
    Fact(op.receiptId, op.resultCommit, Receipt(Some(op.sourceHead), CommitsOf(claimed), IdsOf(claimed)))
  }

  // Publishing, one effect at a time.

  datatype Effect =
    | PublishResolution(resolution: ResolutionId)
    | AppendFact(fact: Fact)
    | ReleaseAnchors
    | ClearJournal

  function Perform(d: Disk, op: Operation, e: Effect): Disk {
    match e
    case PublishResolution(r) => d.(resolutions := d.resolutions + [r])
    case AppendFact(f) => d.(facts := d.facts + [f])
    case ReleaseAnchors => if op.merging then d.(anchors := d.anchors - op.rewritten) else d
    case ClearJournal => d.(journal := None)
  }

  function PerformAll(d: Disk, op: Operation, es: seq<Effect>): Disk {
    if es == [] then d else Perform(PerformAll(d, op, es[..|es| - 1]), op, es[|es| - 1])
  }

  function Resolutions(rs: seq<ResolutionId>): seq<Effect> {
    if rs == [] then [] else Resolutions(rs[..|rs| - 1]) + [PublishResolution(rs[|rs| - 1])]
  }

  function ApplicationEffects(applied: seq<Applied>): seq<Effect> {
    if applied == [] then []
    else
      var a := applied[|applied| - 1];
      ApplicationEffects(applied[..|applied| - 1]) + (Resolutions(a.resolutions) + [AppendFact(Fact(a.id, a.commit, OtherFact))])
  }

  function ProvenanceEffects(carried: seq<Carried>): seq<Effect> {
    if carried == [] then []
    else ProvenanceEffects(carried[..|carried| - 1]) + [AppendFact(Fact(carried[|carried| - 1].id, carried[|carried| - 1].commit, OtherFact))]
  }

  function JoinEffects(joins: seq<Joined>): seq<Effect> {
    if joins == [] then [] else JoinEffects(joins[..|joins| - 1]) + Resolutions(joins[|joins| - 1].resolutions)
  }

  function AmendmentEffects(amended: seq<Amended>): seq<Effect> {
    if amended == [] then []
    else
      var a := amended[|amended| - 1];
      AmendmentEffects(amended[..|amended| - 1]) + [AppendFact(Fact(a.id, a.commit, Body.Amendment(a.changeId)))]
  }

  function AbsorptionEffects(melded: seq<Melded>): seq<Effect> {
    if melded == [] then []
    else
      var m := melded[|melded| - 1];
      AbsorptionEffects(melded[..|melded| - 1]) + [AppendFact(Fact(m.id, m.survivor, OtherFact))]
  }

  /** Everything published before the receipt. */
  function Before(op: Operation): seq<Effect> {
    ApplicationEffects(op.applied) + ProvenanceEffects(op.provenance) + JoinEffects(op.joins) +
    AmendmentEffects(op.amendments) + AbsorptionEffects(op.absorptions)
  }

  function Effects(op: Operation): seq<Effect> {
    Before(op) + [AppendFact(ReceiptOf(op)), ReleaseAnchors, ClearJournal]
  }

  lemma {:induction false} PerformMore(d: Disk, op: Operation, first: seq<Effect>, rest: seq<Effect>)
    ensures PerformAll(d, op, first + rest) == PerformAll(PerformAll(d, op, first), op, rest)
  {
    if rest == [] {
      assert first + rest == first;
    } else {
      assert (first + rest)[..|first| + |rest| - 1] == first + rest[..|rest| - 1];
      PerformMore(d, op, first, rest[..|rest| - 1]);
    }
  }

  // The overlay and the predictions checked before anything is published.

  datatype Overlay = NoOverlay | Merges(tree: TreeId, predicted: Option<TreeId>) | Conflicts

  predicate Predicted(predictedTree: Option<TreeId>, resultTree: TreeId, overlay: Overlay) {
    && (predictedTree.Some? ==> predictedTree.value == resultTree)
    && !overlay.Conflicts?
    && (overlay.Merges? && overlay.predicted.Some? ==> overlay.predicted.value == overlay.tree)
  }

  /** The overlay merged back into the worktree before publishing. */
  function Rematerialized(d: Disk, overlay: Overlay): (r: Disk)
    ensures r.head == d.head && r.pending == d.pending && r.anchors == d.anchors && r.facts == d.facts && r.resolutions == d.resolutions
    ensures r.journal.Some? <==> d.journal.Some?
    ensures !overlay.Merges? ==> r == d
    ensures overlay.Merges? ==> r.dirty && (r.journal.Some? ==> r.journal.value.overlayRematerialized)
    ensures r.journal.Some? ==> r.journal.value.originalHead == d.journal.value.originalHead &&
                                r.journal.value.rewritten == d.journal.value.rewritten
  {
    if !overlay.Merges? then d
    else
      d.(dirty := true, journal := if d.journal.None? then None else Some(d.journal.value.(overlayRematerialized := true)))
  }

  // Anchors and abort.

  function Anchored(d: Disk, merging: bool, origin: CommitId, commit: CommitId): Disk {
    if merging then d.(anchors := d.anchors[origin := commit]) else d
  }

  function Advanced(d: Disk, origin: CommitId, commit: CommitId): Disk
    requires d.journal.Some?
  {
    d.(journal := Some(d.journal.value.(rewritten := d.journal.value.rewritten[origin := commit])))
  }

  predicate Abortable(d: Disk) {
    d.journal.Some? &&
    (d.pending != NothingPending || d.journal.value.awaitingAbsorption || d.journal.value.overlayRematerialized || !d.dirty)
  }

  function Aborted(d: Disk, merging: bool): Disk
    requires d.journal.Some?
  {
    var j := d.journal.value;
    Disk(j.originalHead, NothingPending,
      d.head == j.originalHead && d.pending == NothingPending && d.dirty,
      if merging then d.anchors - j.rewritten.Keys else d.anchors,
      None, d.facts, d.resolutions)
  }

  class Session {
    var disk: Disk

    constructor (d: Disk)
      ensures disk == d
    {
      disk := d;
    }

    /** Marks the operation stuck; nothing else changes. */
    method MarkMismatch()
      modifies `disk
      ensures disk == if old(disk).journal.Some?
                      then old(disk).(journal := Some(old(disk).journal.value.(mismatch := true))) else old(disk)
    {
      if disk.journal.Some? { disk := disk.(journal := Some(disk.journal.value.(mismatch := true))); }
    }

    /** Publishes only a result, and an overlay, that are the predicted ones;
        otherwise no fact, no resolution and no ref moves. Then everything goes
        out in order, the receipt after all it names. */
    method FinalizeRebase(op: Operation, predictedTree: Option<TreeId>, resultTree: TreeId, overlay: Overlay) returns (published: bool)
      modifies `disk
      ensures published <==> Predicted(predictedTree, resultTree, overlay)
      ensures !published ==>
                && disk.facts == old(disk).facts && disk.resolutions == old(disk).resolutions && disk.anchors == old(disk).anchors
                && disk.head == old(disk).head && (disk.journal.Some? <==> old(disk).journal.Some?)
                && (disk.journal.Some? ==> disk.journal.value.originalHead == old(disk).journal.value.originalHead &&
                                           disk.journal.value.rewritten == old(disk).journal.value.rewritten && disk.journal.value.mismatch)
      ensures published ==> disk == PerformAll(Rematerialized(old(disk), overlay), op, Effects(op))
    {
      if predictedTree.Some? && predictedTree.value != resultTree {
        MarkMismatch();
        return false;
      }
      if overlay.Conflicts? {
        MarkMismatch();
        return false;
      }
      if overlay.Merges? {
        disk := disk.(dirty := true);
        if disk.journal.Some? { disk := disk.(journal := Some(disk.journal.value.(overlayRematerialized := true))); }
        if overlay.predicted.Some? && overlay.predicted.value != overlay.tree {
          MarkMismatch();
          return false;
        }
      }
      Publish(op);
      return true;
    }

    method Publish(op: Operation)
      modifies `disk
      ensures disk == PerformAll(old(disk), op, Effects(op))
    {
      ghost var start := disk;
      PublishApplications(op);
      for i := 0 to |op.provenance|
        invariant disk == PerformAll(start, op, ApplicationEffects(op.applied) + ProvenanceEffects(op.provenance[..i]))
      {
        var c := op.provenance[i];
        Step(op, start, ApplicationEffects(op.applied) + ProvenanceEffects(op.provenance[..i]), AppendFact(Fact(c.id, c.commit, OtherFact)));
        ProvenanceMore(op, i);
      }
      assert op.provenance[..|op.provenance|] == op.provenance;
      PublishTheRest(op, start);
    }

    /** Names a rewritten commit and then journals it, in that order: whatever
        the journal on disk says was made is named by a ref, and so is kept. */
    method RecordRewritten(merging: bool, origin: CommitId, commit: CommitId)
      requires disk.journal.Some? && (merging ==> JournaledIsAnchored(disk))
      modifies `disk
      ensures disk == Advanced(Anchored(old(disk), merging, origin, commit), origin, commit)
      ensures merging ==> JournaledIsAnchored(disk)
    {
      AnchorRewritten(merging, origin, commit);
      AdvanceJournal(origin, commit);
    }

    method AnchorRewritten(merging: bool, origin: CommitId, commit: CommitId)
      modifies `disk
      ensures disk == Anchored(old(disk), merging, origin, commit)
    {
      if merging { disk := disk.(anchors := disk.anchors[origin := commit]); }
    }

    method AdvanceJournal(origin: CommitId, commit: CommitId)
      requires disk.journal.Some?
      modifies `disk
      ensures disk == Advanced(old(disk), origin, commit)
    {
      var j := disk.journal.value;
      disk := disk.(journal := Some(j.(rewritten := j.rewritten[origin := commit])));
    }

    /** Restores the original tip first, then releases the anchors the journal
        names, then forgets the operation. A dirty worktree is refused unless a
        pick or a join is pending, an absorption waits for its answer, or the
        overlay is back: the code takes any other dirt for the user's own, which
        it need not be. */
    method AbortRebase(merging: bool) returns (done: bool)
      modifies `disk
      ensures done == Abortable(old(disk))
      ensures disk == if done then Aborted(old(disk), merging) else old(disk)
    {
      if disk.journal.None? { return false; }
      var j := disk.journal.value;
      if disk.pending == PickPending {
        disk := disk.(pending := NothingPending, dirty := false);
      } else if disk.pending == JoinPending {
        disk := disk.(pending := NothingPending, dirty := false);
      } else if j.awaitingAbsorption {
      } else if !j.overlayRematerialized {
        if disk.dirty { return false; }
      }
      if disk.head != j.originalHead {
        disk := disk.(head := j.originalHead, dirty := false);
      }
      if merging { disk := disk.(anchors := disk.anchors - j.rewritten.Keys); }
      disk := disk.(journal := None);
      return true;
    }

    /** Performs one more effect. */
    method Step(op: Operation, ghost start: Disk, ghost sofar: seq<Effect>, e: Effect)
      requires disk == PerformAll(start, op, sofar)
      modifies `disk
      ensures disk == PerformAll(start, op, sofar + [e])
    {
      disk := Perform(disk, op, e);
      assert (sofar + [e])[..|sofar|] == sofar;
    }

    method PublishApplications(op: Operation)
      modifies `disk
      ensures disk == PerformAll(old(disk), op, ApplicationEffects(op.applied) + ProvenanceEffects(op.provenance[..0]))
    {
      ghost var start := disk;
      for i := 0 to |op.applied|
        invariant disk == PerformAll(start, op, ApplicationEffects(op.applied[..i]))
      {
        var a := op.applied[i];
        ghost var sofar := ApplicationEffects(op.applied[..i]);
        PublishResolutions(op, start, sofar, a.resolutions);
        Step(op, start, sofar + Resolutions(a.resolutions), AppendFact(Fact(a.id, a.commit, OtherFact)));
        ApplicationsMore(op, i);
      }
      assert op.applied[..|op.applied|] == op.applied;
      assert ApplicationEffects(op.applied) + ProvenanceEffects(op.provenance[..0]) == ApplicationEffects(op.applied);
    }

    method PublishResolutions(op: Operation, ghost start: Disk, ghost sofar: seq<Effect>, rs: seq<ResolutionId>)
      requires disk == PerformAll(start, op, sofar)
      modifies `disk
      ensures disk == PerformAll(start, op, sofar + Resolutions(rs))
    {
      assert sofar + Resolutions(rs[..0]) == sofar;
      for i := 0 to |rs|
        invariant disk == PerformAll(start, op, sofar + Resolutions(rs[..i]))
      {
        Step(op, start, sofar + Resolutions(rs[..i]), PublishResolution(rs[i]));
        assert rs[..i + 1][..i] == rs[..i];
        assert sofar + Resolutions(rs[..i + 1]) == sofar + Resolutions(rs[..i]) + [PublishResolution(rs[i])];
      }
      assert rs[..|rs|] == rs;
    }

    method PublishTheRest(op: Operation, ghost start: Disk)
      requires disk == PerformAll(start, op, ApplicationEffects(op.applied) + ProvenanceEffects(op.provenance))
      modifies `disk
      ensures disk == PerformAll(start, op, Effects(op))
    {
      hide PerformAll, Perform, ApplicationEffects, ProvenanceEffects, JoinEffects, AmendmentEffects, AbsorptionEffects, ReceiptOf;
      ghost var first := ApplicationEffects(op.applied) + ProvenanceEffects(op.provenance);
      PublishJoins(op, start, first);
      PublishAmendments(op, start, first + JoinEffects(op.joins));
      PublishAbsorptions(op, start, first + JoinEffects(op.joins) + AmendmentEffects(op.amendments));
      Step(op, start, Before(op), AppendFact(ReceiptOf(op)));
      Step(op, start, Before(op) + [AppendFact(ReceiptOf(op))], ReleaseAnchors);
      Step(op, start, Before(op) + [AppendFact(ReceiptOf(op))] + [ReleaseAnchors], ClearJournal);
      assert Effects(op) == Before(op) + [AppendFact(ReceiptOf(op))] + [ReleaseAnchors] + [ClearJournal];
    }

    method PublishJoins(op: Operation, ghost start: Disk, ghost first: seq<Effect>)
      requires disk == PerformAll(start, op, first)
      modifies `disk
      ensures disk == PerformAll(start, op, first + JoinEffects(op.joins))
    {
      hide PerformAll, Perform, Resolutions;
      assert first + JoinEffects(op.joins[..0]) == first;
      hide JoinEffects;
      for i := 0 to |op.joins|
        invariant disk == PerformAll(start, op, first + JoinEffects(op.joins[..i]))
      {
        PublishResolutions(op, start, first + JoinEffects(op.joins[..i]), op.joins[i].resolutions);
        JoinsMore(first, op, i);
      }
      assert op.joins[..|op.joins|] == op.joins;
    }

    method PublishAmendments(op: Operation, ghost start: Disk, ghost first: seq<Effect>)
      requires disk == PerformAll(start, op, first)
      modifies `disk
      ensures disk == PerformAll(start, op, first + AmendmentEffects(op.amendments))
    {
      hide PerformAll, Perform;
      assert first + AmendmentEffects(op.amendments[..0]) == first;
      hide AmendmentEffects;
      for i := 0 to |op.amendments|
        invariant disk == PerformAll(start, op, first + AmendmentEffects(op.amendments[..i]))
      {
        var a := op.amendments[i];
        Step(op, start, first + AmendmentEffects(op.amendments[..i]), AppendFact(Fact(a.id, a.commit, Body.Amendment(a.changeId))));
        AmendmentsMore(first, op, i);
      }
      assert op.amendments[..|op.amendments|] == op.amendments;
    }

    method PublishAbsorptions(op: Operation, ghost start: Disk, ghost first: seq<Effect>)
      requires disk == PerformAll(start, op, first)
      modifies `disk
      ensures disk == PerformAll(start, op, first + AbsorptionEffects(op.absorptions))
    {
      hide PerformAll, Perform;
      assert first + AbsorptionEffects(op.absorptions[..0]) == first;
      hide AbsorptionEffects;
      for i := 0 to |op.absorptions|
        invariant disk == PerformAll(start, op, first + AbsorptionEffects(op.absorptions[..i]))
      {
        var m := op.absorptions[i];
        Step(op, start, first + AbsorptionEffects(op.absorptions[..i]), AppendFact(Fact(m.id, m.survivor, OtherFact)));
        AbsorptionsMore(first, op, i);
      }
      assert op.absorptions[..|op.absorptions|] == op.absorptions;
    }
  }

  lemma {:induction false} JoinsMore(first: seq<Effect>, op: Operation, i: nat)
    requires i < |op.joins|
    ensures first + JoinEffects(op.joins[..i + 1]) == first + JoinEffects(op.joins[..i]) + Resolutions(op.joins[i].resolutions)
  {
    assert op.joins[..i + 1][..i] == op.joins[..i];
    assert first + (JoinEffects(op.joins[..i]) + Resolutions(op.joins[i].resolutions)) ==
           first + JoinEffects(op.joins[..i]) + Resolutions(op.joins[i].resolutions);
  }

  lemma {:induction false} ApplicationsMore(op: Operation, i: nat)
    requires i < |op.applied|
    ensures var a := op.applied[i];
            ApplicationEffects(op.applied[..i + 1]) ==
            ApplicationEffects(op.applied[..i]) + Resolutions(a.resolutions) + [AppendFact(Fact(a.id, a.commit, OtherFact))]
  {
    var a := op.applied[i];
    assert op.applied[..i + 1][..i] == op.applied[..i];
    assert ApplicationEffects(op.applied[..i]) + (Resolutions(a.resolutions) + [AppendFact(Fact(a.id, a.commit, OtherFact))]) ==
           ApplicationEffects(op.applied[..i]) + Resolutions(a.resolutions) + [AppendFact(Fact(a.id, a.commit, OtherFact))];
  }

  lemma {:induction false} ProvenanceMore(op: Operation, i: nat)
    requires i < |op.provenance|
    ensures var c := op.provenance[i];
            ApplicationEffects(op.applied) + ProvenanceEffects(op.provenance[..i + 1]) ==
            ApplicationEffects(op.applied) + ProvenanceEffects(op.provenance[..i]) + [AppendFact(Fact(c.id, c.commit, OtherFact))]
  {
    assert op.provenance[..i + 1][..i] == op.provenance[..i];
  }

  lemma {:induction false} AmendmentsMore(first: seq<Effect>, op: Operation, i: nat)
    requires i < |op.amendments|
    ensures var a := op.amendments[i];
            first + AmendmentEffects(op.amendments[..i + 1]) ==
            first + AmendmentEffects(op.amendments[..i]) + [AppendFact(Fact(a.id, a.commit, Body.Amendment(a.changeId)))]
  {
    assert op.amendments[..i + 1][..i] == op.amendments[..i];
  }

  lemma {:induction false} AbsorptionsMore(first: seq<Effect>, op: Operation, i: nat)
    requires i < |op.absorptions|
    ensures var m := op.absorptions[i];
            first + AbsorptionEffects(op.absorptions[..i + 1]) ==
            first + AbsorptionEffects(op.absorptions[..i]) + [AppendFact(Fact(m.id, m.survivor, OtherFact))]
  {
    assert op.absorptions[..i + 1][..i] == op.absorptions[..i];
  }

  // What abort leaves.

  /** Every abort that returns leaves the original tip and no operation; it
      leaves no anchor either, exactly when the journal on disk names them all. */
  lemma {:induction false} AbortRestores(d: Disk)
    requires Abortable(d)
    ensures var t := Aborted(d, true);
            && t.head == d.journal.value.originalHead && t.journal.None? && t.pending == NothingPending
            && t.facts == d.facts && t.resolutions == d.resolutions
            && (t.anchors == map[] <==> d.anchors.Keys <= d.journal.value.rewritten.Keys)
  {
    var left := d.anchors - d.journal.value.rewritten.Keys;
    assert left == map[] <==> left.Keys == {};
    assert left.Keys == d.anchors.Keys - d.journal.value.rewritten.Keys;
    assert left.Keys == {} <==> forall a <- d.anchors.Keys :: a in d.journal.value.rewritten.Keys by {
      assert forall a :: a in left.Keys <==> a in d.anchors.Keys && a !in d.journal.value.rewritten.Keys;
    }
  }

  /** What a rewritten commit is named by on disk. */
  predicate JournaledIsAnchored(d: Disk) {
    d.journal.Some? && forall o <- d.journal.value.rewritten :: o in d.anchors && d.anchors[o] == d.journal.value.rewritten[o]
  }

  datatype Image = Image(origin: CommitId, commit: CommitId)

  predicate OneImageEach(images: seq<Image>) {
    forall i, j :: 0 <= i < j < |images| ==> images[i].origin != images[j].origin
  }

  /** The anchors and the journal after a number of whole recording steps. */
  function Recorded(d: Disk, images: seq<Image>): (r: Disk)
    requires d.journal.Some?
    ensures r.journal.Some? && r.journal.value.originalHead == d.journal.value.originalHead
  {
    if images == [] then d
    else
      var last := images[|images| - 1];
      Advanced(Anchored(Recorded(d, images[..|images| - 1]), true, last.origin, last.commit), last.origin, last.commit)
  }

  lemma {:induction false} RecordedAgree(d: Disk, images: seq<Image>)
    requires d.journal.Some? && d.anchors == d.journal.value.rewritten == map[]
    ensures Recorded(d, images).anchors == Recorded(d, images).journal.value.rewritten
    ensures forall o :: o in Recorded(d, images).anchors <==> exists i :: 0 <= i < |images| && images[i].origin == o
  {
    if images != [] {
      var rest, last := images[..|images| - 1], images[|images| - 1];
      RecordedAgree(d, rest);
      forall o ensures o in Recorded(d, images).anchors <==> exists i :: 0 <= i < |images| && images[i].origin == o {
        if o == last.origin { assert images[|images| - 1].origin == o; }
        if i :| 0 <= i < |rest| && rest[i].origin == o { assert images[i].origin == o; }
        if i :| 0 <= i < |images| && images[i].origin == o { if i < |rest| { assert rest[i].origin == o; } }
      }
    }
  }

  /** A process killed between naming a commit and writing the journal leaves an
      anchor no abort releases; a process killed anywhere else leaves none. Until
      the abort, everything the journal names is kept by a ref. */
  lemma {:induction false} KilledBetweenLeaksIff(d: Disk, images: seq<Image>, between: bool)
    requires d.journal.Some? && d.anchors == d.journal.value.rewritten == map[]
    requires images != [] && OneImageEach(images)
    ensures var last := images[|images| - 1];
            var killed := if between then Anchored(Recorded(d, images[..|images| - 1]), true, last.origin, last.commit)
                          else Recorded(d, images);
            && JournaledIsAnchored(killed)
            && (Aborted(killed, true).anchors == map[] <==> !between)
            && (between ==> Aborted(killed, true).anchors == map[last.origin := last.commit])
  {
    var rest, last := images[..|images| - 1], images[|images| - 1];
    RecordedAgree(d, rest);
    RecordedAgree(d, images);
    if between {
      var before := Recorded(d, rest);
      forall i | 0 <= i < |rest| ensures rest[i].origin != last.origin { assert images[i] == rest[i]; }
      assert before.anchors[last.origin := last.commit] - before.journal.value.rewritten.Keys == map[last.origin := last.commit];
      assert last.origin in Aborted(Anchored(before, true, last.origin, last.commit), true).anchors;
    } else {
      assert (Recorded(d, images).anchors - Recorded(d, images).journal.value.rewritten.Keys).Keys == {};
    }
  }

  // Killed while publishing.

  function FactsIn(es: seq<Effect>): seq<Fact> {
    if es == [] then []
    else FactsIn(es[..|es| - 1]) + if es[|es| - 1].AppendFact? then [es[|es| - 1].fact] else []
  }

  lemma {:induction false} FactsAfter(d: Disk, op: Operation, es: seq<Effect>)
    ensures PerformAll(d, op, es).facts == d.facts + FactsIn(es)
    ensures PerformAll(d, op, es).head == d.head
  {
    if es != [] {
      FactsAfter(d, op, es[..|es| - 1]);
      var last := es[|es| - 1];
      assert d.facts + FactsIn(es[..|es| - 1]) + [] == d.facts + FactsIn(es[..|es| - 1]);
      if last.AppendFact? {
        assert d.facts + FactsIn(es[..|es| - 1]) + [last.fact] == d.facts + (FactsIn(es[..|es| - 1]) + [last.fact]);
      }
    }
  }

  lemma {:induction false} FactsComeFromEffects(es: seq<Effect>, f: Fact)
    ensures f in FactsIn(es) <==> AppendFact(f) in es
  {
    if es != [] {
      FactsComeFromEffects(es[..|es| - 1], f);
      assert es == es[..|es| - 1] + [es[|es| - 1]];
    }
  }

  /** The receipt is published after everything it names: while it is not there
      the prefix holds only what comes before, and once it is, all of that is. */
  lemma {:induction false} ReceiptComesLast(d: Disk, op: Operation, n: nat)
    requires n <= |Effects(op)|
    ensures n <= |Before(op)| ==> Effects(op)[..n] == Before(op)[..n]
    ensures n > |Before(op)| ==> PerformAll(d, op, Effects(op)[..n]).facts == d.facts + FactsIn(Before(op)) + [ReceiptOf(op)]
  {
    hide Before, ReceiptOf;
    var es := Effects(op);
    FactsAfter(d, op, es[..n]);
    if n > |Before(op)| {
      var first := Before(op) + [AppendFact(ReceiptOf(op))];
      assert es[..|first|] == first && first[..|first| - 1] == Before(op);
      assert FactsIn(first) == FactsIn(Before(op)) + [ReceiptOf(op)];
      assert FactsIn(es[..n]) == FactsIn(first) by { TailHasNoFacts(op, n); }
      assert d.facts + (FactsIn(Before(op)) + [ReceiptOf(op)]) == d.facts + FactsIn(Before(op)) + [ReceiptOf(op)];
    }
  }

  lemma {:induction false} TailHasNoFacts(op: Operation, n: nat)
    requires |Before(op)| < n <= |Effects(op)|
    ensures FactsIn(Effects(op)[..n]) == FactsIn(Before(op) + [AppendFact(ReceiptOf(op))])
  {
    hide Before, ReceiptOf;
    var es, m := Effects(op), |Before(op)| + 1;
    assert es[..m] == Before(op) + [AppendFact(ReceiptOf(op))];
    if n > m {
      assert es[..n][..n - 1] == es[..n - 1] && es[..n][n - 1] == es[n - 1];
      TailHasNoFacts(op, n - 1);
      assert FactsIn(es[..n - 1]) + [] == FactsIn(es[..n - 1]);
    }
  }
}
