/** What publishing a finished rewrite leaves on disk, said of the operation's own
    fields: every record where it hangs, what the receipt names, and what a
    process that dies half way has published. */
module PublicationMeaning {
  import opened Git
  import opened RebaseFold
  import opened MergePlan
  import opened RebasePublication

  // What is published, kind by kind.

  function ApplicationRecords(applied: seq<Applied>): (r: seq<Fact>)
    ensures |r| == |applied| && forall i :: 0 <= i < |r| ==> r[i] == Fact(applied[i].id, applied[i].commit, OtherFact)
  {
    if applied == [] then [] else ApplicationRecords(applied[..|applied| - 1]) + [Fact(applied[|applied| - 1].id, applied[|applied| - 1].commit, OtherFact)]
  }

  function ProvenanceRecords(carried: seq<Carried>): (r: seq<Fact>)
    ensures |r| == |carried| && forall i :: 0 <= i < |r| ==> r[i] == Fact(carried[i].id, carried[i].commit, OtherFact)
  {
    if carried == [] then [] else ProvenanceRecords(carried[..|carried| - 1]) + [Fact(carried[|carried| - 1].id, carried[|carried| - 1].commit, OtherFact)]
  }

  function AmendmentRecords(amended: seq<Amended>): (r: seq<Fact>)
    ensures |r| == |amended| && forall i :: 0 <= i < |r| ==> r[i] == Fact(amended[i].id, amended[i].commit, Body.Amendment(amended[i].changeId))
  {
    if amended == [] then []
    else
      var a := amended[|amended| - 1];
      AmendmentRecords(amended[..|amended| - 1]) + [Fact(a.id, a.commit, Body.Amendment(a.changeId))]
  }

  function AbsorptionRecords(melded: seq<Melded>): (r: seq<Fact>)
    ensures |r| == |melded| && forall i :: 0 <= i < |r| ==> r[i] == Fact(melded[i].id, melded[i].survivor, OtherFact)
  {
    if melded == [] then [] else AbsorptionRecords(melded[..|melded| - 1]) + [Fact(melded[|melded| - 1].id, melded[|melded| - 1].survivor, OtherFact)]
  }

  /** The resolutions captured for applications, and for joins, in order. */
  function Resolved(applied: seq<Applied>): seq<ResolutionId> {
    if applied == [] then [] else Resolved(applied[..|applied| - 1]) + applied[|applied| - 1].resolutions
  }

  function JoinsResolved(joins: seq<Joined>): seq<ResolutionId> {
    if joins == [] then [] else JoinsResolved(joins[..|joins| - 1]) + joins[|joins| - 1].resolutions
  }

  function Added(d: Disk, facts: seq<Fact>, resolutions: seq<ResolutionId>): Disk {
    d.(facts := d.facts + facts, resolutions := d.resolutions + resolutions)
  }

  lemma {:induction false} AddedTwice(d: Disk, facts: seq<Fact>, rs: seq<ResolutionId>, more: seq<Fact>, moreRs: seq<ResolutionId>)
    ensures Added(Added(d, facts, rs), more, moreRs) == Added(d, facts + more, rs + moreRs)
  {
    assert d.facts + (facts + more) == d.facts + facts + more;
    assert d.resolutions + (rs + moreRs) == d.resolutions + rs + moreRs;
  }

  lemma {:induction false} AddedNothing(d: Disk)
    ensures Added(d, [], []) == d
  {
    assert d.facts + [] == d.facts && d.resolutions + [] == d.resolutions;
  }

  lemma {:induction false} OneFact(d: Disk, op: Operation, es: seq<Effect>, f: Fact)
    ensures PerformAll(d, op, es + [AppendFact(f)]) == Added(PerformAll(d, op, es), [f], [])
  {
    assert (es + [AppendFact(f)])[..|es|] == es;
    var mid := PerformAll(d, op, es);
    assert mid.resolutions + [] == mid.resolutions;
  }

  lemma {:induction false} PerformResolutions(d: Disk, op: Operation, rs: seq<ResolutionId>)
    ensures PerformAll(d, op, Resolutions(rs)) == Added(d, [], rs)
  {
    if rs == [] {
      AddedNothing(d);
    } else {
      var rest, last := rs[..|rs| - 1], rs[|rs| - 1];
      PerformResolutions(d, op, rest);
      assert Resolutions(rs)[..|Resolutions(rs)| - 1] == Resolutions(rest);
      assert d.resolutions + rest + [last] == d.resolutions + rs by { assert rest + [last] == rs; }
    }
  }

  lemma {:induction false} PerformApplications(d: Disk, op: Operation, applied: seq<Applied>)
    ensures PerformAll(d, op, ApplicationEffects(applied)) == Added(d, ApplicationRecords(applied), Resolved(applied))
  {
    if applied == [] {
      AddedNothing(d);
    } else {
      var rest, a := applied[..|applied| - 1], applied[|applied| - 1];
      var f := Fact(a.id, a.commit, OtherFact);
      PerformApplications(d, op, rest);
      hide PerformAll, Added, ApplicationRecords, Resolutions;
      var mid := PerformAll(d, op, ApplicationEffects(rest));
      PerformResolutions(mid, op, a.resolutions);
      OneFact(mid, op, Resolutions(a.resolutions), f);
      PerformMore(d, op, ApplicationEffects(rest), Resolutions(a.resolutions) + [AppendFact(f)]);
      AddedTwice(d, ApplicationRecords(rest), Resolved(rest), [], a.resolutions);
      AddedTwice(d, ApplicationRecords(rest) + [], Resolved(rest) + a.resolutions, [f], []);
      assert ApplicationRecords(rest) + [] + [f] == ApplicationRecords(applied);
      assert Resolved(rest) + a.resolutions + [] == Resolved(applied);
    }
  }

  lemma {:induction false} PerformProvenance(d: Disk, op: Operation, carried: seq<Carried>)
    ensures PerformAll(d, op, ProvenanceEffects(carried)) == Added(d, ProvenanceRecords(carried), [])
  {
    if carried == [] {
      AddedNothing(d);
    } else {
      var rest, c := carried[..|carried| - 1], carried[|carried| - 1];
      PerformProvenance(d, op, rest);
      OneFact(d, op, ProvenanceEffects(rest), Fact(c.id, c.commit, OtherFact));
      AddedTwice(d, ProvenanceRecords(rest), [], [Fact(c.id, c.commit, OtherFact)], []);
    }
  }

  lemma {:induction false} PerformJoins(d: Disk, op: Operation, joins: seq<Joined>)
    ensures PerformAll(d, op, JoinEffects(joins)) == Added(d, [], JoinsResolved(joins))
  {
    if joins == [] {
      AddedNothing(d);
    } else {
      var rest, j := joins[..|joins| - 1], joins[|joins| - 1];
      PerformJoins(d, op, rest);
      hide PerformAll, Added, Resolutions;
      PerformMore(d, op, JoinEffects(rest), Resolutions(j.resolutions));
      PerformResolutions(PerformAll(d, op, JoinEffects(rest)), op, j.resolutions);
      AddedTwice(d, [], JoinsResolved(rest), [], j.resolutions);
    }
  }

  lemma {:induction false} PerformAmendments(d: Disk, op: Operation, amended: seq<Amended>)
    ensures PerformAll(d, op, AmendmentEffects(amended)) == Added(d, AmendmentRecords(amended), [])
  {
    if amended == [] {
      AddedNothing(d);
    } else {
      var rest, a := amended[..|amended| - 1], amended[|amended| - 1];
      PerformAmendments(d, op, rest);
      OneFact(d, op, AmendmentEffects(rest), Fact(a.id, a.commit, Body.Amendment(a.changeId)));
      AddedTwice(d, AmendmentRecords(rest), [], [Fact(a.id, a.commit, Body.Amendment(a.changeId))], []);
    }
  }

  lemma {:induction false} PerformAbsorptions(d: Disk, op: Operation, melded: seq<Melded>)
    ensures PerformAll(d, op, AbsorptionEffects(melded)) == Added(d, AbsorptionRecords(melded), [])
  {
    if melded == [] {
      AddedNothing(d);
    } else {
      var rest, m := melded[..|melded| - 1], melded[|melded| - 1];
      PerformAbsorptions(d, op, rest);
      OneFact(d, op, AbsorptionEffects(rest), Fact(m.id, m.survivor, OtherFact));
      AddedTwice(d, AbsorptionRecords(rest), [], [Fact(m.id, m.survivor, OtherFact)], []);
    }
  }

  function RecordsOf(op: Operation): seq<Fact> {
    ApplicationRecords(op.applied) + ProvenanceRecords(op.provenance) + AmendmentRecords(op.amendments) + AbsorptionRecords(op.absorptions)
  }

  lemma {:induction false} PerformBefore(d: Disk, op: Operation)
    ensures PerformAll(d, op, Before(op)) == Added(d, RecordsOf(op), Resolved(op.applied) + JoinsResolved(op.joins))
  {
    hide PerformAll, Added, ApplicationRecords, ProvenanceRecords, AmendmentRecords, AbsorptionRecords, Resolved, JoinsResolved,
      ApplicationEffects, ProvenanceEffects, JoinEffects, AmendmentEffects, AbsorptionEffects;
    var a, p, m, b := ApplicationRecords(op.applied), ProvenanceRecords(op.provenance), AmendmentRecords(op.amendments), AbsorptionRecords(op.absorptions);
    var r, j := Resolved(op.applied), JoinsResolved(op.joins);
    var e1, e2, e3, e4, e5 := ApplicationEffects(op.applied), ProvenanceEffects(op.provenance), JoinEffects(op.joins),
      AmendmentEffects(op.amendments), AbsorptionEffects(op.absorptions);
    PerformApplications(d, op, op.applied);
    PerformMore(d, op, e1, e2);
    PerformProvenance(Added(d, a, r), op, op.provenance);
    AddedTwice(d, a, r, p, []);
    PerformMore(d, op, e1 + e2, e3);
    PerformJoins(Added(d, a + p, r + []), op, op.joins);
    AddedTwice(d, a + p, r + [], [], j);
    PerformMore(d, op, e1 + e2 + e3, e4);
    PerformAmendments(Added(d, a + p + [], r + [] + j), op, op.amendments);
    AddedTwice(d, a + p + [], r + [] + j, m, []);
    PerformMore(d, op, e1 + e2 + e3 + e4, e5);
    PerformAbsorptions(Added(d, a + p + [] + m, r + [] + j + []), op, op.absorptions);
    AddedTwice(d, a + p + [] + m, r + [] + j + [], b, []);
    assert r + [] + j + [] + [] == r + j && a + p + [] + m + b == a + p + m + b;
  }

  // What the receipt names.

  /** Nobody forked the change, and it did not wait for an acceptance in vain. */
  ghost predicate Claims(op: Operation, c: PlanChange) {
    && (forall i :: 0 <= i < |op.applied| && op.applied[i].forked ==> op.applied[i].origin != c.commit)
    && (c.review ==> op.acceptCandidates)
  }

  lemma {:induction false} ClaimsIff(op: Operation, c: PlanChange)
    ensures Claims(op, c) <==> c.commit !in Forked(op.applied) && (!c.review || op.acceptCandidates)
  {}

  /** The places of the claimed among the first changes. */
  ghost function Places(op: Operation, n: nat): (r: seq<nat>)
    requires n <= |op.changes|
    ensures forall i :: 0 <= i < |r| ==> r[i] < n
  {
    if n == 0 then [] else Places(op, n - 1) + if Claims(op, op.changes[n - 1]) then [n - 1] else []
  }

  lemma {:induction false} PlacesAre(op: Operation, n: nat)
    requires n <= |op.changes|
    ensures forall i, j :: 0 <= i < j < |Places(op, n)| ==> Places(op, n)[i] < Places(op, n)[j]
    ensures forall k: nat :: k in Places(op, n) <==> k < n && Claims(op, op.changes[k])
  {
    hide Claims;
    if n > 0 { PlacesAre(op, n - 1); }
  }

  lemma {:induction false} ClaimedNext(op: Operation, n: nat)
    requires n < |op.changes|
    ensures var before, after := Claimed(op.changes[..n], Forked(op.applied), op.acceptCandidates),
                                 Claimed(op.changes[..n + 1], Forked(op.applied), op.acceptCandidates);
            after == before + if Claims(op, op.changes[n]) then [op.changes[n]] else []
  {
    ClaimsIff(op, op.changes[n]);
    hide Claims, Forked;
    assert op.changes[..n + 1][..n] == op.changes[..n];
  }

  lemma {:induction false} NamesNext(changes: seq<PlanChange>, c: PlanChange)
    ensures CommitsOf(changes + [c]) == CommitsOf(changes) + [c.commit] && IdsOf(changes + [c]) == IdsOf(changes) + [c.changeId]
  {
    assert (changes + [c])[..|changes|] == changes;
  }

  /** Claimed changes and their places, side by side. */
  ghost predicate Aligned(op: Operation, claimed: seq<PlanChange>, places: seq<nat>) {
    && |CommitsOf(claimed)| == |IdsOf(claimed)| == |places|
    && forall i :: 0 <= i < |places| ==>
         places[i] < |op.changes| && CommitsOf(claimed)[i] == op.changes[places[i]].commit && IdsOf(claimed)[i] == op.changes[places[i]].changeId
  }

  lemma {:induction false} AlignsNext(op: Operation, claimed: seq<PlanChange>, places: seq<nat>, k: nat)
    requires k < |op.changes| && Aligned(op, claimed, places)
    ensures Aligned(op, claimed + [op.changes[k]], places + [k])
  {
    NamesNext(claimed, op.changes[k]);
    hide CommitsOf, IdsOf;
  }

  lemma {:induction false} ClaimedAt(op: Operation, n: nat)
    requires n <= |op.changes|
    ensures Aligned(op, Claimed(op.changes[..n], Forked(op.applied), op.acceptCandidates), Places(op, n))
  {
    if n == 0 {
      assert op.changes[..0] == [];
    } else {
      ClaimedAt(op, n - 1);
      hide Claims, Forked, Claimed, Aligned;
      var before, places := Claimed(op.changes[..n - 1], Forked(op.applied), op.acceptCandidates), Places(op, n - 1);
      ClaimedNext(op, n - 1);
      AlignsNext(op, before, places, n - 1);
      assert before + [] == before && places + [] == places;
    }
  }

  /** The receipt names the source's head, and exactly the changes nobody forked
      and that did not wait in vain, each by its commit and its identity, in the
      plan's order. */
  lemma {:induction false} ReceiptNames(op: Operation)
    ensures var f, places := ReceiptOf(op), Places(op, |op.changes|);
            && f.id == op.receiptId && f.attachedTo == op.resultCommit && f.body.Receipt? && f.body.sourceHead == Some(op.sourceHead)
            && (forall k: nat :: k in places <==> k < |op.changes| && Claims(op, op.changes[k]))
            && (forall i, j :: 0 <= i < j < |places| ==> places[i] < places[j])
            && |f.body.absorbedCommits| == |f.body.absorbedChanges| == |places|
            && forall i :: 0 <= i < |places| ==>
                 f.body.absorbedCommits[i] == op.changes[places[i]].commit && f.body.absorbedChanges[i] == op.changes[places[i]].changeId
  {
    hide Claims, Forked, Claimed, CommitsOf, IdsOf;
    assert op.changes[..|op.changes|] == op.changes;
    PlacesAre(op, |op.changes|);
    ClaimedAt(op, |op.changes|);
  }

  /** What is on disk once everything is published: the records of each kind where
      they hang, the receipt last, and no journal. */
  lemma {:induction false} PublishedMeans(d: Disk, op: Operation)
    ensures var t := PerformAll(d, op, Effects(op));
            && t.facts == d.facts + RecordsOf(op) + [ReceiptOf(op)]
            && t.resolutions == d.resolutions + (Resolved(op.applied) + JoinsResolved(op.joins))
            && t.journal.None? && t.head == d.head && t.pending == d.pending && t.dirty == d.dirty
            && t.anchors == if op.merging then d.anchors - op.rewritten else d.anchors
  {
    var f := ReceiptOf(op);
    var before, e1, e2 := Before(op), Before(op) + [AppendFact(f)], Before(op) + [AppendFact(f)] + [ReleaseAnchors];
    PerformBefore(d, op);
    OneFact(d, op, before, f);
    hide Before, ReceiptOf, RecordsOf, Resolved, JoinsResolved;
    assert Effects(op) == e2 + [ClearJournal];
    assert e2[..|e2| - 1] == e1 && Effects(op)[..|e2|] == e2;
    assert PerformAll(d, op, e2) == Perform(PerformAll(d, op, e1), op, ReleaseAnchors);
    assert PerformAll(d, op, Effects(op)) == Perform(PerformAll(d, op, e2), op, ClearJournal);
    var mid := PerformAll(d, op, before);
    assert mid.resolutions + [] == mid.resolutions;
  }

  // A process that dies half way.

  /** Whatever is out names nothing that is not: once a record of an application is
      published, so are the resolutions captured for it. */
  lemma {:induction false} RecordsNameWhatIsPublished(applied: seq<Applied>, i: nat, n: nat)
    requires i < |applied| && n <= |ApplicationEffects(applied)|
    requires exists k :: 0 <= k < n && ApplicationEffects(applied)[k] == AppendFact(Fact(applied[i].id, applied[i].commit, OtherFact))
    requires forall j, k :: 0 <= j < k < |applied| ==> applied[j].id != applied[k].id
    ensures forall r <- applied[i].resolutions :: exists k :: 0 <= k < n && ApplicationEffects(applied)[k] == PublishResolution(r)
    decreases |applied|
  {
    var rest, last := applied[..|applied| - 1], applied[|applied| - 1];
    var all, before := ApplicationEffects(applied), ApplicationEffects(rest);
    var f := AppendFact(Fact(applied[i].id, applied[i].commit, OtherFact));
    assert all == before + Resolutions(last.resolutions) + [AppendFact(Fact(last.id, last.commit, OtherFact))];
    var k :| 0 <= k < n && all[k] == f;
    ResolutionsAt(last.resolutions);
    assert forall q :: |before| <= q < |before| + |last.resolutions| ==> all[q] == PublishResolution(last.resolutions[q - |before|]);
    if i < |rest| {
      assert rest[i] == applied[i];
      var m := if n <= |before| then n else |before|;
      assert k < |before|;
      assert before[k] == f;
      RecordsNameWhatIsPublished(rest, i, m);
      forall r | r in applied[i].resolutions ensures exists k :: 0 <= k < n && all[k] == PublishResolution(r) {
        var q :| 0 <= q < m && before[q] == PublishResolution(r);
        assert all[q] == before[q];
      }
    } else {
      RecordsAt(rest);
      assert forall q :: 0 <= q < |before| ==> all[q] == before[q];
      assert k == |before| + |last.resolutions|;
      forall r | r in applied[i].resolutions ensures exists k :: 0 <= k < n && all[k] == PublishResolution(r) {
        var q :| 0 <= q < |last.resolutions| && last.resolutions[q] == r;
        assert all[|before| + q] == Resolutions(last.resolutions)[q] == PublishResolution(r);
      }
    }
  }

  lemma {:induction false} ResolutionsAt(rs: seq<ResolutionId>)
    ensures |Resolutions(rs)| == |rs| && forall i :: 0 <= i < |rs| ==> Resolutions(rs)[i] == PublishResolution(rs[i])
  {
    if rs != [] { ResolutionsAt(rs[..|rs| - 1]); }
  }

  lemma {:induction false} RecordsAt(applied: seq<Applied>)
    ensures forall k :: 0 <= k < |ApplicationEffects(applied)| && ApplicationEffects(applied)[k].AppendFact? ==>
              exists i :: 0 <= i < |applied| && ApplicationEffects(applied)[k].fact.id == applied[i].id
  {
    if applied != [] {
      var rest, last := applied[..|applied| - 1], applied[|applied| - 1];
      var all, before := ApplicationEffects(applied), ApplicationEffects(rest);
      RecordsAt(rest);
      ResolutionsAt(last.resolutions);
      assert forall q :: |before| <= q < |before| + |last.resolutions| ==> all[q] == PublishResolution(last.resolutions[q - |before|]);
      forall k | 0 <= k < |all| && all[k].AppendFact? ensures exists i :: 0 <= i < |applied| && all[k].fact.id == applied[i].id {
        if k < |before| {
          assert all[k] == before[k];
          var i :| 0 <= i < |rest| && before[k].fact.id == rest[i].id;
          assert applied[i] == rest[i];
        } else {
          assert all[k].fact.id == applied[|applied| - 1].id;
        }
      }
    }
  }
}
