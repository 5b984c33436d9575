/** What an import does with each record of an envelope, told from the notes, the
    refs and the decisions of the repository it lands in. */
module ExchangeMeaning {
  import opened Git
  import opened NoteRecords
  import opened NotesProtocol
  import opened NotesMeaning
  import opened MetadataTransfer
  import opened Exchange
  import opened Quarantine

  /** The record names a resolution ref that is elsewhere in this repository. */
  ghost predicate RefTaken(s: Repository, envelope: Envelope, r: Incoming) {
    r.ref.Some? && r.ref.value in envelope.refs && r.ref.value in s.refs && envelope.refs[r.ref.value] != s.refs[r.ref.value]
  }

  /** A record with its id is here already, whatever it says and hangs on. */
  ghost predicate IdTaken(s: Repository, e: Entry) {
    s.notes.Some? && exists d: Entry :: Holds(s.notes.value, d) && d.record.id == e.record.id
  }

  ghost predicate Here(s: Repository, e: Entry) {
    s.notes.Some? && Holds(s.notes.value, e)
  }

  /** A person decided against exactly this content under this id. */
  ghost predicate Rejected(s: Repository, e: Entry) {
    exists i :: 0 <= i < |s.registry| && Some(s.registry[i].id) == e.record.id && e in s.registry[i].rejected
  }

  /** Another record has its id, and nobody has decided about it. */
  ghost predicate Open(s: Repository, e: Entry) {
    IdTaken(s, e) && !Here(s, e) && !Rejected(s, e)
  }

  lemma {:induction false} PlanMeans(s: Repository, envelope: Envelope, parkConflicts: bool, r: Incoming)
    requires r.entry.record.id.Some?
    ensures var plan, e, held := PlanFor(s, envelope, parkConflicts, r), r.entry, parkConflicts && RefTaken(s, envelope, r);
            && plan.entry == e
            && (plan.action == Add <==> !held && !IdTaken(s, e))
            && (plan.action == Noop <==> !held && Here(s, e))
            && (plan.action == Disposed <==> !held && IdTaken(s, e) && !Here(s, e) && Rejected(s, e))
            && (plan.action == Park <==> held || (parkConflicts && Open(s, e)))
            && (plan.action == Conflict <==> !parkConflicts && Open(s, e))
  {
    hide Copies, RejectedFor;
    var e, id := r.entry, r.entry.record.id.value;
    CopiesAreHeld(OrEmpty(s.notes), id);
    RejectedIsListed(s, e, id);
    assert Copies(OrEmpty(s.notes), id) == {} <==> !IdTaken(s, e) by {
      if d :| d in Copies(OrEmpty(s.notes), id) { assert Holds(OrEmpty(s.notes), d); }
      if IdTaken(s, e) {
        var d: Entry :| Holds(s.notes.value, d) && d.record.id == e.record.id;
        assert d in Copies(OrEmpty(s.notes), id);
      }
    }
  }

  lemma {:induction false} RejectedIsListed(s: Repository, e: Entry, id: RecordId)
    requires e.record.id == Some(id)
    ensures e in RejectedFor(s.registry, id) <==> Rejected(s, e)
  {
    if Rejected(s, e) {
      var i :| 0 <= i < |s.registry| && Some(s.registry[i].id) == e.record.id && e in s.registry[i].rejected;
      var j :| 0 <= j < |s.registry[i].rejected| && s.registry[i].rejected[j] == e;
    }
  }

  /** What becomes of one incoming record. */
  ghost predicate Landed(s: Repository, t: Repository, envelope: Envelope, parkConflicts: bool, r: Incoming)
    requires r.entry.record.id.Some?
  {
    var e, place := r.entry, Parking(envelope.lineage, r.entry.record.id.value);
    if (parkConflicts && RefTaken(s, envelope, r)) || Open(s, e)
    then place in t.parked && t.parked[place] == e && (Here(t, e) <==> Here(s, e))
    else (Here(t, e) <==> !IdTaken(s, e) || Here(s, e)) && (place in t.parked <==> place in s.parked)
  }

  ghost predicate Fits(s: Repository, envelope: Envelope) {
    WellFormed(envelope) && (envelope.records != [] ==> envelope.staged.Some?) && UniqueIds(OrEmpty(s.notes))
  }

  lemma {:induction false} TakenFrom(s: Repository, envelope: Envelope, parkConflicts: bool)
    requires WellFormed(envelope)
    ensures Identified(envelope)
    ensures var preview := ImportPreview(s, envelope, parkConflicts, 0);
            forall d :: d in AppliedBy(preview) || d in ParkedBy(preview) ==> d in EntriesOf(envelope)
  {
    hide Copies, RejectedFor;
    IdentifiedEntries(envelope);
    var preview := ImportPreview(s, envelope, parkConflicts, 0);
    WithActionFacts(preview.records, Applies);
    WithActionFacts(preview.records, Parks);
    forall i | 0 <= i < |preview.records| ensures preview.records[i].entry == EntriesOf(envelope)[i] {}
  }

  /** Of the notes: what was here stays, and what is applied is added. */
  lemma {:induction false} NotesLand(s: Repository, envelope: Envelope, parkConflicts: bool, existed: set<Parking>)
    requires Fits(s, envelope)
    ensures Identified(envelope)
    ensures var preview := ImportPreview(s, envelope, parkConflicts, 0);
            AllIdentified(ParkedBy(preview)) &&
            var t := ApplyImport(s, envelope, preview, existed);
            t.Some? ==>
              && t.value.registry == s.registry
              && (forall d :: d in AppliedBy(preview) ==> Here(t.value, d))
              && (forall d :: Here(t.value, d) ==> Here(s, d) || d in AppliedBy(preview))
              && (forall d :: Here(s, d) && d.record.id.Some? ==> Here(t.value, d))
  {
    hide UniqueIds, WellFormed, Imported, ImportPreview, WithAction, ParkedOf, Holds;
    IdentifiedEntries(envelope);
    var preview := ImportPreview(s, envelope, parkConflicts, 0);
    PreviewIsListed(s, envelope, parkConflicts, 0);
    ImportMerges(s, envelope, preview, existed);
    var t := ApplyImport(s, envelope, preview, existed);
    var applied := AppliedBy(preview);
    WithActionFacts(preview.records, Applies);
    if t.Some? {
      if preview.changes && envelope.staged.Some? {
        ImportAdds(OrEmpty(s.notes), applied);
        forall d | Here(s, d) && d.record.id.Some? ensures Here(t.value, d) { ImportKeeps(OrEmpty(s.notes), applied, d); }
        forall d | d in applied ensures Here(t.value, d) { var i :| 0 <= i < |applied| && applied[i] == d; }
        assert forall d :: Here(t.value, d) ==> Here(s, d) || d in applied by { NothingHeld(); }
      } else if !preview.changes {
        SkippedIffNothingToDo(s, envelope, parkConflicts);
        NothingHeld();
      } else {
        assert preview.records == [];
      }
    }
  }

  lemma {:induction false} NothingHeld()
    ensures forall d: Entry :: !Holds(map[], d)
  {}

  /** Of the disputes: what was parked stays parked or gives way to the same id,
      and what is parked now is there. */
  lemma {:induction false} ParkedLand(s: Repository, envelope: Envelope, parkConflicts: bool, existed: set<Parking>)
    requires Fits(s, envelope)
    ensures Identified(envelope)
    ensures var preview := ImportPreview(s, envelope, parkConflicts, 0);
            AllIdentified(ParkedBy(preview)) && DistinctIds(ParkedBy(preview)) &&
            var t := ApplyImport(s, envelope, preview, existed);
            t.Some? ==> t.value.parked == s.parked + ParkedOf(envelope.lineage, ParkedBy(preview))
  {
    hide UniqueIds, Apply, ImportPreview, Holds, AllIdentified, DistinctIds, Exported;
    IdentifiedEntries(envelope);
    var preview := ImportPreview(s, envelope, parkConflicts, 0);
    PreviewIsListed(s, envelope, parkConflicts, 0);
    assert Lists(preview.records, EntriesOf(envelope));
    WithActionDistinct(preview.records, EntriesOf(envelope), Parks);
    var t := ApplyImport(s, envelope, preview, existed);
    if t.Some? && !(preview.changes && (envelope.staged.Some? || envelope.refs != map[])) {
      if !preview.changes { SkippedIffNothingToDo(s, envelope, parkConflicts); }
      WithActionFacts(preview.records, Parks);
      NobodyParked(preview.records);
      assert s.parked + map[] == s.parked;
    }
  }

  lemma {:induction false} NobodyParked(plans: seq<Plan>)
    requires forall i :: 0 <= i < |plans| ==> plans[i].action != Park
    ensures WithAction(plans, Parks) == []
  {
    if plans != [] { NobodyParked(plans[..|plans| - 1]); }
  }

  /** In a list without repeated ids, an entry is taken exactly for its own action. */
  lemma {:induction false} TakenIff(plans: seq<Plan>, entries: seq<Entry>, take: Action -> bool, i: nat)
    requires Lists(plans, entries) && DistinctIds(entries) && i < |plans|
    ensures plans[i].entry in WithAction(plans, take) <==> take(plans[i].action)
  {
    WithActionFacts(plans, take);
    if j :| 0 <= j < |plans| && plans[j].entry == plans[i].entry && take(plans[j].action) {
      assert entries[j] == entries[i];
    }
  }

  lemma {:induction false} PlaceTakenIff(lineage: Lineage, parked: seq<Entry>, entries: seq<Entry>, e: Entry)
    requires AllIdentified(parked) && DistinctIds(parked) && DistinctIds(entries) && e in entries && e.record.id.Some?
    requires forall d <- parked :: d in entries
    ensures var place := Parking(lineage, e.record.id.value);
            && (place in ParkedOf(lineage, parked) <==> e in parked)
            && (e in parked ==> ParkedOf(lineage, parked)[place] == e)
  {
    hide ParkedOf;
    var place := Parking(lineage, e.record.id.value);
    if e in parked { ParkedOfHolds(lineage, parked, e); }
    ParkedIds(lineage, parked);
    if place in ParkedOf(lineage, parked) {
      var d := ParkedOf(lineage, parked)[place];
      var i :| 0 <= i < |entries| && entries[i] == e;
      var j :| 0 <= j < |entries| && entries[j] == d;
      assert entries[i].record.id == entries[j].record.id;
    }
  }

  lemma {:induction false} NoneInConflict(s: Repository, envelope: Envelope, parkConflicts: bool, existed: set<Parking>, i: nat)
    requires Identified(envelope) && i < |envelope.records|
    requires AllIdentified(ParkedBy(ImportPreview(s, envelope, parkConflicts, 0)))
    requires ApplyImport(s, envelope, ImportPreview(s, envelope, parkConflicts, 0), existed).Some?
    ensures ImportPreview(s, envelope, parkConflicts, 0).records[i].action != Conflict
  {
    hide Copies, RejectedFor, Apply, ParkedOf, WithAction;
    CountNone(ImportPreview(s, envelope, parkConflicts, 0).records, Conflict);
  }

  lemma {:induction false} LandsOne(s: Repository, envelope: Envelope, parkConflicts: bool, existed: set<Parking>, i: nat)
    requires Fits(s, envelope) && i < |envelope.records|
    ensures Identified(envelope)
    ensures var preview := ImportPreview(s, envelope, parkConflicts, 0);
            AllIdentified(ParkedBy(preview)) &&
            var t := ApplyImport(s, envelope, preview, existed);
            t.Some? ==> Landed(s, t.value, envelope, parkConflicts, envelope.records[i])
  {
    hide UniqueIds, DistinctIds, AllIdentified, Apply, Holds, Copies, RejectedFor, RefTaken, IdTaken, Here, Rejected, WithAction, ApplyImport, ParkedOf, Exported;
    IdentifiedEntries(envelope);
    var preview, r := ImportPreview(s, envelope, parkConflicts, 0), envelope.records[i];
    var entries, parked := EntriesOf(envelope), ParkedBy(preview);
    NotesLand(s, envelope, parkConflicts, existed);
    ParkedLand(s, envelope, parkConflicts, existed);
    TakenFrom(s, envelope, parkConflicts);
    PlanMeans(s, envelope, parkConflicts, r);
    assert preview.records[i] == PlanFor(s, envelope, parkConflicts, r);
    assert Lists(preview.records, entries) by { PreviewIsListed(s, envelope, parkConflicts, 0); }
    TakenIff(preview.records, entries, Applies, i);
    TakenIff(preview.records, entries, Parks, i);
    assert entries[i] == r.entry;
    PlaceTakenIff(envelope.lineage, parked, entries, r.entry);
    AddedIsFree(s, r.entry);
    if ApplyImport(s, envelope, preview, existed).Some? { NoneInConflict(s, envelope, parkConflicts, existed, i); }
  }

  lemma {:induction false} AddedIsFree(s: Repository, e: Entry)
    ensures Here(s, e) ==> IdTaken(s, e)
  {}

  /** An import under a preview of the repository it lands in: a record whose id is
      free is added, one whose id or ref is disputed is parked and not added, one
      that was rejected before is neither; nothing else is added or parked, no
      identified record is removed, and no decision is forgotten. */
  lemma {:induction false} ImportLands(s: Repository, envelope: Envelope, parkConflicts: bool, existed: set<Parking>)
    requires WellFormed(envelope) && (envelope.records != [] ==> envelope.staged.Some?)
    requires UniqueIds(OrEmpty(s.notes))
    ensures Identified(envelope)
    ensures var preview := ImportPreview(s, envelope, parkConflicts, 0);
            AllIdentified(ParkedBy(preview)) &&
            var t := ApplyImport(s, envelope, preview, existed);
            t.Some? ==>
              && (forall i :: 0 <= i < |envelope.records| ==> Landed(s, t.value, envelope, parkConflicts, envelope.records[i]))
              && (forall d: Entry :: Here(t.value, d) ==> Here(s, d) || d in EntriesOf(envelope))
              && (forall d: Entry :: Here(s, d) && d.record.id.Some? ==> Here(t.value, d))
              && (forall p <- s.parked :: p in t.value.parked && (t.value.parked[p] == s.parked[p] || t.value.parked[p] in EntriesOf(envelope)))
              && t.value.registry == s.registry
  {
    hide UniqueIds, WellFormed, Landed, ApplyImport, ImportPreview, WithAction, Here, EntriesOf;
    IdentifiedEntries(envelope);
    var preview := ImportPreview(s, envelope, parkConflicts, 0);
    PreviewIsListed(s, envelope, parkConflicts, 0);
    ImportMerges(s, envelope, preview, existed);
    var t := ApplyImport(s, envelope, preview, existed);
    if t.Some? {
      NotesLand(s, envelope, parkConflicts, existed);
      ParkedLand(s, envelope, parkConflicts, existed);
      TakenFrom(s, envelope, parkConflicts);
      ParkedIds(envelope.lineage, ParkedBy(preview));
      forall i | 0 <= i < |envelope.records| ensures Landed(s, t.value, envelope, parkConflicts, envelope.records[i]) {
        LandsOne(s, envelope, parkConflicts, existed, i);
      }
    }
  }

  // When a fresh import goes through.

  /** A record to be added. */
  ghost predicate Free(s: Repository, envelope: Envelope, parkConflicts: bool, r: Incoming) {
    !(parkConflicts && RefTaken(s, envelope, r)) && !IdTaken(s, r.entry)
  }

  /** It hangs on a note this build cannot add to. */
  ghost predicate Blocked(s: Repository, envelope: Envelope, parkConflicts: bool, r: Incoming) {
    && Free(s, envelope, parkConflicts, r)
    && s.notes.Some? && r.entry.attachment in s.notes.value && !s.notes.value[r.entry.attachment].Records?
  }

  /** An applied record has a free id or is here already, so it clashes with no
      record of its container. */
  lemma {:induction false} JoinsCleanly(notes: Notes, applied: seq<Entry>, a: Oid)
    requires UniqueIds(notes) && AllIdentified(applied) && DistinctIds(applied) && ContainerAt(notes, a).Records?
    requires forall e <- applied, d: Entry :: Holds(notes, d) && d.record.id == e.record.id ==> d == e
    ensures CombinedAt(notes, applied, a).Some?
  {
    hide UniqueIds, Keyed, Join, Sorted, GroupAt, AllIdentified, DistinctIds, Holds;
    var records, group := ContainerAt(notes, a).records, GroupAt(applied, a);
    KeyedFacts(records);
    SortedKeeps(group);
    GroupUnique(applied, a);
    GroupHolds(applied, a);
    JoinStops(Keyed(records), Sorted(group));
    forall x, y | x in Sorted(group) && (y in Keyed(records) || y in Sorted(group)) && KeyOf(x) == KeyOf(y) ensures x == y {
      if y in Sorted(group) {
        var i :| 0 <= i < |group| && group[i] == x;
        SameKey(group, y, i);
      } else {
        IdentifiedAt(applied, Entry(a, x));
        InContainer(notes, a, y);
        assert Holds(notes, Entry(a, y)) && Entry(a, x) in applied;
      }
    }
  }

  lemma {:induction false} IdentifiedAt(entries: seq<Entry>, e: Entry)
    requires AllIdentified(entries) && e in entries
    ensures e.record.id.Some?
  {}

  lemma {:induction false} InContainer(notes: Notes, a: Oid, r: Record)
    requires ContainerAt(notes, a).Records? && r in ContainerAt(notes, a).records
    ensures Holds(notes, Entry(a, r))
  {}

  lemma {:induction false} AppliedClashes(s: Repository, envelope: Envelope, parkConflicts: bool)
    requires Fits(s, envelope)
    ensures Identified(envelope)
    ensures var applied := AppliedBy(ImportPreview(s, envelope, parkConflicts, 0));
            && AllIdentified(applied) && DistinctIds(applied)
            && (ImportPreview(s, envelope, parkConflicts, 0).conflicts == 0 ==>
                  && (forall e <- applied, d: Entry :: Holds(OrEmpty(s.notes), d) && d.record.id == e.record.id ==> d == e)
                  && (forall e <- applied :: Here(s, e) ||
                        exists i :: 0 <= i < |envelope.records| && envelope.records[i].entry == e &&
                                    Free(s, envelope, parkConflicts, envelope.records[i]))
                  && (forall i :: 0 <= i < |envelope.records| && Free(s, envelope, parkConflicts, envelope.records[i]) ==>
                        envelope.records[i].entry in applied))
  {
    hide UniqueIds, AllIdentified, DistinctIds, Holds, RefTaken, Rejected, WithAction, PlanFor, Exported, Copies;
    IdentifiedEntries(envelope);
    var preview, entries := ImportPreview(s, envelope, parkConflicts, 0), EntriesOf(envelope);
    assert Lists(preview.records, entries) by { PreviewIsListed(s, envelope, parkConflicts, 0); }
    WithActionDistinct(preview.records, entries, Applies);
    WithActionFacts(preview.records, Applies);
    CountNone(preview.records, Conflict);
    forall i | 0 <= i < |envelope.records|
      ensures preview.records[i] == PlanFor(s, envelope, parkConflicts, envelope.records[i])
    {}
    forall i | 0 <= i < |envelope.records| { PlanMeans(s, envelope, parkConflicts, envelope.records[i]); }
    NothingHeld();
    forall e, d: Entry | preview.conflicts == 0 && e in AppliedBy(preview) && Holds(OrEmpty(s.notes), d) && d.record.id == e.record.id
      ensures d == e
    {
      IdentifiedAt(AppliedBy(preview), e);
      assert IdTaken(s, e);
      var i :| 0 <= i < |preview.records| && preview.records[i].entry == e && Applies(preview.records[i].action);
      assert Here(s, e);
      UniqueEntry(OrEmpty(s.notes), d, e);
    }
  }

  /** Without parking one open dispute, of an id or of a ref, keeps the whole
      envelope out; besides that only a note this build cannot add to does. */
  lemma {:induction false} FreshImportIsRefusedIff(s: Repository, envelope: Envelope, parkConflicts: bool)
    requires WellFormed(envelope) && (envelope.records != [] ==> envelope.staged.Some?)
    requires UniqueIds(OrEmpty(s.notes))
    ensures Identified(envelope)
    ensures var preview := ImportPreview(s, envelope, parkConflicts, 0);
            AllIdentified(ParkedBy(preview)) &&
            (ApplyImport(s, envelope, preview, s.parked.Keys).None? <==>
              || (!parkConflicts && exists i :: 0 <= i < |envelope.records| && Open(s, envelope.records[i].entry))
              || (!parkConflicts && exists ref :: ref in envelope.refs && ref in s.refs && envelope.refs[ref] != s.refs[ref])
              || (exists i :: 0 <= i < |envelope.records| && Blocked(s, envelope, parkConflicts, envelope.records[i])))
  {
    hide UniqueIds, WellFormed, Holds, ImportPreview, Open, Disputed, Apply, Blocked, WithAction, ParkedOf;
    IdentifiedEntries(envelope);
    PreviewIsListed(s, envelope, parkConflicts, 0);
    var preview := ImportPreview(s, envelope, parkConflicts, 0);
    ImportMerges(s, envelope, preview, s.parked.Keys);
    forall i | 0 <= i < |envelope.records| { DisputedIsOpen(s, envelope.records[i].entry); }
    if parkConflicts { ParkingNeverRefuses(s, envelope, 0); } else { OneDisputeRefuses(s, envelope, 0); }
    assert forall ref :: ref in envelope.refs && ref in s.refs && envelope.refs[ref] != s.refs[ref] <==> Disagrees(s.refs, envelope.refs, ref);
    if preview.conflicts == 0 {
      if !preview.changes || (envelope.staged.None? && envelope.refs == map[]) {
        NoneBlocked(s, envelope, parkConflicts);
      } else {
        MergesIff(s, envelope, parkConflicts);
      }
    }
  }

  lemma {:induction false} DisputedIsOpen(s: Repository, e: Entry)
    requires e.record.id.Some?
    ensures Disputed(s, e) <==> Open(s, e)
  {
    hide Copies, RejectedFor;
    CopiesAreHeld(OrEmpty(s.notes), e.record.id.value);
    RejectedIsListed(s, e, e.record.id.value);
    NothingHeld();
    if IdTaken(s, e) {
      var d: Entry :| Holds(s.notes.value, d) && d.record.id == e.record.id;
      assert d in Copies(s.notes.value, e.record.id.value);
    }
    if d :| d in Copies(OrEmpty(s.notes), e.record.id.value) { assert Holds(OrEmpty(s.notes), d); }
  }

  /** Nothing is in the way of an import that has nothing to do. */
  lemma {:induction false} NoneBlocked(s: Repository, envelope: Envelope, parkConflicts: bool)
    requires Fits(s, envelope)
    ensures Identified(envelope)
    ensures var preview := ImportPreview(s, envelope, parkConflicts, 0);
            preview.conflicts == 0 && (!preview.changes || (envelope.staged.None? && envelope.refs == map[])) ==>
              forall i :: 0 <= i < |envelope.records| ==> !Blocked(s, envelope, parkConflicts, envelope.records[i])
  {
    hide UniqueIds, WellFormed, Holds, ImportPreview, WithAction, RefTaken;
    IdentifiedEntries(envelope);
    var preview := ImportPreview(s, envelope, parkConflicts, 0);
    if preview.conflicts == 0 && !preview.changes {
      SkippedIffNothingToDo(s, envelope, parkConflicts);
      AppliedClashes(s, envelope, parkConflicts);
      WithActionFacts(preview.records, Applies);
      NothingHeld();
    }
  }

  lemma {:induction false} MergesIff(s: Repository, envelope: Envelope, parkConflicts: bool)
    requires Fits(s, envelope)
    ensures Identified(envelope)
    ensures var preview := ImportPreview(s, envelope, parkConflicts, 0);
            preview.conflicts == 0 ==>
              (Apply(NotesProtocol.Import(envelope.staged, AppliedBy(preview), EntriesOf(envelope), ParkedBy(preview) != []), s.notes).Refused? <==>
                 exists i :: 0 <= i < |envelope.records| && Blocked(s, envelope, parkConflicts, envelope.records[i]))
  {
    hide UniqueIds, WellFormed, Holds, ImportPreview, WithAction, Free, CombinedAt;
    IdentifiedEntries(envelope);
    var preview := ImportPreview(s, envelope, parkConflicts, 0);
    var notes, applied := OrEmpty(s.notes), AppliedBy(preview);
    AppliedClashes(s, envelope, parkConflicts);
    if preview.conflicts == 0 {
      forall a | a in Attachments(applied) && ContainerAt(notes, a).Records? ensures CombinedAt(notes, applied, a).Some? {
        JoinsCleanly(notes, applied, a);
      }
      forall a ensures CombinedAt(notes, applied, a).Some? ==> ContainerAt(notes, a).Records? { OnlyRecordsCombine(notes, applied, a); }
      if i :| 0 <= i < |envelope.records| && Blocked(s, envelope, parkConflicts, envelope.records[i]) {
        var e := envelope.records[i].entry;
        assert e in applied;
        assert e.attachment in Attachments(applied);
        assert CombinedAt(notes, applied, e.attachment).None?;
      }
      if a :| a in Attachments(applied) && CombinedAt(notes, applied, a).None? {
        var k :| 0 <= k < |applied| && applied[k].attachment == a;
        assert applied[k] in applied && !Here(s, applied[k]) by { HereIsRecords(s, applied[k]); }
      }
    }
  }

  lemma {:induction false} HereIsRecords(s: Repository, e: Entry)
    ensures Here(s, e) ==> ContainerAt(s.notes.value, e.attachment).Records?
  {}
}
