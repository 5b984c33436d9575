/** Runs of publishing, importing, parking and deciding over one repository.
    Each step is one atomic publication; a preview may be older than the state
    it is applied to. */
module Exchange {
  import opened Git
  import opened NoteRecords
  import opened NotesProtocol
  import opened MetadataTransfer

  ghost predicate HasId(notes: Notes, a: Oid, i: int, id: RecordId) {
    a in notes && notes[a].Records? && 0 <= i < |notes[a].records| && notes[a].records[i].id == Some(id)
  }

  /** A record id names one fact, in one place. */
  ghost predicate UniqueIds(notes: Notes) {
    forall a, i, b, j, id :: HasId(notes, a, i, id) && HasId(notes, b, j, id) ==> a == b && i == j
  }

  ghost predicate Elsewhere(notes: Notes, e: Entry) {
    e.record.id.Some? && exists b, j :: b != e.attachment && HasId(notes, b, j, e.record.id.value)
  }

  predicate AllIdentified(entries: seq<Entry>) {
    forall i :: 0 <= i < |entries| ==> entries[i].record.id.Some?
  }

  predicate DistinctIds(entries: seq<Entry>) {
    forall i, j :: 0 <= i < j < |entries| ==> entries[i].record.id != entries[j].record.id
  }

  // What one merge does to the notes.

  lemma {:induction false} HeldAt(notes: Notes, e: Entry, id: RecordId)
    requires Holds(notes, e) && e.record.id == Some(id)
    ensures exists i :: HasId(notes, e.attachment, i, id) && notes[e.attachment].records[i] == e.record
  {
    var i :| 0 <= i < |notes[e.attachment].records| && notes[e.attachment].records[i] == e.record;
    assert HasId(notes, e.attachment, i, id);
  }

  lemma {:induction false} UniqueSpeaks(notes: Notes, e: Entry)
    requires UniqueIds(notes) && Holds(notes, e) && e.record.id.Some?
    ensures Speaks(notes[e.attachment].records, e.record)
  {
    var records := notes[e.attachment].records;
    HeldAt(notes, e, e.record.id.value);
    forall x | x in records && KeyOf(x) == KeyOf(e.record) ensures x == e.record {
      HeldAt(notes, Entry(e.attachment, x), e.record.id.value);
    }
  }

  lemma {:induction false} UniqueEntry(notes: Notes, d: Entry, e: Entry)
    requires UniqueIds(notes) && Holds(notes, d) && Holds(notes, e)
    requires d.record.id.Some? && d.record.id == e.record.id
    ensures d == e
  {
    HeldAt(notes, d, d.record.id.value);
    HeldAt(notes, e, d.record.id.value);
  }

  /** A merge removes no identified record and changes none. */
  lemma {:induction false} ImportKeeps(notes: Notes, entries: seq<Entry>, e: Entry)
    requires UniqueIds(notes) && Imported(notes, entries).Some? && Holds(notes, e) && e.record.id.Some?
    ensures Holds(Imported(notes, entries).value, e)
  {
    hide CombinedAt;
    UniqueSpeaks(notes, e);
    if e.attachment in Attachments(entries) {
      CombinedSpeaks(notes, entries, e.attachment, e.record);
    }
  }

  /** A merge adds every incoming record, and nothing else. */
  lemma {:induction false} ImportAdds(notes: Notes, entries: seq<Entry>)
    requires Imported(notes, entries).Some?
    ensures forall i :: 0 <= i < |entries| ==> Holds(Imported(notes, entries).value, entries[i])
    ensures forall e :: Holds(Imported(notes, entries).value, e) ==> Holds(notes, e) || e in entries
  {
    hide CombinedAt;
    var after := Imported(notes, entries).value;
    forall i | 0 <= i < |entries| ensures Holds(after, entries[i]) {
      assert entries[i].attachment in Attachments(entries);
      IncomingIsCombined(notes, entries, entries[i]);
    }
    forall e | Holds(after, e) ensures Holds(notes, e) || e in entries {
      if e.attachment in Attachments(entries) { CombinedFrom(notes, entries, e.attachment); }
    }
  }

  lemma {:induction false} IncomingIsCombined(notes: Notes, entries: seq<Entry>, e: Entry)
    requires e in entries && CombinedAt(notes, entries, e.attachment).Some?
    ensures e.record in CombinedAt(notes, entries, e.attachment).value
  {
    hide Precedes, Insert, Sorted, Keyed, Join, GroupAt, UniqueKeys;
    var records, group := ContainerAt(notes, e.attachment).records, GroupAt(entries, e.attachment);
    GroupHolds(entries, e.attachment);
    KeyedFacts(records);
    SortedKeeps(group);
    JoinFacts(Keyed(records), Sorted(group));
    SortedKeeps(Join(Keyed(records), Sorted(group)).value);
  }

  /** Ids stay unique after a merge if and only if none of the incoming records
      has its id attached to another commit already. */
  lemma {:induction false} ImportKeepsIdsUniqueIff(notes: Notes, entries: seq<Entry>)
    requires UniqueIds(notes) && AllIdentified(entries) && DistinctIds(entries) && Imported(notes, entries).Some?
    ensures UniqueIds(Imported(notes, entries).value) <==> forall i :: 0 <= i < |entries| ==> !Elsewhere(notes, entries[i])
  {
    hide Imported;
    var after := Imported(notes, entries).value;
    ImportAdds(notes, entries);
    if i :| 0 <= i < |entries| && Elsewhere(notes, entries[i]) {
      var e := entries[i];
      var b, j :| b != e.attachment && HasId(notes, b, j, e.record.id.value);
      var there := Entry(b, notes[b].records[j]);
      ImportKeeps(notes, entries, there);
      if UniqueIds(after) { UniqueEntry(after, there, e); }
    } else {
      forall a, i, b, j, id | HasId(after, a, i, id) && HasId(after, b, j, id) ensures a == b && i == j {
        var x, y := Entry(a, after[a].records[i]), Entry(b, after[b].records[j]);
        SamePlace(notes, entries, x, y);
        ImportUniqueWithin(notes, entries, a, i, j, id);
      }
    }
  }

  lemma {:induction false} SamePlace(notes: Notes, entries: seq<Entry>, x: Entry, y: Entry)
    requires UniqueIds(notes) && DistinctIds(entries) && x.record.id.Some? && x.record.id == y.record.id
    requires forall i :: 0 <= i < |entries| ==> !Elsewhere(notes, entries[i])
    requires (Holds(notes, x) || x in entries) && (Holds(notes, y) || y in entries)
    ensures x.attachment == y.attachment
  {
    if Holds(notes, x) && Holds(notes, y) {
      UniqueEntry(notes, x, y);
    } else if Holds(notes, x) {
      HeldAt(notes, x, x.record.id.value);
      var i :| 0 <= i < |entries| && entries[i] == y;
      assert !Elsewhere(notes, entries[i]);
    } else if Holds(notes, y) {
      HeldAt(notes, y, y.record.id.value);
      var i :| 0 <= i < |entries| && entries[i] == x;
      assert !Elsewhere(notes, entries[i]);
    }
  }

  lemma {:induction false} ImportUniqueWithin(notes: Notes, entries: seq<Entry>, a: Oid, i: int, j: int, id: RecordId)
    requires UniqueIds(notes) && Imported(notes, entries).Some?
    requires HasId(Imported(notes, entries).value, a, i, id) && HasId(Imported(notes, entries).value, a, j, id)
    ensures i == j
  {
    hide CombinedAt;
    var records := Imported(notes, entries).value[a].records;
    if a in Attachments(entries) {
      CombinedFrom(notes, entries, a);
      assert UniqueKeys(records);
      assert KeyOf(records[i]) == KeyOf(records[j]);
    } else {
      assert HasId(notes, a, i, id) && HasId(notes, a, j, id);
    }
  }

  /** Importing the same records again changes nothing at all. */
  lemma {:induction false} ReimportChangesNothing(notes: Notes, entries: seq<Entry>)
    requires Imported(notes, entries).Some?
    ensures Imported(Imported(notes, entries).value, entries) == Imported(notes, entries)
  {
    var after := Imported(notes, entries).value;
    forall a | a in Attachments(entries) ensures CombinedAt(after, entries, a) == CombinedAt(notes, entries, a) {
      CombinedAgain(notes, after, entries, a);
    }
    hide CombinedAt, Attachments;
    var again := Imported(after, entries);
    assert again.Some?;
    assert again.value.Keys == after.Keys;
    assert forall a <- after.Keys :: again.value[a] == after[a];
    assert again.value == after;
  }

  lemma {:induction false} CombinedAgain(notes: Notes, after: Notes, entries: seq<Entry>, a: Oid)
    requires CombinedAt(notes, entries, a).Some? && ContainerAt(after, a) == Records(CombinedAt(notes, entries, a).value)
    ensures CombinedAt(after, entries, a) == CombinedAt(notes, entries, a)
  {
    hide Precedes, Insert, Keyed, Join, GroupAt;
    var records, group := ContainerAt(notes, a).records, GroupAt(entries, a);
    CombinedFrom(notes, entries, a);
    KeyedFacts(records);
    SortedKeeps(group);
    JoinFacts(Keyed(records), Sorted(group));
    var joined := Join(Keyed(records), Sorted(group)).value;
    SortedKeeps(joined);
    SortedFacts(joined);
    var there := Sorted(joined);
    KeyedUnique(there);
    forall r | r in Sorted(group) ensures r in there { assert r in joined; }
    JoinNothingNew(there, Sorted(group));
    InOrderStays(there);
  }

  /** The notes an export writes: each group of records, in order. */
  function Exported(entries: seq<Entry>): Notes {
    map a | a in Attachments(entries) :: Records(Sorted(GroupAt(entries, a)))
  }

  /** Adopting an exported notes commit into an empty repository is merging it. */
  lemma {:induction false} AdoptingIsMerging(entries: seq<Entry>)
    requires DistinctIds(entries) && AllIdentified(entries)
    ensures Imported(map[], entries) == Some(Exported(entries))
  {
    forall a | a in Attachments(entries) ensures CombinedAt(map[], entries, a) == Some(Sorted(GroupAt(entries, a))) {
      hide Precedes, Insert;
      var group := GroupAt(entries, a);
      GroupUnique(entries, a);
      SortedKeeps(group);
      SortedFacts(group);
      JoinEmpty(Sorted(group));
      InOrderStays(Sorted(group));
    }
    hide CombinedAt, Attachments;
    var merged := Imported(map[], entries);
    assert merged.Some? && merged.value.Keys == Exported(entries).Keys;
    assert merged.value == Exported(entries);
  }

  lemma {:induction false} JoinEmpty(incoming: seq<Record>)
    requires UniqueKeys(incoming)
    ensures Join([], incoming) == Some(incoming)
  {
    if incoming != [] {
      var rest, last := incoming[..|incoming| - 1], incoming[|incoming| - 1];
      assert incoming == rest + [last];
      JoinEmpty(rest);
      assert IndexOf(rest, KeyOf(last)).None?;
    }
  }

  lemma {:induction false} GroupUnique(entries: seq<Entry>, a: Oid)
    requires DistinctIds(entries) && AllIdentified(entries)
    ensures UniqueKeys(GroupAt(entries, a))
  {
    if entries != [] {
      var rest, last := entries[..|entries| - 1], entries[|entries| - 1];
      assert entries == rest + [last];
      GroupUnique(rest, a);
      GroupHolds(rest, a);
      forall r | r in GroupAt(rest, a) ensures KeyOf(r) != KeyOf(last.record) {
        var i :| 0 <= i < |rest| && rest[i] == Entry(a, r);
        assert entries[i].record.id != entries[|rest|].record.id;
      }
    }
  }

  // One import and one decision, each a single publication.

  function EntriesOf(envelope: Envelope): seq<Entry> {
    seq(|envelope.records|, i requires 0 <= i < |envelope.records| => envelope.records[i].entry)
  }

  /** What inspecting an exported envelope guarantees. */
  predicate WellFormed(envelope: Envelope) {
    && AllIdentified(EntriesOf(envelope)) && DistinctIds(EntriesOf(envelope))
    && (envelope.staged.Some? ==> envelope.staged.value.notes == Exported(EntriesOf(envelope)))
  }

  function ParkedOf(lineage: Lineage, entries: seq<Entry>): map<Parking, Entry>
    requires AllIdentified(entries)
  {
    if entries == [] then map[]
    else
      var last := entries[|entries| - 1];
      assert forall i :: 0 <= i < |entries| - 1 ==> entries[..|entries| - 1][i] == entries[i];
      ParkedOf(lineage, entries[..|entries| - 1])[Parking(lineage, last.record.id.value) := last]
  }

  function AppliedBy(preview: Preview): seq<Entry> {
    WithAction(preview.records, Applies)
  }

  function ParkedBy(preview: Preview): seq<Entry> {
    WithAction(preview.records, Parks)
  }

  /** Applies a preview in one transaction, or refuses. `existed` is what was
      parked when the records were staged. */
  function ApplyImport(s: Repository, envelope: Envelope, preview: Preview, existed: set<Parking>): Option<Repository>
    requires AllIdentified(ParkedBy(preview))
  {
    if preview.conflicts > 0 then None
    else if !preview.changes || (envelope.staged.None? && envelope.refs == map[]) then Some(s)
    else
      var parked := ParkedOf(envelope.lineage, ParkedBy(preview));
      if exists p <- parked.Keys :: p in s.parked && p !in existed then None
      else if exists ref <- envelope.refs.Keys :: Disagrees(s.refs, envelope.refs, ref) && ref !in preview.refused then None
      else
        match Apply(NotesProtocol.Import(envelope.staged, AppliedBy(preview), EntriesOf(envelope), ParkedBy(preview) != []), s.notes)
        case Refused => None
        case Left(notes) => Some(Repository(notes, envelope.refs + s.refs, s.parked + parked, s.registry))
  }

  function Positions(notes: Notes, id: RecordId): (r: set<(Oid, int)>)
    ensures forall a: Oid, i: int :: (a, i) in r <==> HasId(notes, a, i, id)
  {
    set a, i | a in notes && notes[a].Records? && 0 <= i < |notes[a].records| && notes[a].records[i].id == Some(id) :: (a, i)
  }

  function Parkings(s: Repository, id: RecordId): set<Parking> {
    set p | p in s.parked && p.id == id
  }

  /** A person's decision on a parked record: keep the local copy, or put the
      parked one in its place. `filed` is false when the process dies between
      clearing the dispute and filing the decision. */
  ghost function Dispose(s: Repository, id: RecordId, replaceLocal: bool, filed: bool): Option<Repository> {
    if |Parkings(s, id)| != 1 || |Positions(OrEmpty(s.notes), id)| != 1 then None
    else
      var p :| p in Parkings(s, id);
      var c :| c in Positions(OrEmpty(s.notes), id);
      var theirs, ours := s.parked[p], Entry(c.0, s.notes.value[c.0].records[c.1]);
      if replaceLocal && ours.attachment != theirs.attachment then None
      else
        var outcome := if replaceLocal then Apply(Replace(ours.attachment, id, theirs.record), s.notes) else Left(s.notes);
        var rejected := if replaceLocal then ours else theirs;
        if outcome.Refused? then None
        else Some(Repository(outcome.notes, s.refs, s.parked - {p},
                    if filed then s.registry + [Disposition(id, [rejected])] else s.registry))
  }

  // Runs.

  datatype Site = Site(repo: Repository, previews: seq<(Envelope, Preview)>)

  datatype Step =
    | Published(e: Entry)
    | Inspected(envelope: Envelope, parkConflicts: bool, objectProblems: nat)
    | Applied(k: nat, existed: set<Parking>)
    | Decided(id: RecordId, replaceLocal: bool, filed: bool)

  /** The state after one step; a refused step leaves it as it was. */
  ghost function Next(s: Site, step: Step): Site {
    match step
    case Published(e) =>
      (match Apply(Append(e.attachment, e.record), s.repo.notes)
       case Refused => s
       case Left(notes) => s.(repo := s.repo.(notes := notes)))
    case Inspected(envelope, parkConflicts, problems) =>
      if WellFormed(envelope) then
        IdentifiedEntries(envelope);
        s.(previews := s.previews + [(envelope, ImportPreview(s.repo, envelope, parkConflicts, problems))])
      else s
    case Applied(k, existed) =>
      if k < |s.previews| && AllIdentified(ParkedBy(s.previews[k].1)) then
        (match ApplyImport(s.repo, s.previews[k].0, s.previews[k].1, existed)
         case None => s
         case Some(repo) => s.(repo := repo))
      else s
    case Decided(id, replaceLocal, filed) =>
      match Dispose(s.repo, id, replaceLocal, filed)
      case None => s
      case Some(repo) => s.(repo := repo)
  }

  ghost function Exec(s: Site, steps: seq<Step>): Site {
    if steps == [] then s else Next(Exec(s, steps[..|steps| - 1]), steps[|steps| - 1])
  }

  lemma {:induction false} IdentifiedEntries(envelope: Envelope)
    requires WellFormed(envelope)
    ensures Identified(envelope)
  {
    forall i | 0 <= i < |envelope.records| ensures envelope.records[i].entry.record.id.Some? {
      assert EntriesOf(envelope)[i] == envelope.records[i].entry;
    }
  }

  /** A preview lists its envelope's records, and finds nothing local to dispute
      in a repository without notes. */
  ghost predicate PreviewOf(s: Repository, envelope: Envelope, preview: Preview) {
    && WellFormed(envelope)
    && |preview.records| == |envelope.records|
    && (forall i :: 0 <= i < |preview.records| ==> preview.records[i].entry == EntriesOf(envelope)[i])
    && (s.notes.None? ==> forall i :: 0 <= i < |preview.records| ==>
          preview.records[i].action == Add || preview.records[i].action == Park)
  }

  ghost predicate Invariant(s: Site) {
    && UniqueIds(OrEmpty(s.repo.notes))
    && (forall k :: 0 <= k < |s.previews| ==> PreviewOf(s.repo, s.previews[k].0, s.previews[k].1))
    && (forall p <- s.repo.parked :: s.repo.parked[p].record.id == Some(p.id))
  }

  /** A published record has a fresh id, and none of the records an import
      applies has had its id attached to another commit since its preview. */
  ghost predicate Orderly(s: Site, step: Step) {
    match step
    case Published(e) => e.record.id.Some? && forall a, i :: !HasId(OrEmpty(s.repo.notes), a, i, e.record.id.value)
    case Applied(k, _) => k < |s.previews| ==> Settled(s.repo, s.previews[k].1)
    case _ => true
  }

  ghost predicate Settled(s: Repository, preview: Preview) {
    forall i :: 0 <= i < |AppliedBy(preview)| ==> !Elsewhere(OrEmpty(s.notes), AppliedBy(preview)[i])
  }

  lemma {:induction false} WithActionFacts(plans: seq<Plan>, take: Action -> bool)
    ensures forall e :: e in WithAction(plans, take) <==> exists i :: 0 <= i < |plans| && plans[i].entry == e && take(plans[i].action)
  {
    if plans != [] {
      var rest, last := plans[..|plans| - 1], plans[|plans| - 1];
      assert plans == rest + [last];
      WithActionFacts(rest, take);
      forall e ensures e in WithAction(plans, take) <==> exists i :: 0 <= i < |plans| && plans[i].entry == e && take(plans[i].action) {
        if e in WithAction(rest, take) {
          var i :| 0 <= i < |rest| && rest[i].entry == e && take(rest[i].action);
          assert plans[i] == rest[i];
        }
        if i :| 0 <= i < |plans| && plans[i].entry == e && take(plans[i].action) {
          if i < |rest| { assert rest[i] == plans[i]; }
        }
      }
    }
  }

  ghost predicate Lists(plans: seq<Plan>, entries: seq<Entry>) {
    |plans| == |entries| && forall i :: 0 <= i < |plans| ==> plans[i].entry == entries[i]
  }

  lemma {:induction false} WithActionDistinct(plans: seq<Plan>, entries: seq<Entry>, take: Action -> bool)
    requires Lists(plans, entries) && AllIdentified(entries) && DistinctIds(entries)
    ensures AllIdentified(WithAction(plans, take)) && DistinctIds(WithAction(plans, take))
    ensures (forall i :: 0 <= i < |plans| ==> take(plans[i].action)) ==> WithAction(plans, take) == entries
  {
    if plans != [] {
      var rest, last := plans[..|plans| - 1], plans[|plans| - 1];
      var before := entries[..|entries| - 1];
      assert entries == before + [last.entry];
      assert forall i :: 0 <= i < |rest| ==> rest[i] == plans[i];
      WithActionDistinct(rest, before, take);
      WithActionFacts(rest, take);
      var taken := WithAction(rest, take);
      forall i | 0 <= i < |taken| ensures taken[i].record.id != last.entry.record.id {
        assert taken[i] in taken;
        var j :| 0 <= j < |rest| && rest[j].entry == taken[i] && take(rest[j].action);
        assert entries[j] == taken[i];
      }
    }
  }

  /** An applied preview merges exactly the records it applies, whether or not
      the notes commit of the envelope was adopted whole. */
  lemma {:induction false} ImportMerges(s: Repository, envelope: Envelope, preview: Preview, existed: set<Parking>)
    requires PreviewOf(s, envelope, preview)
    ensures AllIdentified(AppliedBy(preview)) && DistinctIds(AppliedBy(preview)) && AllIdentified(ParkedBy(preview))
    ensures var t := ApplyImport(s, envelope, preview, existed);
            t.Some? ==>
              || t.value.notes == s.notes
              || (Imported(OrEmpty(s.notes), AppliedBy(preview)).Some? &&
                  t.value.notes == Imported(OrEmpty(s.notes), AppliedBy(preview)))
    ensures var t := ApplyImport(s, envelope, preview, existed);
            t.Some? && preview.changes && envelope.staged.Some? ==>
              Imported(OrEmpty(s.notes), AppliedBy(preview)).Some? &&
              t.value.notes == Imported(OrEmpty(s.notes), AppliedBy(preview))
  {
    hide Imported, Exported, ParkedOf, DistinctIds, AllIdentified;
    var entries := EntriesOf(envelope);
    assert Lists(preview.records, entries);
    WithActionDistinct(preview.records, entries, Applies);
    WithActionDistinct(preview.records, entries, Parks);
    if s.notes.None? && ParkedBy(preview) == [] {
      forall i | 0 <= i < |preview.records| ensures Applies(preview.records[i].action) {
        WithActionFacts(preview.records, Parks);
        assert preview.records[i].entry !in ParkedBy(preview);
      }
      AdoptingIsMerging(entries);
    }
  }

  ghost predicate NotReplaced(step: Step, e: Entry) {
    step.Decided? && step.replaceLocal ==> Some(step.id) != e.record.id
  }

  lemma {:induction false} PublishKeeps(before: Notes, e: Entry, after: Notes)
    requires UniqueIds(before) && e.record.id.Some? && forall a, i :: !HasId(before, a, i, e.record.id.value)
    requires Apply(Append(e.attachment, e.record), Some(before)) == Left(Some(after))
    ensures UniqueIds(after)
    ensures forall d :: Holds(before, d) ==> Holds(after, d)
  {
    var a := e.attachment;
    var records := after[a].records;
    forall b, i, id: RecordId | HasId(after, b, i, id)
      ensures HasId(before, b, i, id) || (b == a && i == |records| - 1 && Some(id) == e.record.id)
    {}
    forall d | Holds(before, d) ensures Holds(after, d) {
      if d.attachment == a {
        var i :| 0 <= i < |before[a].records| && before[a].records[i] == d.record;
        assert records[i] == d.record;
      }
    }
  }

  lemma {:induction false} ReplaceKeeps(before: Notes, a: Oid, id: RecordId, record: Record, after: Notes)
    requires UniqueIds(before) && record.id == Some(id)
    requires Apply(Replace(a, id, record), Some(before)) == Left(Some(after))
    requires a in before && before[a].Records?
    ensures UniqueIds(after)
    ensures forall d :: Holds(before, d) && d.record.id != Some(id) ==> Holds(after, d)
    ensures Holds(after, Entry(a, record))
  {
    var records, at := before[a].records, IndexOf(before[a].records, KeyOf(record)).value;
    assert after == before[a := Records(records[at := record])];
    assert records[at].id == Some(id) by { assert KeyOf(records[at]) == KeyOf(record); }
    forall b, i, x | HasId(after, b, i, x) ensures HasId(before, b, i, x) {}
    forall d | Holds(before, d) && d.record.id != Some(id) ensures Holds(after, d) {
      if d.attachment == a {
        var i :| 0 <= i < |records| && records[i] == d.record;
        assert after[a].records[i] == d.record;
      }
    }
    assert after[a].records[at] == record;
  }

  lemma {:induction false} ImportStepKeeps(s: Repository, envelope: Envelope, preview: Preview, existed: set<Parking>)
    requires PreviewOf(s, envelope, preview) && UniqueIds(OrEmpty(s.notes)) && Settled(s, preview)
    requires AllIdentified(ParkedBy(preview)) && ApplyImport(s, envelope, preview, existed).Some?
    requires forall p <- s.parked :: s.parked[p].record.id == Some(p.id)
    ensures var t := ApplyImport(s, envelope, preview, existed).value;
            && UniqueIds(OrEmpty(t.notes))
            && (forall d :: Holds(OrEmpty(s.notes), d) && d.record.id.Some? ==> Holds(OrEmpty(t.notes), d))
            && (forall p <- t.parked :: t.parked[p].record.id == Some(p.id))
            && (s.notes.Some? ==> t.notes.Some?)
  {
    hide Imported, Exported, AllIdentified, DistinctIds, UniqueIds, Holds;
    ImportMerges(s, envelope, preview, existed);
    ParkedIds(envelope.lineage, ParkedBy(preview));
    var t := ApplyImport(s, envelope, preview, existed).value;
    var before, applied := OrEmpty(s.notes), AppliedBy(preview);
    if t.notes != s.notes {
      ImportKeepsIdsUniqueIff(before, applied);
      forall d | Holds(before, d) && d.record.id.Some? ensures Holds(OrEmpty(t.notes), d) {
        ImportKeeps(before, applied, d);
      }
    }
  }

  lemma {:induction false} ParkedIds(lineage: Lineage, entries: seq<Entry>)
    requires AllIdentified(entries)
    ensures forall p <- ParkedOf(lineage, entries) ::
              ParkedOf(lineage, entries)[p].record.id == Some(p.id) && ParkedOf(lineage, entries)[p] in entries
  {
    if entries != [] {
      var rest, last := entries[..|entries| - 1], entries[|entries| - 1];
      assert entries == rest + [last];
      ParkedIds(lineage, rest);
    }
  }

  lemma {:induction false} DisposeKeeps(s: Repository, id: RecordId, replaceLocal: bool, filed: bool)
    requires UniqueIds(OrEmpty(s.notes)) && Dispose(s, id, replaceLocal, filed).Some?
    requires forall p <- s.parked :: s.parked[p].record.id == Some(p.id)
    ensures var t := Dispose(s, id, replaceLocal, filed).value;
            && t.notes.Some? && UniqueIds(t.notes.value)
            && (forall d :: Holds(OrEmpty(s.notes), d) && (replaceLocal ==> d.record.id != Some(id)) ==> Holds(t.notes.value, d))
            && (forall p <- t.parked :: p in s.parked && t.parked[p] == s.parked[p] && p.id != id)
            && (exists i, a :: HasId(t.notes.value, a, i, id))
            && (exists d :: Holds(OrEmpty(s.notes), d) && d.record.id == Some(id))
            && s.notes.Some?
  {
    hide UniqueIds, IndexOf, KeyOf;
    var p :| p in Parkings(s, id);
    var c :| c in Positions(OrEmpty(s.notes), id);
    var t := Dispose(s, id, replaceLocal, filed).value;
    var notes := s.notes.value;
    assert HasId(notes, c.0, c.1, id);
    var ours := Entry(c.0, notes[c.0].records[c.1]);
    assert Holds(notes, ours);
    OnlyMember(Parkings(s, id), p);
    OnlyMember(Positions(notes, id), c);
    if replaceLocal {
      ReplaceKeeps(notes, c.0, id, s.parked[p].record, t.notes.value);
      HeldAt(t.notes.value, Entry(c.0, s.parked[p].record), id);
    }
  }

  lemma {:induction false} OnlyMember<T>(s: set<T>, x: T)
    requires |s| == 1 && x in s
    ensures s == {x}
  {
    assert |s - {x}| == 0;
  }

  lemma {:induction false} StepKeeps(s: Site, step: Step)
    requires Invariant(s) && Orderly(s, step)
    ensures Invariant(Next(s, step))
    ensures s.repo.notes.Some? ==> Next(s, step).repo.notes.Some?
    ensures forall d :: Holds(OrEmpty(s.repo.notes), d) && d.record.id.Some? && NotReplaced(step, d) ==>
              Holds(OrEmpty(Next(s, step).repo.notes), d)
  {
    hide UniqueIds, Holds, ImportPreview, ApplyImport, Dispose, Rewrite, WellFormed, AllIdentified, HasId;
    var before, t := OrEmpty(s.repo.notes), Next(s, step);
    match step {
      case Published(e) =>
        var outcome := Apply(Append(e.attachment, e.record), s.repo.notes);
        if outcome.Left? {
          assert outcome == Apply(Append(e.attachment, e.record), Some(before));
          PublishKeeps(before, e, outcome.notes.value);
        }
      case Inspected(envelope, parkConflicts, problems) =>
        if WellFormed(envelope) { PreviewIsListed(s.repo, envelope, parkConflicts, problems); }
      case Applied(k, existed) =>
        if k < |s.previews| && AllIdentified(ParkedBy(s.previews[k].1)) &&
           ApplyImport(s.repo, s.previews[k].0, s.previews[k].1, existed).Some? {
          ImportStepKeeps(s.repo, s.previews[k].0, s.previews[k].1, existed);
        }
      case Decided(id, replaceLocal, filed) =>
        if Dispose(s.repo, id, replaceLocal, filed).Some? { DisposeKeeps(s.repo, id, replaceLocal, filed); }
    }
  }

  lemma {:induction false} PreviewIsListed(s: Repository, envelope: Envelope, parkConflicts: bool, problems: nat)
    requires WellFormed(envelope)
    ensures Identified(envelope)
    ensures PreviewOf(s, envelope, ImportPreview(s, envelope, parkConflicts, problems))
  {
    IdentifiedEntries(envelope);
    var preview := ImportPreview(s, envelope, parkConflicts, problems);
    if s.notes.None? {
      forall i | 0 <= i < |preview.records| ensures preview.records[i].action == Add || preview.records[i].action == Park {
        var id := envelope.records[i].entry.record.id.value;
        assert Copies(OrEmpty(s.notes), id) == {};
      }
    }
  }

  ghost predicate OrderlyRun(s: Site, steps: seq<Step>) {
    forall n :: 0 <= n < |steps| ==> Orderly(Exec(s, steps[..n]), steps[n])
  }

  lemma {:induction false} OrderlyPrefix(s: Site, steps: seq<Step>)
    requires steps != [] && OrderlyRun(s, steps)
    ensures OrderlyRun(s, steps[..|steps| - 1])
    ensures Orderly(Exec(s, steps[..|steps| - 1]), steps[|steps| - 1])
  {
    var rest := steps[..|steps| - 1];
    forall n | 0 <= n < |rest| ensures Orderly(Exec(s, rest[..n]), rest[n]) { assert rest[..n] == steps[..n]; }
  }

  ghost predicate NeverReplaced(steps: seq<Step>, d: Entry) {
    forall n :: 0 <= n < |steps| ==> NotReplaced(steps[n], d)
  }

  /** Over every run of publishing, importing, parking and deciding, a record id
      names one fact in one place, and what is published under it changes only
      when a person puts a parked copy in its place. */
  lemma {:induction false} RunsKeepIdsAndContent(s: Site, steps: seq<Step>)
    requires Invariant(s) && OrderlyRun(s, steps)
    ensures Invariant(Exec(s, steps))
    ensures forall d :: Holds(OrEmpty(s.repo.notes), d) && d.record.id.Some? && NeverReplaced(steps, d) ==>
              Holds(OrEmpty(Exec(s, steps).repo.notes), d)
  {
    hide Next, Orderly, Invariant, Holds;
    if steps != [] {
      var rest, last := steps[..|steps| - 1], steps[|steps| - 1];
      OrderlyPrefix(s, steps);
      RunsKeepIdsAndContent(s, rest);
      StepKeeps(Exec(s, rest), last);
      forall d | Holds(OrEmpty(s.repo.notes), d) && d.record.id.Some? && NeverReplaced(steps, d)
        ensures Holds(OrEmpty(Exec(s, steps).repo.notes), d)
      {
        assert forall n :: 0 <= n < |rest| ==> rest[n] == steps[n];
        assert NotReplaced(last, d);
      }
    }
  }

  /** A preview taken from the notes it is applied to is always settled. */
  lemma {:induction false} CurrentPreviewIsSettled(s: Repository, envelope: Envelope, parkConflicts: bool, problems: nat)
    requires WellFormed(envelope) && UniqueIds(OrEmpty(s.notes))
    ensures Identified(envelope)
    ensures var preview := ImportPreview(s, envelope, parkConflicts, problems);
            preview.conflicts == 0 ==> Settled(s, preview)
  {
    IdentifiedEntries(envelope);
    var preview := ImportPreview(s, envelope, parkConflicts, problems);
    var notes := OrEmpty(s.notes);
    if preview.conflicts == 0 {
      forall i | 0 <= i < |AppliedBy(preview)| ensures !Elsewhere(notes, AppliedBy(preview)[i]) {
        var e := AppliedBy(preview)[i];
        WithActionFacts(preview.records, Applies);
        assert e in AppliedBy(preview);
        var k :| 0 <= k < |preview.records| && preview.records[k].entry == e && Applies(preview.records[k].action);
        NoConflicts(preview.records, k);
        var id := e.record.id.value;
        CopiesAreHeld(notes, id);
        forall b, j | HasId(notes, b, j, id) ensures b == e.attachment {
          var there := Entry(b, notes[b].records[j]);
          assert Holds(notes, there);
          assert there in Copies(notes, id);
          UniqueEntry(notes, there, e);
        }
      }
    }
  }

  lemma {:induction false} NoConflicts(plans: seq<Plan>, k: nat)
    requires k < |plans| && CountAction(plans, Conflict) == 0
    ensures plans[k].action != Conflict
  {
    if k < |plans| - 1 { NoConflicts(plans[..|plans| - 1], k); }
  }

  /** An import moves no ref this repository already had, and leaves every other
      ref of the envelope where the envelope has it, the refused ones excepted. */
  lemma {:induction false} ImportMovesNoRef(s: Repository, envelope: Envelope, preview: Preview, existed: set<Parking>)
    requires AllIdentified(ParkedBy(preview)) && ApplyImport(s, envelope, preview, existed).Some?
    ensures var after := ApplyImport(s, envelope, preview, existed).value.refs;
            && (forall ref <- s.refs :: ref in after && after[ref] == s.refs[ref])
            && (forall ref <- after :: ref in s.refs || ref in envelope.refs)
            && (preview.changes && (envelope.staged.Some? || envelope.refs != map[]) ==>
                  forall ref <- envelope.refs :: ref in after && (ref !in preview.refused ==> after[ref] == envelope.refs[ref]))
  {
    hide Apply, ParkedOf, WithAction;
    if preview.changes && (envelope.staged.Some? || envelope.refs != map[]) {
      forall ref | ref in envelope.refs && ref in s.refs && s.refs[ref] != envelope.refs[ref] ensures ref in preview.refused {
        assert Disagrees(s.refs, envelope.refs, ref);
      }
    }
  }

  /** An applicable import is skipped exactly when there is nothing it could do:
      every record it would write is held, every ref is here, nothing would be
      parked, and there is no first notes commit to adopt. */
  lemma {:induction false} SkippedIffNothingToDo(s: Repository, envelope: Envelope, parkConflicts: bool)
    requires Identified(envelope) && ImportPreview(s, envelope, parkConflicts, 0).conflicts == 0
    ensures var preview := ImportPreview(s, envelope, parkConflicts, 0);
            !preview.changes <==>
              && (forall i :: 0 <= i < |preview.records| && Applies(preview.records[i].action) ==>
                    Holds(OrEmpty(s.notes), preview.records[i].entry))
              && envelope.refs.Keys <= s.refs.Keys
              && (forall i :: 0 <= i < |preview.records| ==> preview.records[i].action != Park)
              && (envelope.staged.Some? ==> s.notes.Some?)
  {
    hide Copies;
    var preview := ImportPreview(s, envelope, parkConflicts, 0);
    CountNone(preview.records, Add);
    CountNone(preview.records, Park);
    CountNone(preview.records, Conflict);
    forall i | 0 <= i < |preview.records| && Applies(preview.records[i].action)
      ensures preview.records[i].action == Add <==> !Holds(OrEmpty(s.notes), preview.records[i].entry)
    {
      assert preview.records[i] == PlanFor(s, envelope, parkConflicts, envelope.records[i]);
      CopiesAreHeld(OrEmpty(s.notes), preview.records[i].entry.record.id.value);
    }
    var created := set ref | ref in envelope.refs && ref !in s.refs;
    assert created == {} <==> envelope.refs.Keys <= s.refs.Keys by {
      forall ref ensures ref in created <==> ref in envelope.refs.Keys && ref !in s.refs.Keys {}
    }
  }

  /** A preview can go stale: when the id has meanwhile been attached elsewhere,
      by another import say, the import publishes it a second time. */
  lemma {:induction false} StaleImportDuplicates()
    ensures var r := Record(Some(1), 0, 0, []);
            var here, there := Entry(1, r), Entry(2, r);
            var envelope := Envelope(1, [Incoming(there, None)], map[], Some(NotesCommit([], Exported([there]))));
            var s := Repository(Some(map[]), map[], map[], []);
            var t := s.(notes := Imported(map[], [here]));
            && WellFormed(envelope) && Identified(envelope) && t.notes.Some? && UniqueIds(t.notes.value)
            && var preview := ImportPreview(s, envelope, false, 0);
               && AllIdentified(ParkedBy(preview))
               && ApplyImport(t, envelope, preview, {}).Some?
               && !UniqueIds(OrEmpty(ApplyImport(t, envelope, preview, {}).value.notes))
  {
    hide ApplyImport, ImportPreview, Imported, UniqueIds;
    var r := Record(Some(1), 0, 0, []);
    var here, there := Entry(1, r), Entry(2, r);
    var envelope := Envelope(1, [Incoming(there, None)], map[], Some(NotesCommit([], Exported([there]))));
    var s := Repository(Some(map[]), map[], map[], []);
    AdoptingIsMerging([here]);
    var notes := Imported(map[], [here]).value;
    var t := s.(notes := Some(notes));
    NoIds();
    ImportKeepsIdsUniqueIff(map[], [here]);
    assert EntriesOf(envelope) == [there];
    AddsItsRecord(s, t, envelope, there);
    ImportAdds(map[], [here]);
    assert Holds(notes, [here][0]);
    HeldAt(notes, here, 1);
    assert Elsewhere(notes, [there][0]);
    ImportKeepsIdsUniqueIff(notes, [there]);
  }

  lemma {:induction false} NoIds()
    ensures UniqueIds(map[])
  {}

  lemma {:induction false} AddsItsRecord(s: Repository, t: Repository, envelope: Envelope, e: Entry)
    requires s.notes == Some(map[]) && t.notes.Some? && e.attachment !in t.notes.value && e.record.id.Some?
    requires envelope.records == [Incoming(e, None)] && envelope.refs == map[] && envelope.staged.Some?
    ensures Identified(envelope) && EntriesOf(envelope) == [e]
    ensures var preview := ImportPreview(s, envelope, false, 0);
            && AppliedBy(preview) == [e] && ParkedBy(preview) == [] && preview.conflicts == 0
            && Imported(t.notes.value, [e]).Some?
            && ApplyImport(t, envelope, preview, {}) == Some(t.(notes := Imported(t.notes.value, [e])))
  {
    hide ImportPreview, Imported, ApplyImport, Identified;
    PreviewOfOne(s, envelope, e);
    var preview := ImportPreview(s, envelope, false, 0);
    ActionsOfOne(e);
    assert EntriesOf(envelope) == [e];
    AddsOne(t.notes.value, e);
    ApplyOfOne(t, envelope, preview, e);
  }

  lemma {:induction false} ApplyOfOne(t: Repository, envelope: Envelope, preview: Preview, e: Entry)
    requires t.notes.Some? && envelope.refs == map[] && envelope.staged.Some?
    requires AppliedBy(preview) == [e] && ParkedBy(preview) == [] && preview.conflicts == 0 && preview.changes
    requires Imported(t.notes.value, [e]).Some?
    ensures ApplyImport(t, envelope, preview, {}) == Some(t.(notes := Imported(t.notes.value, [e])))
  {
    hide Imported, Exported, AppliedBy, ParkedBy;
    assert map[] + t.refs == t.refs && t.parked + map[] == t.parked;
  }

  lemma {:induction false} ActionsOfOne(e: Entry)
    ensures WithAction([Plan(e, Add)], Applies) == [e] && WithAction([Plan(e, Add)], Parks) == []
    ensures CountAction([Plan(e, Add)], Conflict) == 0 && CountAction([Plan(e, Add)], Add) == 1
  {
    assert [Plan(e, Add)][..0] == [];
  }

  lemma {:induction false} PreviewOfOne(s: Repository, envelope: Envelope, e: Entry)
    requires s.notes == Some(map[]) && e.record.id.Some?
    requires envelope.records == [Incoming(e, None)] && envelope.refs == map[]
    ensures Identified(envelope)
    ensures var preview := ImportPreview(s, envelope, false, 0);
            preview.records == [Plan(e, Add)] && preview.conflicts == 0 && preview.changes && preview.refused == {}
  {
    hide WithAction, CountAction;
    var preview := ImportPreview(s, envelope, false, 0);
    assert Copies(map[], e.record.id.value) == {};
    assert preview.records == [Plan(e, Add)];
    ActionsOfOne(e);
    assert (set ref | ref in envelope.refs && Disagrees(s.refs, envelope.refs, ref)) == {};
  }

  lemma {:induction false} AddsOne(notes: Notes, e: Entry)
    requires e.attachment !in notes && e.record.id.Some?
    ensures Imported(notes, [e]).Some?
  {
    AdoptingIsMerging([e]);
    assert Imported(map[], [e]).Some?;
    forall a | a in Attachments([e]) ensures CombinedAt(notes, [e], a).Some? {
      assert a == e.attachment;
      assert CombinedAt(map[], [e], a).Some?;
    }
  }
}
