/** Parked records, decisions about them, and which records a reader may use. */
module Quarantine {
  import opened Git
  import opened NoteRecords
  import opened NotesProtocol
  import opened MetadataTransfer
  import opened Exchange

  /** Ids that appear more than once among some records. */
  method DuplicatedRecordIds(records: seq<Entry>) returns (ids: set<RecordId>)
    ensures forall id :: id in ids <==>
              exists k, l :: 0 <= k < l < |records| && records[k].record.id == Some(id) && records[l].record.id == Some(id)
  {
    var counts: map<RecordId, nat> := map[];
    for i := 0 to |records|
      invariant Counted(records[..i], counts)
    {
      assert records[..i + 1] == records[..i] + [records[i]];
      CountOneMore(records[..i], counts, records[i]);
      if records[i].record.id.Some? {
        var id := records[i].record.id.value;
        counts := counts[id := (if id in counts then counts[id] else 0) + 1];
      }
    }
    assert records[..|records|] == records;
    ids := set id | id in counts && counts[id] > 1;
  }

  predicate Once(records: seq<Entry>, id: RecordId) {
    exists k :: 0 <= k < |records| && records[k].record.id == Some(id)
  }

  predicate Twice(records: seq<Entry>, id: RecordId) {
    exists k, l :: 0 <= k < l < |records| && records[k].record.id == Some(id) && records[l].record.id == Some(id)
  }

  ghost predicate Counted(records: seq<Entry>, counts: map<RecordId, nat>) {
    forall id :: && (id in counts <==> Once(records, id))
                 && (id in counts ==> counts[id] >= 1)
                 && (id in counts && counts[id] > 1 <==> Twice(records, id))
  }

  lemma {:induction false} CountOneMore(records: seq<Entry>, counts: map<RecordId, nat>, e: Entry)
    requires Counted(records, counts)
    ensures e.record.id.None? ==> Counted(records + [e], counts)
    ensures e.record.id.Some? ==>
              var id := e.record.id.value;
              Counted(records + [e], counts[id := (if id in counts then counts[id] else 0) + 1])
  {
    var more := records + [e];
    forall id: RecordId ensures Once(more, id) <==> Once(records, id) || e.record.id == Some(id) {
      if k :| 0 <= k < |records| && records[k].record.id == Some(id) { assert more[k] == records[k]; }
      if e.record.id == Some(id) { assert more[|records|] == e; }
      if k :| 0 <= k < |more| && more[k].record.id == Some(id) {
        if k < |records| { assert records[k] == more[k]; }
      }
    }
    forall id: RecordId ensures Twice(more, id) <==> Twice(records, id) || (Once(records, id) && e.record.id == Some(id)) {
      if k, l :| 0 <= k < l < |records| && records[k].record.id == Some(id) && records[l].record.id == Some(id) {
        assert more[k] == records[k] && more[l] == records[l];
      }
      if Once(records, id) && e.record.id == Some(id) {
        var k :| 0 <= k < |records| && records[k].record.id == Some(id);
        assert more[k] == records[k] && more[|records|] == e;
      }
      if k, l :| 0 <= k < l < |more| && more[k].record.id == Some(id) && more[l].record.id == Some(id) {
        assert records[k] == more[k];
        if l < |records| { assert records[l] == more[l]; }
      }
    }
  }

  ghost predicate Contested(notes: Notes, id: RecordId) {
    exists a, i, b, j :: HasId(notes, a, i, id) && HasId(notes, b, j, id) && (a, i) != (b, j)
  }

  /** `at` says where each record of a catalog was read: once from every place. */
  ghost predicate ReadFrom(records: seq<Entry>, at: seq<(Oid, int)>, notes: Notes, done: set<Oid>) {
    && |records| == |at|
    && (forall k :: 0 <= k < |at| ==> ReadAt(notes, at[k], records[k]) && at[k].0 in done)
    && (forall k, l :: 0 <= k < l < |at| ==> at[k] != at[l])
    && (forall a, i :: a in done && ReadAt(notes, (a, i), Entry(a, ContainerRecord(notes, a, i))) ==> (a, i) in at)
  }

  ghost function ContainerRecord(notes: Notes, a: Oid, i: int): Record {
    if a in notes && notes[a].Records? && 0 <= i < |notes[a].records| then notes[a].records[i] else LegacyRecord(0)
  }

  ghost predicate ReadAt(notes: Notes, at: (Oid, int), e: Entry) {
    && at.0 in notes && notes[at.0].Records? && 0 <= at.1 < |notes[at.0].records|
    && e == Entry(at.0, notes[at.0].records[at.1])
  }

  /** Every record of the notes tree, read once, and the ids in conflict: used
      twice in the tree, or disputed by a parked copy. */
  method ReadCausalRecordCatalog(notes: Notes, parked: set<Parking>) returns (records: seq<Entry>, conflicting: set<RecordId>)
    ensures forall e :: e in records <==> Holds(notes, e)
    ensures forall id :: id in conflicting <==> Contested(notes, id) || exists p :: p in parked && p.id == id
  {
    records := [];
    ghost var at: seq<(Oid, int)> := [];
    var rest := notes.Keys;
    ghost var done: set<Oid> := {};
    while rest != {}
      invariant rest + done == notes.Keys && rest !! done
      invariant ReadFrom(records, at, notes, done)
      decreases |rest|
    {
      var a :| a in rest;
      var container := if notes[a].Records? then notes[a].records else [];
      ghost var more := seq(|container|, (i: int) => (a, i));
      ReadContainerOnce(records, at, notes, done, a, container);
      records := records + Attach(a, container);
      at := at + more;
      rest, done := rest - {a}, done + {a};
    }
    assert done == notes.Keys;
    CatalogHolds(records, at, notes);
    var duplicated := DuplicatedRecordIds(records);
    conflicting := duplicated + set p | p in parked :: p.id;
  }

  function Attach(a: Oid, records: seq<Record>): seq<Entry> {
    seq(|records|, i requires 0 <= i < |records| => Entry(a, records[i]))
  }

  lemma {:induction false} ReadContainerOnce(records: seq<Entry>, at: seq<(Oid, int)>, notes: Notes, done: set<Oid>, a: Oid,
    container: seq<Record>)
    requires ReadFrom(records, at, notes, done) && a in notes && a !in done
    requires container == if notes[a].Records? then notes[a].records else []
    ensures ReadFrom(records + Attach(a, container), at + seq(|container|, (i: int) => (a, i)), notes, done + {a})
  {
    var all, where := records + Attach(a, container), at + seq(|container|, (i: int) => (a, i));
    forall b, i | b in done + {a} && ReadAt(notes, (b, i), Entry(b, ContainerRecord(notes, b, i))) ensures (b, i) in where {
      if b == a {
        assert where[|at| + i] == (b, i);
      } else {
        assert (b, i) in at;
      }
    }
  }

  lemma {:induction false} CatalogHolds(records: seq<Entry>, at: seq<(Oid, int)>, notes: Notes)
    requires ReadFrom(records, at, notes, notes.Keys)
    ensures forall e :: e in records <==> Holds(notes, e)
    ensures forall id :: Twice(records, id) <==> Contested(notes, id)
  {
    forall e ensures e in records <==> Holds(notes, e) {
      if e in records {
        var k :| 0 <= k < |records| && records[k] == e;
        assert ReadAt(notes, at[k], e);
      }
      if Holds(notes, e) {
        var i :| 0 <= i < |notes[e.attachment].records| && notes[e.attachment].records[i] == e.record;
        var k := WhereRead(records, at, notes, e.attachment, i);
      }
    }
    forall id: RecordId ensures Twice(records, id) <==> Contested(notes, id) {
      if k, l :| 0 <= k < l < |records| && records[k].record.id == Some(id) && records[l].record.id == Some(id) {
        assert ReadAt(notes, at[k], records[k]) && ReadAt(notes, at[l], records[l]);
        assert HasId(notes, at[k].0, at[k].1, id) && HasId(notes, at[l].0, at[l].1, id) && at[k] != at[l];
      }
      if a, i, b, j :| HasId(notes, a, i, id) && HasId(notes, b, j, id) && (a, i) != (b, j) {
        var k := WhereRead(records, at, notes, a, i);
        var l := WhereRead(records, at, notes, b, j);
        assert k != l;
        assert records[k].record.id == Some(id) && records[l].record.id == Some(id);
      }
    }
  }

  lemma {:induction false} WhereRead(records: seq<Entry>, at: seq<(Oid, int)>, notes: Notes, a: Oid, i: int) returns (k: nat)
    requires ReadFrom(records, at, notes, notes.Keys)
    requires a in notes && notes[a].Records? && 0 <= i < |notes[a].records|
    ensures k < |records| && at[k] == (a, i) && records[k] == Entry(a, notes[a].records[i])
  {
    assert ReadAt(notes, (a, i), Entry(a, ContainerRecord(notes, a, i)));
    k :| 0 <= k < |at| && at[k] == (a, i);
    assert ReadAt(notes, at[k], records[k]);
  }

  /** The records a reader may rely on: `usable` stands for being well formed
      with every referenced object present. */
  method AcceptedCausalRecords(records: seq<Entry>, conflicting: set<RecordId>, usable: Entry -> bool) returns (accepted: seq<Entry>)
    ensures forall e :: e in accepted <==>
              e in records && usable(e) && (e.record.id.Some? ==> e.record.id.value !in conflicting)
  {
    accepted := [];
    for i := 0 to |records|
      invariant forall e :: e in accepted <==>
                  e in records[..i] && usable(e) && (e.record.id.Some? ==> e.record.id.value !in conflicting)
    {
      var e := records[i];
      if (e.record.id.None? || e.record.id.value !in conflicting) && usable(e) {
        accepted := accepted + [e];
      }
    }
  }

  /** An identified record in service: nothing in the tree or in quarantine
      contests its id. */
  ghost predicate Accepted(s: Repository, e: Entry) {
    && e.record.id.Some? && Holds(OrEmpty(s.notes), e)
    && !Contested(OrEmpty(s.notes), e.record.id.value)
    && Parkings(s, e.record.id.value) == {}
  }

  /** Whatever happened to the tree, no two accepted records share an id, and a
      parked id is in no accepted set. */
  lemma {:induction false} AcceptedIdsAreUncontested(s: Repository, d: Entry, e: Entry)
    requires Accepted(s, d) && Accepted(s, e) && d.record.id == e.record.id
    ensures d == e
    ensures forall p <- s.parked :: Some(p.id) != d.record.id
  {
    var id := d.record.id.value;
    HeldAt(OrEmpty(s.notes), d, id);
    HeldAt(OrEmpty(s.notes), e, id);
    forall p | p in s.parked ensures Some(p.id) != d.record.id {
      assert p in Parkings(s, p.id);
    }
  }

  lemma {:induction false} ParkedOfHolds(lineage: Lineage, entries: seq<Entry>, e: Entry)
    requires AllIdentified(entries) && DistinctIds(entries) && e in entries
    ensures var p := Parking(lineage, e.record.id.value);
            p in ParkedOf(lineage, entries) && ParkedOf(lineage, entries)[p] == e
  {
    var rest, last := entries[..|entries| - 1], entries[|entries| - 1];
    assert entries == rest + [last];
    if e != last {
      ParkedOfHolds(lineage, rest, e);
      var i :| 0 <= i < |rest| && rest[i] == e;
      assert entries[i].record.id != entries[|rest|].record.id;
    }
  }

  /** An import that goes through parks exactly what its preview says, and takes
      every parked id out of service. */
  lemma {:induction false} ParkingTakesOutOfService(s: Repository, envelope: Envelope, preview: Preview, existed: set<Parking>, e: Entry)
    requires PreviewOf(s, envelope, preview) && preview.changes && envelope.staged.Some?
    requires e in ParkedBy(preview) && AllIdentified(ParkedBy(preview))
    requires ApplyImport(s, envelope, preview, existed).Some?
    ensures var t := ApplyImport(s, envelope, preview, existed).value;
            && t.parked.Keys == s.parked.Keys + ParkedOf(envelope.lineage, ParkedBy(preview)).Keys
            && Parking(envelope.lineage, e.record.id.value) in t.parked
            && t.parked[Parking(envelope.lineage, e.record.id.value)] == e
            && forall d: Entry :: d.record.id == e.record.id ==> !Accepted(t, d)
  {
    hide Imported, Exported, UniqueIds, Holds, Contested, WithAction;
    var t := ApplyImport(s, envelope, preview, existed).value;
    assert Lists(preview.records, EntriesOf(envelope));
    WithActionDistinct(preview.records, EntriesOf(envelope), Parks);
    ParkedOfHolds(envelope.lineage, ParkedBy(preview), e);
    var i :| 0 <= i < |ParkedBy(preview)| && ParkedBy(preview)[i] == e;
    var p := Parking(envelope.lineage, e.record.id.value);
    forall d: Entry | d.record.id == e.record.id ensures !Accepted(t, d) {
      assert p in Parkings(t, e.record.id.value);
    }
  }

  /** A decision returns one copy to service: the local one, or the parked one
      in its place. */
  lemma {:induction false} DecisionReturnsToService(s: Repository, id: RecordId, replaceLocal: bool, filed: bool)
    requires UniqueIds(OrEmpty(s.notes)) && Dispose(s, id, replaceLocal, filed).Some?
    requires forall p <- s.parked :: s.parked[p].record.id == Some(p.id)
    ensures var t := Dispose(s, id, replaceLocal, filed).value;
            exists e: Entry :: && e.record.id == Some(id) && Accepted(t, e)
                        && if replaceLocal then exists p :: p in s.parked && s.parked[p] == e else Holds(OrEmpty(s.notes), e)
  {
    hide UniqueIds, IndexOf, KeyOf;
    DisposeKeeps(s, id, replaceLocal, filed);
    var t := Dispose(s, id, replaceLocal, filed).value;
    var p :| p in Parkings(s, id);
    var c :| c in Positions(OrEmpty(s.notes), id);
    OnlyMember(Parkings(s, id), p);
    OnlyMember(Positions(OrEmpty(s.notes), id), c);
    var notes := s.notes.value;
    assert HasId(notes, c.0, c.1, id);
    NotContested(t.notes.value, id);
    assert Parkings(t, id) == {};
    if replaceLocal {
      ReplaceKeeps(notes, c.0, id, s.parked[p].record, t.notes.value);
      assert s.parked[p] == Entry(c.0, s.parked[p].record);
      assert Accepted(t, s.parked[p]);
    } else {
      assert Holds(notes, Entry(c.0, notes[c.0].records[c.1]));
      assert Accepted(t, Entry(c.0, notes[c.0].records[c.1]));
    }
  }

  /** What a decision does, field by field. It needs one parked copy and one local
      one, on one commit if the parked copy is to take its place; then only the
      dispute is gone, only that record changed, and the other copy is the one that
      was rejected. */
  lemma {:induction false} DecisionMeans(s: Repository, id: RecordId, replaceLocal: bool, filed: bool, p: Parking, a: Oid, i: nat)
    requires Parkings(s, id) == {p} && s.notes.Some? && Positions(s.notes.value, id) == {(a, i)}
    ensures a in s.notes.value && s.notes.value[a].Records? && i < |s.notes.value[a].records| && p in s.parked
    ensures var decided, theirs, ours := Dispose(s, id, replaceLocal, filed), s.parked[p], s.notes.value[a].records[i];
            && (decided.Some? <==> !replaceLocal || theirs.attachment == a)
            && (decided.Some? ==>
                  var t := decided.value;
                  && t.refs == s.refs && t.parked == s.parked - {p} && t.notes.Some?
                  && (replaceLocal ==>
                        && t.notes.value.Keys == s.notes.value.Keys
                        && t.notes.value[a] == Records(s.notes.value[a].records[i := theirs.record])
                        && forall b <- t.notes.value :: b != a ==> t.notes.value[b] == s.notes.value[b])
                  && (!replaceLocal ==> t.notes == s.notes)
                  && t.registry == s.registry + (if filed then [Disposition(id, [if replaceLocal then Entry(a, ours) else theirs])] else []))
  {
    hide IndexOf, KeyOf;
    assert p in Parkings(s, id) && (a, i) in Positions(s.notes.value, id);
    assert |Parkings(s, id)| == 1 && |Positions(s.notes.value, id)| == 1;
    assert s.registry + [] == s.registry;
    FirstWithId(s.notes.value, a, i, id);
  }

  lemma {:induction false} FirstWithId(notes: Notes, a: Oid, i: nat, id: RecordId)
    requires Positions(notes, id) == {(a, i)}
    ensures a in notes && notes[a].Records? && i < |notes[a].records| && IndexOf(notes[a].records, Named(id)) == Some(i)
  {
    assert (a, i) in Positions(notes, id) && HasId(notes, a, i, id);
    var k := IndexOf(notes[a].records, Named(id));
    assert KeyOf(notes[a].records[i]) == Named(id);
    assert k.Some? && HasId(notes, a, k.value, id);
    assert (a, k.value as int) in Positions(notes, id);
  }

  lemma {:induction false} NotContested(notes: Notes, id: RecordId)
    requires UniqueIds(notes)
    ensures !Contested(notes, id)
  {}

  // Rejections.

  /** The digests a person has rejected, by record id. */
  method RejectedDigests(registry: seq<Disposition>) returns (byRecord: map<RecordId, set<Digest>>)
    ensures forall id :: RejectedFor(registry, id) == if id in byRecord then byRecord[id] else {}
  {
    byRecord := map[];
    for i := 0 to |registry|
      invariant forall id :: RejectedFor(registry[..i], id) == if id in byRecord then byRecord[id] else {}
    {
      var entry := registry[i];
      assert registry[..i + 1] == registry[..i] + [entry];
      RejectedMore(registry[..i], entry);
      var digests := if entry.id in byRecord then byRecord[entry.id] else {};
      byRecord := byRecord[entry.id := digests + set j | 0 <= j < |entry.rejected| :: entry.rejected[j]];
    }
    assert registry[..|registry|] == registry;
  }

  lemma {:induction false} RejectedMore(registry: seq<Disposition>, d: Disposition)
    ensures forall id :: RejectedFor(registry + [d], id) ==
              RejectedFor(registry, id) + if d.id == id then set j | 0 <= j < |d.rejected| :: d.rejected[j] else {}
  {
    var more := registry + [d];
    forall id ensures RejectedFor(more, id) ==
                RejectedFor(registry, id) + if d.id == id then set j | 0 <= j < |d.rejected| :: d.rejected[j] else {} {
      forall x | x in RejectedFor(registry, id) ensures x in RejectedFor(more, id) {
        var i, j :| 0 <= i < |registry| && registry[i].id == id && 0 <= j < |registry[i].rejected| && registry[i].rejected[j] == x;
        assert more[i] == registry[i];
      }
      if d.id == id {
        forall j | 0 <= j < |d.rejected| ensures d.rejected[j] in RejectedFor(more, id) {
          assert more[|registry|] == d;
        }
      }
      forall x | x in RejectedFor(more, id) && x !in RejectedFor(registry, id)
        ensures d.id == id && x in set j | 0 <= j < |d.rejected| :: d.rejected[j]
      {
        var i, j :| 0 <= i < |more| && more[i].id == id && 0 <= j < |more[i].rejected| && more[i].rejected[j] == x;
      }
    }
  }

  lemma {:induction false} RejectionsStay(s: Site, steps: seq<Exchange.Step>, id: RecordId)
    ensures RejectedFor(s.repo.registry, id) <= RejectedFor(Exchange.Exec(s, steps).repo.registry, id)
  {
    hide RejectedFor, ImportPreview, Apply, WellFormed, AllIdentified;
    if steps != [] {
      var before, last := Exchange.Exec(s, steps[..|steps| - 1]), steps[|steps| - 1];
      RejectionsStay(s, steps[..|steps| - 1], id);
      var after := Exchange.Next(before, last);
      if after.repo.registry != before.repo.registry {
        RejectedMore(before.repo.registry, after.repo.registry[|before.repo.registry|]);
      }
    }
  }

  /** A digest a person rejected is, after any run, never planned to be parked
      again, unless the resolution ref it names is refused. */
  lemma {:induction false} RejectedIsNotParkedAgain(s: Site, steps: seq<Exchange.Step>, envelope: Envelope, parkConflicts: bool,
    problems: nat, k: nat)
    requires Identified(envelope) && k < |envelope.records|
    requires var e := envelope.records[k].entry; e in RejectedFor(s.repo.registry, e.record.id.value)
    ensures var repo := Exchange.Exec(s, steps).repo;
            ImportPreview(repo, envelope, parkConflicts, problems).records[k].action == Park ==>
              envelope.records[k].ref.Some? && Disagrees(repo.refs, envelope.refs, envelope.records[k].ref.value)
  {
    var e := envelope.records[k].entry;
    hide RejectedFor, Exchange.Exec;
    RejectionsStay(s, steps, e.record.id.value);
  }

  /** A preview stays as it was taken until it is applied. */
  lemma {:induction false} PreviewStays(s: Site, steps: seq<Exchange.Step>, j: nat, n: nat)
    requires j < n <= |steps| && steps[j].Inspected? && WellFormed(steps[j].envelope)
    ensures Identified(steps[j].envelope)
    ensures var k := |Exchange.Exec(s, steps[..j]).previews|;
            && k < |Exchange.Exec(s, steps[..n]).previews|
            && Exchange.Exec(s, steps[..n]).previews[k] ==
               (steps[j].envelope,
                ImportPreview(Exchange.Exec(s, steps[..j]).repo, steps[j].envelope, steps[j].parkConflicts, steps[j].objectProblems))
  {
    hide ImportPreview, ApplyImport, Apply, Exchange.Dispose, WellFormed, AllIdentified, Identified;
    IdentifiedEntries(steps[j].envelope);
    assert steps[..n][..n - 1] == steps[..n - 1] && steps[..n][n - 1] == steps[n - 1];
    if n > j + 1 {
      PreviewStays(s, steps, j, n - 1);
      PreviewsGrow(Exchange.Exec(s, steps[..n - 1]), steps[n - 1]);
    }
  }

  lemma {:induction false} PreviewsGrow(s: Site, step: Exchange.Step)
    ensures s.previews <= Exchange.Next(s, step).previews
  {
    hide ImportPreview, ApplyImport, Apply, Exchange.Dispose, WellFormed, AllIdentified;
  }

  /** Other content holds the id, and this is not among it. */
  predicate HeldOtherwise(s: Repository, e: Entry)
    requires e.record.id.Some?
  {
    Copies(OrEmpty(s.notes), e.record.id.value) != {} && e !in Copies(OrEmpty(s.notes), e.record.id.value)
  }

  /** Which records a preview parks, by what was there when it was taken. */
  lemma {:induction false} PreviewParksIff(s: Repository, envelope: Envelope, parkConflicts: bool, problems: nat, i: nat)
    requires WellFormed(envelope) && i < |envelope.records|
    ensures Identified(envelope)
    ensures var preview := ImportPreview(s, envelope, parkConflicts, problems);
            var r := envelope.records[i];
            && AllIdentified(ParkedBy(preview)) && DistinctIds(ParkedBy(preview))
            && (forall e :: e in ParkedBy(preview) ==> e in EntriesOf(envelope))
            && (r.entry in ParkedBy(preview) <==>
                  parkConflicts &&
                  ((r.ref.Some? && Disagrees(s.refs, envelope.refs, r.ref.value)) ||
                   (HeldOtherwise(s, r.entry) && r.entry !in RejectedFor(s.registry, r.entry.record.id.value))))
  {
    hide Copies, RejectedFor;
    PreviewIsListed(s, envelope, parkConflicts, problems);
    var preview, entries := ImportPreview(s, envelope, parkConflicts, problems), EntriesOf(envelope);
    WithActionDistinct(preview.records, entries, Parks);
    WithActionFacts(preview.records, Parks);
    var e := envelope.records[i].entry;
    assert preview.records[i] == PlanFor(s, envelope, parkConflicts, envelope.records[i]);
    forall k | 0 <= k < |preview.records| && preview.records[k].entry == e ensures k == i {
      assert entries[k] == e && entries[i] == e;
    }
  }

  /** In a run, an import parks a digest that a person has rejected by then in
      exactly two cases: the resolution ref it names was refused, or its preview
      was taken before the rejection, while other content held the id. */
  lemma {:induction false} RejectedIsParkedIff(s: Site, steps: seq<Exchange.Step>, j: nat, n: nat, i: nat)
    requires j < n < |steps| && steps[j].Inspected? && WellFormed(steps[j].envelope) && Identified(steps[j].envelope)
    requires i < |steps[j].envelope.records|
    requires steps[n].Applied? && steps[n].k == |Exchange.Exec(s, steps[..j]).previews|
    requires var e := steps[j].envelope.records[i].entry; e in RejectedFor(Exchange.Exec(s, steps[..n]).repo.registry, e.record.id.value)
    requires steps[j].envelope.staged.Some? || steps[j].envelope.refs != map[]
    ensures var taken, before, after := Exchange.Exec(s, steps[..j]).repo, Exchange.Exec(s, steps[..n]).repo, Exchange.Exec(s, steps[..n + 1]).repo;
            var envelope, r := steps[j].envelope, steps[j].envelope.records[i];
            var preview := ImportPreview(taken, envelope, steps[j].parkConflicts, steps[j].objectProblems);
            && AllIdentified(ParkedBy(preview))
            && (ApplyImport(before, envelope, preview, steps[n].existed).None? ==> after == before)
            && (ApplyImport(before, envelope, preview, steps[n].existed).Some? ==>
                  var parked := ParkedOf(envelope.lineage, ParkedBy(preview));
                  && after.parked == before.parked + parked
                  && (Parking(envelope.lineage, r.entry.record.id.value) in parked <==>
                        steps[j].parkConflicts &&
                        ((r.ref.Some? && Disagrees(taken.refs, envelope.refs, r.ref.value)) ||
                         (HeldOtherwise(taken, r.entry) && r.entry !in RejectedFor(taken.registry, r.entry.record.id.value))))
                  && (Parking(envelope.lineage, r.entry.record.id.value) in parked ==>
                        parked[Parking(envelope.lineage, r.entry.record.id.value)] == r.entry))
  {
    hide Exchange.Exec, ImportPreview, Apply, WellFormed, RejectedFor, HeldOtherwise, Disagrees, WithAction, DistinctIds, AllIdentified;
    PreviewStays(s, steps, j, n);
    var taken, before := Exchange.Exec(s, steps[..j]).repo, Exchange.Exec(s, steps[..n]);
    var envelope, r := steps[j].envelope, steps[j].envelope.records[i];
    var preview := ImportPreview(taken, envelope, steps[j].parkConflicts, steps[j].objectProblems);
    PreviewParksIff(taken, envelope, steps[j].parkConflicts, steps[j].objectProblems, i);
    ParkedExactly(envelope, ParkedBy(preview), i);
    OneMoreStep(s, steps, n);
    assert Exchange.Next(before, steps[n]).repo ==
      match ApplyImport(before.repo, envelope, preview, steps[n].existed) case None => before.repo case Some(repo) => repo;
    NothingToPark(taken, envelope, steps[j].parkConflicts, steps[j].objectProblems);
  }

  lemma {:induction false} OneMoreStep(s: Site, steps: seq<Exchange.Step>, n: nat)
    requires n < |steps|
    ensures Exchange.Exec(s, steps[..n + 1]) == Exchange.Next(Exchange.Exec(s, steps[..n]), steps[n])
  {
    hide Exchange.Next;
    assert steps[..n + 1][..n] == steps[..n];
  }

  lemma {:induction false} ParkedExactly(envelope: Envelope, parked: seq<Entry>, i: nat)
    requires WellFormed(envelope) && i < |envelope.records| && AllIdentified(parked) && DistinctIds(parked)
    requires forall e :: e in parked ==> e in EntriesOf(envelope)
    ensures var e := envelope.records[i].entry;
            && e.record.id.Some?
            && (Parking(envelope.lineage, e.record.id.value) in ParkedOf(envelope.lineage, parked) <==> e in parked)
            && (e in parked ==> ParkedOf(envelope.lineage, parked)[Parking(envelope.lineage, e.record.id.value)] == e)
  {
    var e, entries := envelope.records[i].entry, EntriesOf(envelope);
    assert entries[i] == e;
    var p := Parking(envelope.lineage, e.record.id.value);
    if e in parked { ParkedOfHolds(envelope.lineage, parked, e); }
    ParkedIds(envelope.lineage, parked);
    if p in ParkedOf(envelope.lineage, parked) {
      var there := ParkedOf(envelope.lineage, parked)[p];
      var k :| 0 <= k < |entries| && entries[k] == there;
      assert entries[k].record.id == entries[i].record.id;
    }
  }

  lemma {:induction false} NothingToPark(s: Repository, envelope: Envelope, parkConflicts: bool, problems: nat)
    requires Identified(envelope)
    ensures var preview := ImportPreview(s, envelope, parkConflicts, problems); !preview.changes ==> ParkedBy(preview) == []
  {
    var preview := ImportPreview(s, envelope, parkConflicts, problems);
    CountNone(preview.records, Park);
    WithActionFacts(preview.records, Parks);
    if ParkedBy(preview) != [] { assert ParkedBy(preview)[0] in ParkedBy(preview); }
  }

  // Two imports of one envelope, and a decision between them.

  const OURS := Record(Some(1), 0, 0, [])
  const THEIRS := Entry(5, Record(Some(1), 0, 1, []))
  const DISPUTED: Notes := map[5 := Records([OURS])]
  const OFFER := Envelope(9, [Incoming(THEIRS, None)], map[], Some(NotesCommit([], Exported([THEIRS]))))
  const BEFORE_OFFER := Repository(Some(DISPUTED), map[], map[], [])
  const OFFER_PARKED := Repository(Some(DISPUTED), map[], map[Parking(9, 1) := THEIRS], [])
  const OFFER_REJECTED := Repository(Some(DISPUTED), map[], map[], [Disposition(1, [THEIRS])])

  /** Both imports inspect the envelope, the first parks its record, a person
      rejects it, and the second import parks it again. */
  const TWO_IMPORTS: seq<Exchange.Step> := [Inspected(OFFER, true, 0), Inspected(OFFER, true, 0),
    Applied(0, {}), Decided(1, false, true), Applied(1, {})]

  lemma {:induction false} OfferIsWellFormed()
    ensures WellFormed(OFFER) && Identified(OFFER)
  {
    assert EntriesOf(OFFER) == [THEIRS];
  }

  /** The preview parks the one record of the envelope. */
  lemma {:induction false} OfferIsParked()
    ensures Identified(OFFER)
    ensures var preview := ImportPreview(BEFORE_OFFER, OFFER, true, 0);
            preview.records == [Plan(THEIRS, Park)] && preview.conflicts == 0 && preview.changes
            && ParkedBy(preview) == [THEIRS] && AppliedBy(preview) == [] && AllIdentified(ParkedBy(preview))
  {
    OfferIsWellFormed();
    ParkingNeverRefuses(BEFORE_OFFER, OFFER, 0);
    var preview := ImportPreview(BEFORE_OFFER, OFFER, true, 0);
    assert Entry(5, DISPUTED[5].records[0]) in Copies(DISPUTED, 1);
    CopiesAreHeld(DISPUTED, 1);
    assert preview.records == [Plan(THEIRS, Park)];
    CountNone(preview.records, Park);
    assert preview.records[0].action == Park;
    OneParked(THEIRS);
  }

  lemma {:induction false} OneParked(e: Entry)
    ensures WithAction([Plan(e, Park)], Parks) == [e] && WithAction([Plan(e, Park)], Applies) == []
  {
    assert [Plan(e, Park)][..0] == [];
  }

  lemma {:induction false} OfferIsApplied(s: Repository)
    requires s.notes == Some(DISPUTED) && s.refs == map[] && s.parked == map[]
    ensures Identified(OFFER)
    ensures var preview := ImportPreview(BEFORE_OFFER, OFFER, true, 0);
            AllIdentified(ParkedBy(preview)) &&
            ApplyImport(s, OFFER, preview, {}) == Some(s.(parked := map[Parking(9, 1) := THEIRS]))
  {
    OfferIsParked();
    var preview := ImportPreview(BEFORE_OFFER, OFFER, true, 0);
    hide ImportPreview, WithAction;
    NothingImported(DISPUTED);
    assert [THEIRS][..0] == [];
    assert ParkedOf(9, [THEIRS]) == map[Parking(9, 1) := THEIRS];
    assert map[] + map[Parking(9, 1) := THEIRS] == map[Parking(9, 1) := THEIRS];
    assert s.refs + map[] == s.refs;
  }

  lemma {:induction false} NothingImported(notes: Notes)
    ensures Imported(notes, []) == Some(notes)
  {
    assert Attachments([]) == {};
    assert Imported(notes, []).Some? && Imported(notes, []).value.Keys == notes.Keys;
    assert Imported(notes, []).value == notes;
  }

  lemma {:induction false} OfferIsRejected()
    ensures Dispose(OFFER_PARKED, 1, false, true) == Some(OFFER_REJECTED)
  {
    var p := Parking(9, 1);
    var parkings, positions := Parkings(OFFER_PARKED, 1), Positions(DISPUTED, 1);
    assert parkings == {p} && |parkings| == 1;
    assert HasId(DISPUTED, 5, 0, 1);
    assert positions == {(5, 0)} && |positions| == 1;
    assert OFFER_PARKED.parked - {p} == map[];
    assert [] + [Disposition(1, [THEIRS])] == [Disposition(1, [THEIRS])];
    OnlyMember(parkings, p);
    OnlyMember(positions, (5, 0));
  }

  lemma {:induction false} InspectsOffer(s: Site)
    requires s.repo == BEFORE_OFFER
    ensures Identified(OFFER)
    ensures Exchange.Next(s, Inspected(OFFER, true, 0)) == s.(previews := s.previews + [(OFFER, ImportPreview(BEFORE_OFFER, OFFER, true, 0))])
  {
    hide ImportPreview, WellFormed;
    OfferIsWellFormed();
  }

  lemma {:induction false} AppliesOffer(s: Site, k: nat)
    requires Identified(OFFER) && k < |s.previews| && s.previews[k] == (OFFER, ImportPreview(BEFORE_OFFER, OFFER, true, 0))
    requires s.repo.notes == Some(DISPUTED) && s.repo.refs == map[] && s.repo.parked == map[]
    ensures Exchange.Next(s, Applied(k, {})) == s.(repo := s.repo.(parked := map[Parking(9, 1) := THEIRS]))
  {
    hide ImportPreview, ApplyImport, AllIdentified, ParkedBy;
    OfferIsApplied(s.repo);
  }

  lemma {:induction false} DecidesOffer(s: Site)
    requires s.repo == OFFER_PARKED
    ensures Exchange.Next(s, Decided(1, false, true)) == s.(repo := OFFER_REJECTED)
  {
    hide Exchange.Dispose;
    OfferIsRejected();
  }

  /** The rejected digest is parked again. */
  lemma {:induction false} StalePreviewParksAgain()
    ensures var before := Exchange.Exec(Site(BEFORE_OFFER, []), TWO_IMPORTS[..4]).repo;
            before == OFFER_REJECTED && THEIRS in RejectedFor(before.registry, 1)
    ensures Exchange.Exec(Site(BEFORE_OFFER, []), TWO_IMPORTS).repo == OFFER_REJECTED.(parked := map[Parking(9, 1) := THEIRS])
  {
    hide ImportPreview, Exchange.Next, Exchange.Exec, Identified, RejectedFor;
    OfferIsWellFormed();
    var s, preview := Site(BEFORE_OFFER, []), ImportPreview(BEFORE_OFFER, OFFER, true, 0);
    NothingRun(s, TWO_IMPORTS);
    OneMoreStep(s, TWO_IMPORTS, 0);
    InspectsOffer(s);
    var once := Site(BEFORE_OFFER, [(OFFER, preview)]);
    assert s.previews + [(OFFER, preview)] == once.previews;
    OneMoreStep(s, TWO_IMPORTS, 1);
    InspectsOffer(once);
    assert once.previews + [(OFFER, preview)] == [(OFFER, preview), (OFFER, preview)];
    var inspected := Site(BEFORE_OFFER, [(OFFER, preview), (OFFER, preview)]);
    assert Exchange.Exec(s, TWO_IMPORTS[..2]) == inspected;
    OneMoreStep(s, TWO_IMPORTS, 2);
    AppliesOffer(inspected, 0);
    OneMoreStep(s, TWO_IMPORTS, 3);
    DecidesOffer(inspected.(repo := OFFER_PARKED));
    OneMoreStep(s, TWO_IMPORTS, 4);
    AppliesOffer(inspected.(repo := OFFER_REJECTED), 1);
    assert TWO_IMPORTS[..5] == TWO_IMPORTS;
    TheirsIsRejected();
  }

  lemma {:induction false} NothingRun(s: Site, steps: seq<Exchange.Step>)
    ensures Exchange.Exec(s, steps[..0]) == s
  {}

  lemma {:induction false} TheirsIsRejected()
    ensures THEIRS in RejectedFor(OFFER_REJECTED.registry, 1)
  {
    var registry := OFFER_REJECTED.registry;
    assert registry[0].id == 1 && registry[0].rejected[0] == THEIRS;
  }
}
