/** The metadata of one clone, changed in place by imports and decisions. */
module Dispositions {
  import opened Git
  import opened NoteRecords
  import opened NotesProtocol
  import opened MetadataTransfer
  import opened Exchange

  class LocalMetadata {
    var notes: Option<Notes>
    var refs: map<RefName, Oid>
    var parked: map<Parking, Entry>
    var registry: seq<Disposition>

    function Now(): Repository
      reads this
    {
      Repository(notes, refs, parked, registry)
    }

    constructor ()
      ensures Now() == Repository(None, map[], map[], [])
    {
      notes, refs, parked, registry := None, map[], map[], [];
    }

    /** Rewrites the container that holds the record, and clears the dispute in
        the same transaction. */
    method ReplaceNoteRecord(attachment: Oid, id: RecordId, replacement: Record, disputed: Parking) returns (ok: bool)
      modifies `notes, `parked
      ensures var outcome := Apply(Replace(attachment, id, replacement), old(notes));
              ok == outcome.Left? &&
              notes == (if ok then outcome.notes else old(notes)) &&
              parked == (if ok then old(parked) - {disputed} else old(parked))
    {
      var before := OrEmpty(notes);
      var records := Rewrite(ContainerAt(before, attachment), Replace(attachment, id, replacement));
      if records.None? { return false; }
      notes := Some(before[attachment := Records(records.value)]);
      parked := parked - {disputed};
      return true;
    }

    /** One parked copy and one local copy: clear the dispute first, then file
        the decision. Anything else is refused and changes nothing. */
    method DisposeConflict(id: RecordId, replaceLocal: bool) returns (done: bool)
      modifies this
      ensures var next := Dispose(old(Now()), id, replaceLocal, true);
              done == next.Some? && Now() == if done then next.value else old(Now())
    {
      var matches := set p | p in parked && p.id == id;
      var local := Positions(OrEmpty(notes), id);
      if |matches| != 1 || |local| != 1 { return false; }
      assert matches == Parkings(Now(), id) && matches != {} && local != {};
      ghost var p0 :| p0 in Parkings(Now(), id);
      ghost var c0 :| c0 in Positions(OrEmpty(notes), id);
      OnlyMember(matches, p0);
      OnlyMember(local, c0);
      var p :| p in matches;
      var c :| c in local;
      var theirs, ours := parked[p], Entry(c.0, notes.value[c.0].records[c.1]);
      if replaceLocal && ours.attachment != theirs.attachment { return false; }
      var rejected := theirs;
      if replaceLocal {
        var ok := ReplaceNoteRecord(ours.attachment, id, theirs.record, p);
        if !ok { return false; }
        rejected := ours;
      } else {
        parked := parked - {p};
      }
      registry := registry + [Disposition(id, [rejected])];
      return true;
    }

    /** Adopts the notes commit of the envelope, or merges the applied records
        into the notes there are. */
    method MergeNotes(staged: Option<NotesCommit>, applied: seq<Entry>, ghost all: seq<Entry>, parks: bool) returns (ok: bool)
      modifies `notes
      ensures var outcome := Apply(NotesProtocol.Import(staged, applied, all, parks), old(notes));
              ok == outcome.Left? && notes == if ok then outcome.notes else old(notes)
    {
      hide Imported;
      if staged.None? { return true; }
      if notes.None? && !parks {
        notes := Some(staged.value.notes);
        return true;
      }
      var merged := MergeInto(OrEmpty(notes), applied);
      if merged.None? { return false; }
      notes := merged;
      return true;
    }

    /** The transaction that lands an import whole or not at all. */
    method ImportApplied(envelope: Envelope, preview: Preview, existed: set<Parking>) returns (ok: bool)
      requires PreviewOf(Now(), envelope, preview)
      requires AllIdentified(ParkedBy(preview))
      modifies this
      ensures var next := ApplyImport(old(Now()), envelope, preview, existed);
              ok == next.Some? && Now() == if ok then next.value else old(Now())
    {
      hide Apply, WithAction, ParkedOf, PreviewOf, AllIdentified;
      if preview.conflicts > 0 { return false; }
      if !preview.changes || (envelope.staged.None? && envelope.refs == map[]) { return true; }
      var incoming := EntriesOf(envelope);
      PlansAgree(Now(), envelope, preview);
      var applied, parkedNow := PartitionIncoming(incoming, preview);
      var parking := ParkedOf(envelope.lineage, parkedNow);
      if exists p <- parking.Keys :: p in parked && p !in existed { return false; }
      if exists ref <- envelope.refs.Keys :: Disagrees(refs, envelope.refs, ref) && ref !in preview.refused { return false; }
      var merged := MergeNotes(envelope.staged, applied, incoming, parkedNow != []);
      if !merged { return false; }
      refs := envelope.refs + refs;
      parked := parked + parking;
      return true;
    }
  }

  /** The containers of an import written over the notes there are. */
  function Written(notes: Notes, combined: map<Oid, seq<Record>>): Notes {
    map a | a in notes.Keys + combined.Keys ::
      if a in combined then Records(Sorted(combined[a])) else notes[a]
  }

  method MergeInto(before: Notes, applied: seq<Entry>) returns (merged: Option<Notes>)
    ensures merged == Imported(before, applied)
  {
    hide Imported, CombinedAt, Attachments, Sorted;
    var combined := CombineNoteEntries(before, applied);
    if combined.None? { return None; }
    WritesTheMerge(before, applied, combined.value);
    merged := Some(Written(before, combined.value));
  }

  lemma {:induction false} PlansAgree(s: Repository, envelope: Envelope, preview: Preview)
    requires PreviewOf(s, envelope, preview)
    ensures Consistent(preview.records) && Lists(preview.records, EntriesOf(envelope))
  {
    var plans, entries := preview.records, EntriesOf(envelope);
    forall i, j | 0 <= i < |plans| && 0 <= j < |plans| && plans[i].entry == plans[j].entry
      ensures plans[i].action == plans[j].action
    {
      assert entries[i] == entries[j];
    }
  }

  lemma {:induction false} WritesTheMerge(notes: Notes, entries: seq<Entry>, combined: map<Oid, seq<Record>>)
    requires Imported(notes, entries).Some? && combined.Keys == Attachments(entries)
    requires forall a <- combined :: Some(Sorted(combined[a])) == CombinedAt(notes, entries, a)
    ensures Imported(notes, entries).value == Written(notes, combined)
  {
    hide CombinedAt, Attachments, Sorted;
  }
}
