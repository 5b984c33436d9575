/** What the operations on a notes ref do to the containers themselves, and what
    whole runs of them leave of notes that Causet did not write. */
module NotesMeaning {
  import opened Git
  import opened NoteRecords
  import opened NotesProtocol

  /** The records a container is rewritten from: those it holds, the text of a
      plain note as one record without an id, or none. */
  ghost predicate StartsFrom(notes: Option<Notes>, a: Oid, records: seq<Record>) {
    if notes.None? || a !in notes.value then records == []
    else
      match notes.value[a]
      case Records(held) => records == held
      case Legacy(text) => |records| == 1 && records[0].id.None? && records[0].content == text && records[0].references == []
      case Foreign => false
  }

  /** Only the container at `a` changed. */
  ghost predicate OnlyAt(before: Option<Notes>, after: Notes, a: Oid) {
    && after.Keys == (if before.Some? then before.value.Keys else {}) + {a}
    && forall b <- after :: b != a ==> before.Some? && b in before.value && after[b] == before.value[b]
  }

  /** An append puts its record after what the container starts from, and is
      refused exactly by a container this build does not read. */
  lemma {:induction false} AppendMeans(notes: Option<Notes>, a: Oid, r: Record)
    ensures var after := Apply(Append(a, r), notes);
            && (after.Refused? <==> notes.Some? && a in notes.value && notes.value[a].Foreign?)
            && (after.Left? ==>
                  && after.notes.Some? && OnlyAt(notes, after.notes.value, a)
                  && after.notes.value[a].Records?
                  && var records := after.notes.value[a].records;
                     && records != [] && records[|records| - 1] == r && StartsFrom(notes, a, records[..|records| - 1]))
  {
    var after := Apply(Append(a, r), notes);
    if after.Left? {
      var records := after.notes.value[a].records;
      assert records[..|records| - 1] + [r] == records;
    }
  }

  /** A replacement changes the first record with its id, in place, and is refused
      exactly when there is none. */
  lemma {:induction false} ReplaceMeans(notes: Option<Notes>, a: Oid, id: RecordId, r: Record)
    ensures var after := Apply(Replace(a, id, r), notes);
            && (after.Left? <==> notes.Some? && a in notes.value && notes.value[a].Records? &&
                                 exists i :: 0 <= i < |notes.value[a].records| && notes.value[a].records[i].id == Some(id))
            && (after.Left? ==>
                  && after.notes.Some? && OnlyAt(notes, after.notes.value, a)
                  && var before := notes.value[a].records;
                     exists i :: 0 <= i < |before| && before[i].id == Some(id) && after.notes.value[a] == Records(before[i := r]) &&
                                 forall j :: 0 <= j < i ==> before[j].id != Some(id))
  {
    var container := ContainerAt(OrEmpty(notes), a);
    if container.Records? {
      NamedIsId(container.records, id);
      if IndexOf(container.records, Named(id)).Some? {
        var i := IndexOf(container.records, Named(id)).value;
        assert container.records[i].id == Some(id);
      }
    }
  }

  lemma {:induction false} NamedIsId(records: seq<Record>, id: RecordId)
    ensures forall i :: 0 <= i < |records| ==> (KeyOf(records[i]) == Named(id) <==> records[i].id == Some(id))
  {}

  /** A text that was there is there: alone as it was, or as a record without an id. */
  ghost predicate HoldsText(notes: Option<Notes>, a: Oid, text: nat) {
    && notes.Some? && a in notes.value
    && match notes.value[a]
       case Legacy(t) => t == text
       case Records(records) => exists i :: 0 <= i < |records| && records[i].id.None? && records[i].content == text
       case Foreign => false
  }

  /** The record a text was kept as, which nothing else can claim. */
  ghost predicate KeepsText(notes: Option<Notes>, a: Oid, text: nat) {
    notes.Some? && a in notes.value && (notes.value[a] == Legacy(text) || InService(notes, a, LegacyRecord(text)))
  }

  lemma {:induction false} KeptIsHeld(notes: Option<Notes>, a: Oid, text: nat)
    requires KeepsText(notes, a, text)
    ensures HoldsText(notes, a, text)
  {
    if notes.value[a].Records? {
      var records := notes.value[a].records;
      var i :| 0 <= i < |records| && records[i] == LegacyRecord(text);
    }
  }

  lemma {:induction false} ApplyKeepsText(op: Operation, before: Option<Notes>, a: Oid, text: nat)
    requires KeepsText(before, a, text) && Apply(op, before).Left?
    ensures KeepsText(Apply(op, before).notes, a, text)
  {
    hide CombinedAt;
    if before.value[a] == Legacy(text) {
      match op {
        case Append(b, r) =>
          AppendMeans(before, b, r);
          if a == b { LegacySpeaks(text, r); }
        case Replace(b, id, r) => ReplaceMeans(before, b, id, r);
        case Import(staged, applied, _, _) => if staged.Some? && a in Attachments(applied) { OnlyRecordsCombine(before.value, applied, a); }
        case Backfill(_) =>
      }
    } else {
      ApplyKeepsRecord(op, before, a, LegacyRecord(text));
    }
  }

  lemma {:induction false} LegacySpeaks(text: nat, r: Record)
    ensures Speaks([LegacyRecord(text)] + [r], LegacyRecord(text))
  {
    assert ([LegacyRecord(text)] + [r])[0] == LegacyRecord(text);
  }

  lemma {:induction false} OnlyRecordsCombine(notes: Notes, entries: seq<Entry>, a: Oid)
    ensures CombinedAt(notes, entries, a).Some? ==> ContainerAt(notes, a).Records?
  {}

  /** Over every log that was not refused: a plain text note keeps its text. */
  lemma {:induction false} PlainTextStays(notes: Option<Notes>, log: seq<Operation>, a: Oid, text: nat)
    requires notes.Some? && a in notes.value && notes.value[a] == Legacy(text) && FoldLog(notes, log).Left?
    ensures HoldsText(FoldLog(notes, log).notes, a, text)
  {
    TextIsKept(notes, log, a, text);
    KeptIsHeld(FoldLog(notes, log).notes, a, text);
  }

  lemma {:induction false} TextIsKept(notes: Option<Notes>, log: seq<Operation>, a: Oid, text: nat)
    requires notes.Some? && a in notes.value && notes.value[a] == Legacy(text) && FoldLog(notes, log).Left?
    ensures KeepsText(FoldLog(notes, log).notes, a, text)
  {
    hide Apply, KeepsText;
    if log == [] {
      assert KeepsText(notes, a, text) by { IsKept(notes, a, text); }
    } else {
      TextIsKept(notes, log[..|log| - 1], a, text);
      ApplyKeepsText(log[|log| - 1], FoldLog(notes, log[..|log| - 1]).notes, a, text);
    }
  }

  lemma {:induction false} IsKept(notes: Option<Notes>, a: Oid, text: nat)
    requires notes.Some? && a in notes.value && notes.value[a] == Legacy(text)
    ensures KeepsText(notes, a, text)
  {}

  /** A note that this build does not read is left as it is. */
  lemma {:induction false} ForeignStays(notes: Option<Notes>, log: seq<Operation>, a: Oid)
    requires notes.Some? && a in notes.value && notes.value[a] == Foreign && FoldLog(notes, log).Left?
    ensures var after := FoldLog(notes, log).notes;
            after.Some? && a in after.value && after.value[a] == Foreign
  {
    hide CombinedAt, Apply;
    if log != [] {
      var before, op := FoldLog(notes, log[..|log| - 1]).notes, log[|log| - 1];
      ForeignStays(notes, log[..|log| - 1], a);
      ApplyKeepsForeign(op, before, a);
    }
  }

  lemma {:induction false} ApplyKeepsForeign(op: Operation, before: Option<Notes>, a: Oid)
    requires before.Some? && a in before.value && before.value[a] == Foreign && Apply(op, before).Left?
    ensures var after := Apply(op, before).notes; after.Some? && a in after.value && after.value[a] == Foreign
  {
    hide CombinedAt;
    match op {
      case Append(b, r) => AppendMeans(before, b, r);
      case Replace(b, id, r) => ReplaceMeans(before, b, id, r);
      case Import(staged, applied, _, _) => if staged.Some? && a in Attachments(applied) { OnlyRecordsCombine(before.value, applied, a); }
      case Backfill(_) =>
    }
  }

  /** Over every run of any writers, with crashes and takeovers anywhere: the text
      of every plain note is still on its commit, and every note this build does
      not read is untouched. */
  lemma {:induction false} RunsKeepForeignWork(s: State, run: seq<(Pid, Step)>, a: Oid)
    requires AtRest(s) && Exec(s, run).Some? && s.tip.Some? && a in s.tip.value.notes
    ensures var t := Exec(s, run).value;
            && (s.tip.value.notes[a].Foreign? ==> t.tip.Some? && a in t.tip.value.notes && t.tip.value.notes[a] == Foreign)
            && (s.tip.value.notes[a].Legacy? ==> HoldsText(NotesAt(t.tip), a, s.tip.value.notes[a].text))
  {
    hide Exec, FoldLog, HoldsText;
    var t := Exec(s, run).value;
    NothingIsLost(s, run);
    match s.tip.value.notes[a] {
      case Foreign => ForeignStays(NotesAt(s.tip), t.log, a);
      case Legacy(text) => PlainTextStays(NotesAt(s.tip), t.log, a, text);
      case Records(_) =>
    }
  }
}
