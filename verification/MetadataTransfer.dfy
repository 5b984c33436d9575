/** Exchanging causal records: what an import does with each incoming record,
    what it parks, what a person decides about it, and who may rely on what. */
module MetadataTransfer {
  import opened Git
  import opened NoteRecords
  import opened NotesProtocol

  type RefName = nat
  type Lineage = nat

  /** A digest covers a record and what it is attached to, and nothing else has
      the same one. */
  type Digest = Entry

  /** A record of an envelope, and the resolution ref it names. */
  datatype Incoming = Incoming(entry: Entry, ref: Option<RefName>)

  /** `staged` is the notes commit the envelope carries, when it has records. */
  datatype Envelope = Envelope(lineage: Lineage, records: seq<Incoming>, refs: map<RefName, Oid>, staged: Option<NotesCommit>)

  datatype Parking = Parking(lineage: Lineage, id: RecordId)

  datatype Disposition = Disposition(id: RecordId, rejected: seq<Digest>)

  datatype Repository = Repository(
    notes: Option<Notes>,
    refs: map<RefName, Oid>,
    parked: map<Parking, Entry>,
    registry: seq<Disposition>)

  /** Every record of the notes tree with what it is attached to. */
  ghost predicate Holds(notes: Notes, e: Entry) {
    e.attachment in notes && notes[e.attachment].Records? && e.record in notes[e.attachment].records
  }

  function Copies(notes: Notes, id: RecordId): set<Digest> {
    set a, i | a in notes && notes[a].Records? && 0 <= i < |notes[a].records| && notes[a].records[i].id == Some(id)
      :: Entry(a, notes[a].records[i])
  }

  lemma {:induction false} CopiesAreHeld(notes: Notes, id: RecordId)
    ensures forall e :: e in Copies(notes, id) <==> Holds(notes, e) && e.record.id == Some(id)
  {
    forall e ensures e in Copies(notes, id) <==> Holds(notes, e) && e.record.id == Some(id) {
      if Holds(notes, e) && e.record.id == Some(id) {
        var i :| 0 <= i < |notes[e.attachment].records| && notes[e.attachment].records[i] == e.record;
        assert e == Entry(e.attachment, notes[e.attachment].records[i]);
      }
    }
  }

  // What happens to one incoming record.

  datatype Action = Add | Noop | Disposed | Park | Conflict

  function RejectedFor(registry: seq<Disposition>, id: RecordId): set<Digest> {
    set i, j | 0 <= i < |registry| && registry[i].id == id && 0 <= j < |registry[i].rejected| :: registry[i].rejected[j]
  }

  function ConflictAction(e: Entry, local: set<Digest>, disposed: set<Digest>, parkConflicts: bool): Action {
    if local == {} then Add
    else if e in local then Noop
    else if e in disposed then Disposed
    else if parkConflicts then Park
    else Conflict
  }

  /** A ref this repository already points elsewhere. */
  predicate Disagrees(refs: map<RefName, Oid>, incoming: map<RefName, Oid>, ref: RefName) {
    ref in incoming && ref in refs && refs[ref] != incoming[ref]
  }

  datatype Plan = Plan(entry: Entry, action: Action)

  datatype Preview = Preview(records: seq<Plan>, refused: set<RefName>, conflicts: nat, changes: bool)

  function PlanFor(s: Repository, envelope: Envelope, parkConflicts: bool, r: Incoming): Plan
    requires r.entry.record.id.Some?
  {
    var id := r.entry.record.id.value;
    Plan(r.entry,
      if parkConflicts && r.ref.Some? && Disagrees(s.refs, envelope.refs, r.ref.value) then Park
      else ConflictAction(r.entry, Copies(OrEmpty(s.notes), id), RejectedFor(s.registry, id), parkConflicts))
  }

  function CountAction(plans: seq<Plan>, action: Action): nat {
    if plans == [] then 0
    else CountAction(plans[..|plans| - 1], action) + if plans[|plans| - 1].action == action then 1 else 0
  }

  predicate Identified(envelope: Envelope) {
    forall i :: 0 <= i < |envelope.records| ==> envelope.records[i].entry.record.id.Some?
  }

  function ImportPreview(s: Repository, envelope: Envelope, parkConflicts: bool, objectProblems: nat): Preview
    requires Identified(envelope)
  {
    var records := seq(|envelope.records|, i requires 0 <= i < |envelope.records| =>
                     PlanFor(s, envelope, parkConflicts, envelope.records[i]));
    var disagreeing := set ref | ref in envelope.refs && Disagrees(s.refs, envelope.refs, ref);
    var created := set ref | ref in envelope.refs && ref !in s.refs;
    var adds := CountAction(records, Add);
    Preview(records,
      if parkConflicts then disagreeing else {},
      CountAction(records, Conflict) + (if parkConflicts then 0 else |disagreeing|) + objectProblems,
      adds > 0 || created != {} || CountAction(records, Park) > 0 || (envelope.staged.Some? && s.notes.None?))
  }

  lemma {:induction false} CountNone(plans: seq<Plan>, action: Action)
    ensures CountAction(plans, action) == 0 <==> forall i :: 0 <= i < |plans| ==> plans[i].action != action
  {
    if plans != [] {
      var rest := plans[..|plans| - 1];
      CountNone(rest, action);
      assert forall i :: 0 <= i < |rest| ==> plans[i] == rest[i];
    }
  }

  /** A record in dispute: its id is taken here by other content nobody has
      rejected it for. */
  predicate Disputed(s: Repository, e: Entry)
    requires e.record.id.Some?
  {
    var local := Copies(OrEmpty(s.notes), e.record.id.value);
    local != {} && e !in local && e !in RejectedFor(s.registry, e.record.id.value)
  }

  ghost predicate AnyDisputed(s: Repository, envelope: Envelope)
    requires Identified(envelope)
  {
    exists i :: 0 <= i < |envelope.records| && Disputed(s, envelope.records[i].entry)
  }

  /** With parking, no record and no ref ever keeps an envelope out: a record in
      dispute, or one that names a ref in dispute, is parked instead. */
  lemma {:induction false} ParkingNeverRefuses(s: Repository, envelope: Envelope, objectProblems: nat)
    requires Identified(envelope)
    ensures var preview := ImportPreview(s, envelope, true, objectProblems);
            && preview.conflicts == objectProblems
            && (forall ref :: ref in preview.refused <==> Disagrees(s.refs, envelope.refs, ref))
            && forall i :: 0 <= i < |envelope.records| ==>
                 var r := envelope.records[i];
                 preview.records[i].action == Park <==>
                   Disputed(s, r.entry) || (r.ref.Some? && r.ref.value in preview.refused)
  {
    hide Copies, RejectedFor;
    var preview := ImportPreview(s, envelope, true, objectProblems);
    CountNone(preview.records, Conflict);
    forall i | 0 <= i < |envelope.records| ensures preview.records[i] == PlanFor(s, envelope, true, envelope.records[i]) {}
  }

  /** Without it nothing is parked, and one dispute of either kind refuses the
      whole envelope. */
  lemma {:induction false} OneDisputeRefuses(s: Repository, envelope: Envelope, objectProblems: nat)
    requires Identified(envelope)
    ensures var preview := ImportPreview(s, envelope, false, objectProblems);
            && preview.refused == {} && (forall i :: 0 <= i < |envelope.records| ==> preview.records[i].action != Park)
            && (preview.conflicts > 0 <==>
                  objectProblems > 0 || (exists ref :: Disagrees(s.refs, envelope.refs, ref)) || AnyDisputed(s, envelope))
  {
    hide Copies, RejectedFor;
    var preview := ImportPreview(s, envelope, false, objectProblems);
    CountNone(preview.records, Conflict);
    var disagreeing := set ref | ref in envelope.refs && Disagrees(s.refs, envelope.refs, ref);
    assert preview.conflicts == CountAction(preview.records, Conflict) + |disagreeing| + objectProblems;
    assert |disagreeing| > 0 <==> exists ref :: Disagrees(s.refs, envelope.refs, ref) by {
      if ref :| Disagrees(s.refs, envelope.refs, ref) { assert ref in disagreeing; }
      if |disagreeing| > 0 { var ref :| ref in disagreeing; }
    }
    forall i | 0 <= i < |envelope.records|
      ensures preview.records[i] == PlanFor(s, envelope, false, envelope.records[i])
      ensures preview.records[i].action == Conflict <==> Disputed(s, envelope.records[i].entry)
    {}
  }

  // Splitting the incoming records.

  function WithAction(plans: seq<Plan>, take: Action -> bool): seq<Entry> {
    if plans == [] then []
    else
      var last := plans[|plans| - 1];
      WithAction(plans[..|plans| - 1], take) + if take(last.action) then [last.entry] else []
  }

  const Applies: Action -> bool := (a: Action) => a != Park && a != Disposed
  const Parks: Action -> bool := (a: Action) => a == Park

  /** One action for every entry, whichever place it has in the envelope. */
  predicate Consistent(plans: seq<Plan>) {
    forall i, j :: 0 <= i < |plans| && 0 <= j < |plans| && plans[i].entry == plans[j].entry ==>
      plans[i].action == plans[j].action
  }

  method PartitionIncoming(incoming: seq<Entry>, preview: Preview) returns (applied: seq<Entry>, parked: seq<Entry>)
    requires |incoming| == |preview.records| && Consistent(preview.records)
    requires forall i :: 0 <= i < |incoming| ==> preview.records[i].entry == incoming[i]
    ensures applied == WithAction(preview.records, Applies)
    ensures parked == WithAction(preview.records, Parks)
  {
    var plans := preview.records;
    var actions: map<Entry, Action> := map[];
    for i := 0 to |plans|
      invariant forall j :: 0 <= j < i ==> plans[j].entry in actions && actions[plans[j].entry] == plans[j].action
    {
      actions := actions[plans[i].entry := plans[i].action];
    }
    applied, parked := [], [];
    for i := 0 to |incoming|
      invariant applied == WithAction(plans[..i], Applies)
      invariant parked == WithAction(plans[..i], Parks)
    {
      assert plans[..i + 1][..i] == plans[..i];
      var action := actions[incoming[i]];
      if action == Park {
        parked := parked + [incoming[i]];
      } else if action != Disposed {
        applied := applied + [incoming[i]];
      }
    }
    assert plans[..|plans|] == plans;
  }

  /** The incoming records grouped by attachment, each group in order. */
  method GroupRecords(entries: seq<Entry>) returns (groups: map<Oid, seq<Record>>)
    ensures groups.Keys == Attachments(entries)
    ensures forall a <- groups :: groups[a] == Sorted(GroupAt(entries, a))
  {
    hide Attachments, Sorted, GroupAt;
    NoGroups();
    var unsorted: map<Oid, seq<Record>> := map[];
    for i := 0 to |entries|
      invariant unsorted.Keys == Attachments(entries[..i])
      invariant forall a <- unsorted :: unsorted[a] == GroupAt(entries[..i], a)
      invariant forall a :: a !in unsorted ==> GroupAt(entries[..i], a) == []
    {
      var e := entries[i];
      MoreAttachments(entries, i);
      MoreInGroups(entries, i);
      var records := if e.attachment in unsorted then unsorted[e.attachment] else [];
      unsorted := unsorted[e.attachment := records + [e.record]];
    }
    assert entries[..|entries|] == entries;
    groups := map a | a in unsorted :: Sorted(unsorted[a]);
  }

  lemma {:induction false} NoGroups()
    ensures Attachments([]) == {} && forall a :: GroupAt([], a) == []
  {}

  lemma {:induction false} MoreInGroups(entries: seq<Entry>, i: nat)
    requires i < |entries|
    ensures forall a :: GroupAt(entries[..i + 1], a) ==
                        GroupAt(entries[..i], a) + if a == entries[i].attachment then [entries[i].record] else []
  {
    assert entries[..i + 1][..i] == entries[..i];
  }

  lemma {:induction false} MoreAttachments(entries: seq<Entry>, i: nat)
    requires i < |entries|
    ensures Attachments(entries[..i + 1]) == Attachments(entries[..i]) + {entries[i].attachment}
  {
    var more := entries[..i + 1];
    assert forall j :: 0 <= j < i ==> more[j] == entries[..i][j];
    forall a | a in Attachments(more) ensures a in Attachments(entries[..i]) + {entries[i].attachment} {
      var j :| 0 <= j < |more| && more[j].attachment == a;
      if j < i { assert entries[..i][j].attachment == a; }
    }
    forall a | a in Attachments(entries[..i]) ensures a in Attachments(more) {
      var j :| 0 <= j < i && entries[..i][j].attachment == a;
      assert more[j].attachment == a;
    }
    assert more[i].attachment == entries[i].attachment;
  }

  /** Merges incoming records into the containers already there, or stops. */
  method CombineNoteEntries(existing: Notes, incoming: seq<Entry>) returns (combined: Option<map<Oid, seq<Record>>>)
    ensures combined.Some? <==> Imported(existing, incoming).Some?
    ensures combined.Some? ==>
              && combined.value.Keys == Attachments(incoming)
              && forall a <- combined.value :: Some(Sorted(combined.value[a])) == CombinedAt(existing, incoming, a)
  {
    hide CombinedAt, Attachments, Sorted, GroupAt, Imported;
    var groups := GroupRecords(incoming);
    var result: map<Oid, seq<Record>> := map[];
    var rest := Attachments(incoming);
    ghost var done: set<Oid> := {};
    while rest != {}
      invariant rest + done == Attachments(incoming)
      invariant CombinedFor(existing, incoming, done, result)
      decreases |rest|
    {
      var a :| a in rest;
      var joined := CombineAttachment(existing, incoming, a, groups[a]);
      CombinedMore(existing, incoming, done, result, a, joined);
      if joined.None? { return None; }
      result := result[a := joined.value];
      rest, done := rest - {a}, done + {a};
    }
    assert done == Attachments(incoming);
    CombinedAll(existing, incoming, result);
    return Some(result);
  }

  ghost predicate CombinedFor(existing: Notes, incoming: seq<Entry>, done: set<Oid>, result: map<Oid, seq<Record>>) {
    result.Keys == done && forall a <- done :: Some(Sorted(result[a])) == CombinedAt(existing, incoming, a)
  }

  lemma {:induction false} CombinedMore(existing: Notes, incoming: seq<Entry>, done: set<Oid>, result: map<Oid, seq<Record>>,
    a: Oid, joined: Option<seq<Record>>)
    requires CombinedFor(existing, incoming, done, result) && a in Attachments(incoming)
    requires joined.None? ==> CombinedAt(existing, incoming, a).None?
    requires joined.Some? ==> Some(Sorted(joined.value)) == CombinedAt(existing, incoming, a)
    ensures joined.None? ==> Imported(existing, incoming).None?
    ensures joined.Some? ==> CombinedFor(existing, incoming, done + {a}, result[a := joined.value])
  {
    hide CombinedAt, Attachments, Sorted;
  }

  lemma {:induction false} CombinedAll(existing: Notes, incoming: seq<Entry>, result: map<Oid, seq<Record>>)
    requires CombinedFor(existing, incoming, Attachments(incoming), result)
    ensures Imported(existing, incoming).Some?
  {
    hide CombinedAt, Attachments, Sorted;
  }

  method CombineAttachment(existing: Notes, ghost incoming: seq<Entry>, a: Oid, group: seq<Record>)
    returns (r: Option<seq<Record>>)
    requires group == Sorted(GroupAt(incoming, a))
    ensures r.None? <==> CombinedAt(existing, incoming, a).None?
    ensures r.Some? ==> Some(Sorted(r.value)) == CombinedAt(existing, incoming, a)
  {
    if !ContainerAt(existing, a).Records? { return None; }
    r := CombineOne(ContainerAt(existing, a).records, group);
  }

  /** One container: what is there by key, then every incoming record. */
  method CombineOne(existing: seq<Record>, incoming: seq<Record>) returns (r: Option<seq<Record>>)
    ensures r == Join(Keyed(existing), incoming)
  {
    var byKey := [];
    for i := 0 to |existing|
      invariant byKey == Keyed(existing[..i])
    {
      assert existing[..i + 1][..i] == existing[..i];
      var at := IndexOf(byKey, KeyOf(existing[i]));
      byKey := if at.Some? then byKey[at.value := existing[i]] else byKey + [existing[i]];
    }
    assert existing[..|existing|] == existing;
    for i := 0 to |incoming|
      invariant Join(Keyed(existing), incoming[..i]) == Some(byKey)
    {
      assert incoming[..i + 1][..i] == incoming[..i];
      var prior := IndexOf(byKey, KeyOf(incoming[i]));
      if prior.Some? && byKey[prior.value] != incoming[i] {
        JoinStopped(Keyed(existing), incoming, i + 1);
        return None;
      }
      if prior.None? { byKey := byKey + [incoming[i]]; }
    }
    assert incoming[..|incoming|] == incoming;
    return Some(byKey);
  }

  lemma {:induction false} JoinStopped(existing: seq<Record>, incoming: seq<Record>, n: nat)
    requires n <= |incoming| && Join(existing, incoming[..n]).None?
    ensures Join(existing, incoming).None?
    decreases |incoming| - n
  {
    if n < |incoming| {
      assert incoming[..n + 1][..n] == incoming[..n];
      JoinStopped(existing, incoming, n + 1);
    } else {
      assert incoming[..n] == incoming;
    }
  }
}
