/** Causal records as they sit in a notes tree, and what an import makes of a
    container: incoming records joined to it by key, then put in order. */
module NoteRecords {
  import opened Git

  type Oid = nat
  type RecordId = nat

  datatype Kind = CommitObject | TreeObject | BlobObject

  datatype Reference = Reference(oid: Oid, kind: Kind)

  /** `content` is everything a record says besides its identity, its date and
      the objects it references. */
  datatype Record = Record(id: Option<RecordId>, createdAt: nat, content: nat, references: seq<Reference>)

  datatype Entry = Entry(attachment: Oid, record: Record)

  /** What hangs on one attachment: a container this build reads, a plain text
      note from before there were containers, or something it does not read. */
  datatype Container = Records(records: seq<Record>) | Legacy(text: nat) | Foreign

  type Notes = map<Oid, Container>

  function ContainerAt(notes: Notes, attachment: Oid): Container {
    if attachment in notes then notes[attachment] else Records([])
  }

  /** A record without an id is known by all of its content. */
  datatype Key = Named(id: RecordId) | Unnamed(record: Record)

  function KeyOf(r: Record): Key {
    match r.id
    case Some(id) => Named(id)
    case None => Unnamed(r)
  }

  predicate UniqueKeys(records: seq<Record>) {
    forall i, j :: 0 <= i < j < |records| ==> KeyOf(records[i]) != KeyOf(records[j])
  }

  function IndexOf(records: seq<Record>, key: Key): (r: Option<nat>)
    ensures r.Some? ==> r.value < |records| && KeyOf(records[r.value]) == key
    ensures r.Some? ==> forall j :: 0 <= j < r.value ==> KeyOf(records[j]) != key
    ensures r.None? ==> forall j :: 0 <= j < |records| ==> KeyOf(records[j]) != key
  {
    if records == [] then None
    else if KeyOf(records[0]) == key then Some(0)
    else
      match IndexOf(records[1..], key)
      case None => None
      case Some(i) =>
        assert forall j :: 1 <= j < |records| ==> records[j] == records[1..][j - 1];
        Some(i + 1)
  }

  /** A map by key that remembers insertion order: a later record with the same
      key takes the earlier one's place. */
  function Keyed(records: seq<Record>): seq<Record> {
    if records == [] then []
    else
      var before := Keyed(records[..|records| - 1]);
      var last := records[|records| - 1];
      match IndexOf(before, KeyOf(last))
      case None => before + [last]
      case Some(i) => before[i := last]
  }

  /** Incoming records joined to a container: one already there is not added
      again, and one whose key is there with other content stops the merge. */
  function Join(existing: seq<Record>, incoming: seq<Record>): Option<seq<Record>> {
    if incoming == [] then Some(existing)
    else
      match Join(existing, incoming[..|incoming| - 1])
      case None => None
      case Some(joined) =>
        var last := incoming[|incoming| - 1];
        match IndexOf(joined, KeyOf(last))
        case None => Some(joined + [last])
        case Some(i) => if joined[i] == last then Some(joined) else None
  }

  /** By date, then by id, then by content. */
  predicate Precedes(a: Record, b: Record) {
    a.createdAt < b.createdAt ||
    (a.createdAt == b.createdAt &&
     (IdRank(a) < IdRank(b) || (IdRank(a) == IdRank(b) && a.content <= b.content)))
  }

  function IdRank(r: Record): nat {
    if r.id.Some? then r.id.value + 1 else 0
  }

  predicate InOrder(records: seq<Record>) {
    forall i, j :: 0 <= i < j < |records| ==> Precedes(records[i], records[j])
  }

  /** Puts a record after every one it does not come before. */
  function Insert(records: seq<Record>, r: Record): seq<Record> {
    if records == [] || Precedes(records[|records| - 1], r) then records + [r]
    else Insert(records[..|records| - 1], r) + [records[|records| - 1]]
  }

  function Sorted(records: seq<Record>): seq<Record> {
    if records == [] then [] else Insert(Sorted(records[..|records| - 1]), records[|records| - 1])
  }

  /** The records of one attachment among many entries. */
  function GroupAt(entries: seq<Entry>, attachment: Oid): seq<Record> {
    if entries == [] then []
    else
      var last := entries[|entries| - 1];
      GroupAt(entries[..|entries| - 1], attachment) + if last.attachment == attachment then [last.record] else []
  }

  function Attachments(entries: seq<Entry>): set<Oid> {
    set i | 0 <= i < |entries| :: entries[i].attachment
  }

  function CombinedAt(notes: Notes, entries: seq<Entry>, attachment: Oid): Option<seq<Record>> {
    match ContainerAt(notes, attachment)
    case Records(records) =>
      (match Join(Keyed(records), Sorted(GroupAt(entries, attachment)))
       case Some(joined) => Some(Sorted(joined))
       case None => None)
    case _ => None
  }

  /** The notes an import builds: containers read one by one, over a base tree
      read on its own. */
  function ImportedOver(base: Notes, read: Notes, entries: seq<Entry>): Option<Notes> {
    if forall a <- Attachments(entries) :: CombinedAt(read, entries, a).Some?
    then Some(map a | a in base.Keys + Attachments(entries) ::
                if a in Attachments(entries) then Records(CombinedAt(read, entries, a).value) else base[a])
    else None
  }

  /** The notes after merging some entries into them, when nothing stops it. */
  function Imported(notes: Notes, entries: seq<Entry>): Option<Notes> {
    ImportedOver(notes, notes, entries)
  }

  lemma {:induction false} MergedIsImported(base: Notes, read: Notes, entries: seq<Entry>)
    requires forall a <- Attachments(entries) :: ContainerAt(read, a) == ContainerAt(base, a)
    ensures ImportedOver(base, read, entries) == Imported(base, entries)
  {
    forall a | a in Attachments(entries) ensures CombinedAt(read, entries, a) == CombinedAt(base, entries, a) {}
    hide CombinedAt, Attachments;
    var m, i := ImportedOver(base, read, entries), Imported(base, entries);
    if m.Some? {
      assert forall a <- base.Keys + Attachments(entries) :: m.value[a] == i.value[a];
      assert m.value.Keys == i.value.Keys;
      assert m.value == i.value;
    }
  }

  lemma {:induction false} InsertPermutes(records: seq<Record>, r: Record)
    ensures multiset(Insert(records, r)) == multiset(records) + multiset{r}
  {
    hide Precedes;
    if records != [] && !Precedes(records[|records| - 1], r) {
      InsertPermutes(records[..|records| - 1], r);
      assert records == records[..|records| - 1] + [records[|records| - 1]];
    }
  }

  lemma {:induction false} InsertHolds(records: seq<Record>, r: Record)
    ensures forall x :: x in Insert(records, r) <==> x in records || x == r
  {
    hide Precedes;
    if records != [] && !Precedes(records[|records| - 1], r) {
      InsertHolds(records[..|records| - 1], r);
      assert records == records[..|records| - 1] + [records[|records| - 1]];
    }
  }

  lemma {:induction false} PrecedesChains(a: Record, b: Record, c: Record)
    ensures Precedes(a, b) && Precedes(b, c) ==> Precedes(a, c)
    ensures Precedes(a, b) || Precedes(b, a)
  {}

  lemma {:induction false} InsertInOrder(records: seq<Record>, r: Record)
    requires InOrder(records)
    ensures InOrder(Insert(records, r))
  {
    hide Precedes;
    if records != [] {
      var rest, last := records[..|records| - 1], records[|records| - 1];
      PrecedesChains(last, r, r);
      if Precedes(last, r) {
        forall i | 0 <= i < |records| ensures Precedes(records[i], r) {
          PrecedesChains(records[i], last, r);
        }
      } else {
        InsertInOrder(rest, r);
        InsertHolds(rest, r);
        var inserted := Insert(rest, r);
        forall i | 0 <= i < |inserted| ensures Precedes(inserted[i], last) {
          assert inserted[i] in inserted;
          assert inserted[i] == r || inserted[i] in rest;
        }
      }
    }
  }

  lemma {:induction false} InsertUnique(records: seq<Record>, r: Record)
    requires UniqueKeys(records) && forall x <- records :: KeyOf(x) != KeyOf(r)
    ensures UniqueKeys(Insert(records, r))
  {
    hide Precedes;
    if records != [] && !Precedes(records[|records| - 1], r) {
      var rest, last := records[..|records| - 1], records[|records| - 1];
      assert forall x <- rest :: x in records;
      InsertUnique(rest, r);
      InsertHolds(rest, r);
      var inserted := Insert(rest, r);
      assert last in records;
      forall i | 0 <= i < |inserted| ensures KeyOf(inserted[i]) != KeyOf(last) {
        assert inserted[i] in inserted;
        assert inserted[i] == r || inserted[i] in rest;
      }
    }
  }

  /** Sorting keeps exactly the records there were, in order. */
  lemma {:induction false} SortedFacts(records: seq<Record>)
    ensures multiset(Sorted(records)) == multiset(records)
    ensures InOrder(Sorted(records))
  {
    hide Precedes;
    if records != [] {
      var rest, last := records[..|records| - 1], records[|records| - 1];
      SortedFacts(rest);
      InsertPermutes(Sorted(rest), last);
      InsertInOrder(Sorted(rest), last);
      assert records == rest + [last];
    }
  }

  /** The order that is written: earlier dates first; on one date a record without
      an id before those with one, and those by id; then by content. */
  lemma {:induction false} OrderMeans(records: seq<Record>, i: nat, j: nat)
    requires i < j < |Sorted(records)|
    ensures var a, b := Sorted(records)[i], Sorted(records)[j];
            && a.createdAt <= b.createdAt
            && (a.createdAt == b.createdAt ==>
                  && (a.id.Some? ==> b.id.Some? && a.id.value <= b.id.value)
                  && (a.id == b.id ==> a.content <= b.content))
  {
    SortedFacts(records);
    hide Sorted;
    assert Precedes(Sorted(records)[i], Sorted(records)[j]);
  }

  lemma {:induction false} SortedKeeps(records: seq<Record>)
    ensures forall r :: r in Sorted(records) <==> r in records
    ensures UniqueKeys(records) ==> UniqueKeys(Sorted(records))
  {
    hide Precedes;
    if records != [] {
      var rest, last := records[..|records| - 1], records[|records| - 1];
      SortedKeeps(rest);
      InsertHolds(Sorted(rest), last);
      assert records == rest + [last];
      if UniqueKeys(records) {
        forall x | x in Sorted(rest) ensures KeyOf(x) != KeyOf(last) {
          var i :| 0 <= i < |rest| && rest[i] == x;
          assert KeyOf(records[i]) != KeyOf(records[|rest|]);
        }
        InsertUnique(Sorted(rest), last);
      }
    }
  }

  lemma {:induction false} InOrderStays(records: seq<Record>)
    requires InOrder(records)
    ensures Sorted(records) == records
  {
    if records != [] {
      var rest := records[..|records| - 1];
      InOrderStays(rest);
      assert records == rest + [records[|records| - 1]];
    }
  }

  // One order for one set of records.

  ghost predicate Ranked(records: seq<Record>) {
    forall x, y :: x in records && y in records && Precedes(x, y) && Precedes(y, x) ==> x == y
  }

  /** The date, the id and the content of a record tell it from every other one. */
  ghost predicate ContentDecides(records: seq<Record>) {
    forall x, y :: x in records && y in records && x.createdAt == y.createdAt && x.id == y.id && x.content == y.content ==> x == y
  }

  /** A container is written the same whatever order its records came in. */
  lemma {:induction false} OrderIsCanonical(a: seq<Record>, b: seq<Record>)
    requires multiset(a) == multiset(b) && ContentDecides(a)
    ensures Sorted(a) == Sorted(b)
  {
    hide Sorted, InOrder, Precedes, ContentDecides, Ranked;
    SortedFacts(a);
    SortedFacts(b);
    SortedRanked(a);
    OneOrder(Sorted(a), Sorted(b));
  }

  /** An import makes the same of the same records in any order, and refuses
      them in any order or in none. */
  lemma {:induction false} EnvelopeOrderDoesNotMatter(notes: Notes, first: seq<Entry>, second: seq<Entry>)
    requires multiset(first) == multiset(second)
    requires forall a :: ContentDecides(GroupAt(first, a))
    ensures Imported(notes, first) == Imported(notes, second)
  {
    hide Sorted, ContentDecides, GroupAt, Keyed, Join;
    forall a ensures Sorted(GroupAt(first, a)) == Sorted(GroupAt(second, a)) {
      SameGroup(first, second, a);
      OrderIsCanonical(GroupAt(first, a), GroupAt(second, a));
    }
    assert Attachments(first) == Attachments(second) by {
      SameAttachments(first, second);
      SameAttachments(second, first);
    }
    forall a ensures CombinedAt(notes, first, a) == CombinedAt(notes, second, a) {}
    SameImport(notes, first, second);
  }

  lemma {:induction false} SameImport(notes: Notes, first: seq<Entry>, second: seq<Entry>)
    requires Attachments(first) == Attachments(second)
    requires forall a :: CombinedAt(notes, first, a) == CombinedAt(notes, second, a)
    ensures Imported(notes, first) == Imported(notes, second)
  {
    hide CombinedAt, Attachments;
    if forall a <- Attachments(first) :: CombinedAt(notes, first, a).Some? {
      var left, right := Imported(notes, first).value, Imported(notes, second).value;
      assert left.Keys == right.Keys;
      assert forall a <- left :: left[a] == right[a];
      assert left == right;
    }
  }

  lemma {:induction false} SameAttachments(first: seq<Entry>, second: seq<Entry>)
    requires multiset(first) == multiset(second)
    ensures Attachments(first) <= Attachments(second)
  {
    forall a | a in Attachments(first) ensures a in Attachments(second) {
      var i :| 0 <= i < |first| && first[i].attachment == a;
      assert first[i] in multiset(second);
      var j :| 0 <= j < |second| && second[j] == first[i];
    }
  }

  lemma {:induction false} SameGroup(first: seq<Entry>, second: seq<Entry>, a: Oid)
    requires multiset(first) == multiset(second)
    ensures multiset(GroupAt(first, a)) == multiset(GroupAt(second, a))
  {
    forall r ensures multiset(GroupAt(first, a))[r] == multiset(GroupAt(second, a))[r] {
      GroupCounts(first, a, r);
      GroupCounts(second, a, r);
    }
  }

  lemma {:induction false} GroupCounts(entries: seq<Entry>, a: Oid, r: Record)
    ensures multiset(GroupAt(entries, a))[r] == multiset(entries)[Entry(a, r)]
  {
    if entries != [] {
      var rest, last := entries[..|entries| - 1], entries[|entries| - 1];
      GroupCounts(rest, a, r);
      assert entries == rest + [last];
    }
  }

  lemma {:induction false} SortedRanked(records: seq<Record>)
    requires ContentDecides(records)
    ensures Ranked(Sorted(records))
  {
    hide Sorted, UniqueKeys;
    SortedKeeps(records);
  }

  lemma {:induction false} OneOrder(a: seq<Record>, b: seq<Record>)
    requires multiset(a) == multiset(b) && InOrder(a) && InOrder(b) && Ranked(a)
    ensures a == b
    decreases |a|
  {
    hide Precedes, InOrder, Ranked;
    SameSize(a, b);
    if a != [] {
      var n := |a| - 1;
      LastIsLast(a, b[n]);
      LastIsLast(b, a[n]);
      SameRank(a, a[n], b[n]);
      FirstOnes(a);
      FirstOnes(b);
      SameWithout(multiset(a[..n]), multiset(b[..n]), a[n]);
      RankedFirst(a);
      OneOrder(a[..n], b[..n]);
      assert a == a[..n] + [a[n]] && b == b[..n] + [b[n]];
    }
  }

  lemma {:induction false} SameSize(a: seq<Record>, b: seq<Record>)
    requires multiset(a) == multiset(b)
    ensures |a| == |b| && (a != [] ==> a[|a| - 1] in b && b[|b| - 1] in a)
  {
    assert |a| == |multiset(a)| == |multiset(b)| == |b|;
    if a != [] {
      assert a[|a| - 1] in multiset(a) && b[|b| - 1] in multiset(b);
    }
  }

  lemma {:induction false} SameWithout(a: multiset<Record>, b: multiset<Record>, x: Record)
    requires a + multiset{x} == b + multiset{x}
    ensures a == b
  {
    assert a == a + multiset{x} - multiset{x} == b + multiset{x} - multiset{x} == b;
  }

  lemma {:induction false} SameRank(records: seq<Record>, x: Record, y: Record)
    requires Ranked(records) && x in records && y in records && Precedes(x, y) && Precedes(y, x)
    ensures x == y
  {
    hide Precedes;
  }

  lemma {:induction false} FirstOnes(records: seq<Record>)
    requires InOrder(records) && records != []
    ensures InOrder(records[..|records| - 1])
    ensures multiset(records) == multiset(records[..|records| - 1]) + multiset{records[|records| - 1]}
  {
    hide Precedes;
    assert records == records[..|records| - 1] + [records[|records| - 1]];
  }

  lemma {:induction false} RankedFirst(records: seq<Record>)
    requires Ranked(records) && records != []
    ensures Ranked(records[..|records| - 1])
  {
    hide Precedes;
    assert forall x :: x in records[..|records| - 1] ==> x in records;
  }

  lemma {:induction false} LastIsLast(records: seq<Record>, x: Record)
    requires InOrder(records) && x in records
    ensures Precedes(x, records[|records| - 1])
  {
    var i :| 0 <= i < |records| && records[i] == x;
  }

  lemma {:induction false} KeyedUnique(records: seq<Record>)
    requires UniqueKeys(records)
    ensures Keyed(records) == records
  {
    if records != [] {
      KeyedUnique(records[..|records| - 1]);
      assert records == records[..|records| - 1] + [records[|records| - 1]];
    }
  }

  /** A map by key holds each key once, and no record it was not given. */
  lemma {:induction false} KeyedFacts(records: seq<Record>)
    ensures UniqueKeys(Keyed(records))
    ensures forall r <- Keyed(records) :: r in records
  {
    if records != [] {
      var rest, last := records[..|records| - 1], records[|records| - 1];
      KeyedFacts(rest);
      assert records == rest + [last];
    }
  }

  /** A join keeps what was there in place, adds only incoming records, holds
      every incoming record, and keeps keys unique. */
  lemma {:induction false} JoinFacts(existing: seq<Record>, incoming: seq<Record>)
    requires UniqueKeys(existing) && Join(existing, incoming).Some?
    ensures var joined := Join(existing, incoming).value;
            && UniqueKeys(joined)
            && existing <= joined
            && (forall r :: r in joined <==> r in existing || r in incoming)
  {
    if incoming != [] {
      var rest, last := incoming[..|incoming| - 1], incoming[|incoming| - 1];
      JoinFacts(existing, rest);
      assert incoming == rest + [last];
      var before := Join(existing, rest).value;
      var i := IndexOf(before, KeyOf(last));
      if i.Some? { assert before[i.value] == last; }
    }
  }

  lemma {:induction false} JoinNothingNew(existing: seq<Record>, incoming: seq<Record>)
    requires UniqueKeys(existing) && forall r <- incoming :: r in existing
    ensures Join(existing, incoming) == Some(existing)
  {
    if incoming != [] {
      var rest, last := incoming[..|incoming| - 1], incoming[|incoming| - 1];
      assert incoming == rest + [last];
      JoinNothingNew(existing, rest);
      assert last in incoming;
      var i :| 0 <= i < |existing| && existing[i] == last;
      assert IndexOf(existing, KeyOf(last)) == Some(i);
    }
  }

  /** A join is stopped exactly by an incoming record whose key is already taken
      by other content. */
  lemma {:induction false} JoinStops(existing: seq<Record>, incoming: seq<Record>)
    requires UniqueKeys(existing)
    ensures Join(existing, incoming).Some? <==>
            forall a, b :: a in incoming && (b in existing || b in incoming) && KeyOf(a) == KeyOf(b) ==> a == b
  {
    if incoming != [] {
      var rest, last := incoming[..|incoming| - 1], incoming[|incoming| - 1];
      assert incoming == rest + [last];
      JoinStops(existing, rest);
      if Join(existing, rest).Some? {
        JoinFacts(existing, rest);
        var before := Join(existing, rest).value;
        var i := IndexOf(before, KeyOf(last));
        if i.Some? {
          assert before[i.value] in before;
          if before[i.value] == last {
            forall a, b | a in incoming && (b in existing || b in incoming) && KeyOf(a) == KeyOf(b) ensures a == b {
              assert a in rest || a == last;
              assert b in existing || b in rest || b == last;
              if a == last && b in before { SameKey(before, b, i.value); }
              if b == last && a in before { SameKey(before, a, i.value); }
            }
          } else {
            assert last in incoming;
          }
        } else {
          forall a, b | a in incoming && (b in existing || b in incoming) && KeyOf(a) == KeyOf(b) ensures a == b {
            assert a in rest || a == last;
            assert b in existing || b in rest || b == last;
          }
        }
      } else {
        forall a | a in rest ensures a in incoming {}
      }
    }
  }

  lemma {:induction false} SameKey(records: seq<Record>, r: Record, i: nat)
    requires UniqueKeys(records) && r in records && i < |records| && KeyOf(records[i]) == KeyOf(r)
    ensures records[i] == r
  {
    var j :| 0 <= j < |records| && records[j] == r;
  }

  lemma {:induction false} GroupHolds(entries: seq<Entry>, attachment: Oid)
    ensures forall r :: r in GroupAt(entries, attachment) <==> Entry(attachment, r) in entries
  {
    if entries != [] {
      var rest, last := entries[..|entries| - 1], entries[|entries| - 1];
      GroupHolds(rest, attachment);
      assert entries == rest + [last];
    }
  }

  /** A record is in a container and nothing else there claims its key. */
  ghost predicate Speaks(records: seq<Record>, r: Record) {
    r in records && forall x <- records :: KeyOf(x) == KeyOf(r) ==> x == r
  }

  lemma {:induction false} KeyedSpeaks(records: seq<Record>, r: Record)
    requires forall x <- records :: KeyOf(x) == KeyOf(r) ==> x == r
    ensures r in records ==> Speaks(Keyed(records), r)
  {
    KeyedFacts(records);
    if records != [] {
      var rest, last := records[..|records| - 1], records[|records| - 1];
      assert records == rest + [last];
      KeyedSpeaks(rest, r);
      var before := Keyed(rest);
      var at := IndexOf(before, KeyOf(last));
      if r in rest && at.Some? {
        var i :| 0 <= i < |before| && before[i] == r;
        if i == at.value { assert last in records; } else { assert Keyed(records)[i] == r; }
      }
      if r == last { assert Keyed(records)[if at.Some? then at.value else |before|] == r; }
    }
  }

  /** An import leaves alone a record that speaks for its key. */
  lemma {:induction false} CombinedSpeaks(notes: Notes, entries: seq<Entry>, a: Oid, r: Record)
    requires CombinedAt(notes, entries, a).Some? && Speaks(ContainerAt(notes, a).records, r)
    ensures Speaks(CombinedAt(notes, entries, a).value, r)
  {
    hide Precedes, Insert, Sorted, Keyed, Join, GroupAt, UniqueKeys;
    var records, group := ContainerAt(notes, a).records, GroupAt(entries, a);
    KeyedSpeaks(records, r);
    KeyedFacts(records);
    JoinFacts(Keyed(records), Sorted(group));
    var joined := Join(Keyed(records), Sorted(group)).value;
    SortedKeeps(joined);
    assert r in joined;
    var i :| 0 <= i < |joined| && joined[i] == r;
    forall x | x in joined && KeyOf(x) == KeyOf(r) ensures x == r {
      SameKey(joined, x, i);
    }
  }
}
