/** Tying a receipt to the notes tip it was read from: the trees from the tip
    down to the note, found by the producer and followed by the verifier. */
module ReceiptInclusion {
  import opened Git
  import opened MergePlan
  import opened ProofBinding

  datatype Item = Item(name: string, oid: Oid)

  /** A record as the note's own bytes hold it. */
  datatype NoteRecord = NoteRecord(id: FactId, valid: bool, absorbedCommits: seq<CommitId>, absorbedChanges: seq<ChangeId>)

  /** How ids are spelled and trees and notes are read; a note that is not valid
      JSON reads as None. */
  datatype NoteFormat = NoteFormat(format: Format, hex: Oid -> string, tree: nat -> seq<Item>, note: nat -> Option<seq<NoteRecord>>)

  datatype Inclusion = Inclusion(id: FactId, attachment: Oid, path: seq<Oid>, blob: Oid)

  /** What the bundle's own evidence says a receipt absorbs. */
  datatype Claim = Claim(id: FactId, absorbedCommits: seq<CommitId>, absorbedChanges: seq<ChangeId>)

  function RootAt(f: NoteFormat, store: Carried, tip: Oid): Option<Oid> {
    match CommitAt(f.format, store, tip)
    case None => None
    case Some(c) => c.tree
  }

  predicate Contains(items: seq<Item>, oid: Oid) {
    exists i :: 0 <= i < |items| && items[i].oid == oid
  }

  function ItemsAt(f: NoteFormat, store: Carried, oid: Oid): Option<seq<Item>> {
    if oid in store && store[oid].kind == TreeKind then Some(f.tree(store[oid].bytes)) else None
  }

  function NextOf(path: seq<Oid>, blob: Oid, i: nat): Oid
    requires i < |path|
  {
    if i + 1 < |path| then path[i + 1] else blob
  }

  /** Each tree of a path is there and contains the next object, and the last
      one the blob. */
  predicate PathLeadsTo(f: NoteFormat, store: Carried, path: seq<Oid>, blob: Oid) {
    path != [] && forall i :: 0 <= i < |path| ==>
      ItemsAt(f, store, path[i]).Some? && Contains(ItemsAt(f, store, path[i]).value, NextOf(path, blob, i))
  }

  /** The first record with an id. */
  function RecordWith(records: seq<NoteRecord>, id: FactId): (r: Option<NoteRecord>)
    ensures match r
            case None => forall i :: 0 <= i < |records| ==> records[i].id != id
            case Some(x) => exists i :: 0 <= i < |records| && records[i] == x && x.id == id && forall j :: 0 <= j < i ==> records[j].id != id
  {
    if records == [] then None
    else if records[0].id == id then Some(records[0])
    else RecordWith(records[1..], id)
  }

  /** The first claim for an id. */
  function ClaimWith(claims: seq<Claim>, id: FactId): (r: Option<Claim>)
    ensures match r
            case None => forall i :: 0 <= i < |claims| ==> claims[i].id != id
            case Some(c) => exists i :: 0 <= i < |claims| && claims[i] == c && c.id == id && forall j :: 0 <= j < i ==> claims[j].id != id
  {
    if claims == [] then None
    else if claims[0].id == id then Some(claims[0])
    else ClaimWith(claims[1..], id)
  }

  /** The record a store's notes tip holds for a receipt. */
  ghost predicate Holds(f: NoteFormat, store: Carried, tip: Oid, p: Inclusion, r: NoteRecord) {
    && p.path != [] && RootAt(f, store, tip) == Some(p.path[0])
    && PathLeadsTo(f, store, p.path, p.blob)
    && p.blob in store && store[p.blob].kind == BlobKind
    && f.note(store[p.blob].bytes).Some? && RecordWith(f.note(store[p.blob].bytes).value, p.id) == Some(r)
  }

  /** The bytes of a tree have an entry for an object. */
  ghost predicate Lists(f: NoteFormat, store: Carried, o: Oid, next: Oid) {
    o in store && store[o].kind == TreeKind && exists k :: 0 <= k < |f.tree(store[o].bytes)| && f.tree(store[o].bytes)[k].oid == next
  }

  /** In the bytes themselves: the tip is a commit whose tree the path starts from,
      every tree of the path lists the next object, the last one the blob, and the
      note there has the record as the first with its id. */
  lemma {:induction false} HoldsMeans(f: NoteFormat, store: Carried, tip: Oid, p: Inclusion, r: NoteRecord)
    ensures Holds(f, store, tip, p, r) <==>
            && tip in store && store[tip].kind == CommitKind && p.path != []
            && f.format.commit(store[tip].bytes).tree == Some(p.path[0])
            && (forall i :: 0 <= i < |p.path| - 1 ==> Lists(f, store, p.path[i], p.path[i + 1]))
            && Lists(f, store, p.path[|p.path| - 1], p.blob)
            && p.blob in store && store[p.blob].kind == BlobKind && f.note(store[p.blob].bytes).Some?
            && var records := f.note(store[p.blob].bytes).value;
               exists n :: 0 <= n < |records| && records[n] == r && r.id == p.id && forall m :: 0 <= m < n ==> records[m].id != p.id
  {
    hide RecordWith, PathLeadsTo, Lists;
    if p.path != [] { LeadsMeans(f, store, p.path, p.blob); }
    if p.blob in store && f.note(store[p.blob].bytes).Some? {
      FirstWith(f.note(store[p.blob].bytes).value, p.id, r);
    }
  }

  lemma {:induction false} LeadsMeans(f: NoteFormat, store: Carried, path: seq<Oid>, blob: Oid)
    requires path != []
    ensures PathLeadsTo(f, store, path, blob) <==>
            (forall i :: 0 <= i < |path| - 1 ==> Lists(f, store, path[i], path[i + 1])) && Lists(f, store, path[|path| - 1], blob)
  {
    forall i | 0 <= i < |path| { ListsIff(f, store, path[i], NextOf(path, blob, i)); }
    hide ItemsAt, Contains, Lists;
    if PathLeadsTo(f, store, path, blob) {
      forall i | 0 <= i < |path| - 1 ensures Lists(f, store, path[i], path[i + 1]) { assert NextOf(path, blob, i) == path[i + 1]; }
      assert NextOf(path, blob, |path| - 1) == blob;
    }
  }

  lemma {:induction false} ListsIff(f: NoteFormat, store: Carried, o: Oid, next: Oid)
    ensures Lists(f, store, o, next) <==> ItemsAt(f, store, o).Some? && Contains(ItemsAt(f, store, o).value, next)
  {}

  lemma {:induction false} FirstWith(records: seq<NoteRecord>, id: FactId, r: NoteRecord)
    ensures RecordWith(records, id) == Some(r) <==>
            exists n :: 0 <= n < |records| && records[n] == r && r.id == id && forall m :: 0 <= m < n ==> records[m].id != id
  {
    hide RecordWith;
    var found := RecordWith(records, id);
    if found.Some? {
      var k :| 0 <= k < |records| && records[k] == found.value && found.value.id == id && forall j :: 0 <= j < k ==> records[j].id != id;
      if n :| 0 <= n < |records| && records[n] == r && r.id == id && forall m :: 0 <= m < n ==> records[m].id != id {
        assert n == k;
      }
    }
  }

  // Two lists with the same members, compared as the verifier compares them: sorted.

  function Insert(ids: seq<nat>, x: nat): seq<nat> {
    if ids == [] || ids[|ids| - 1] <= x then ids + [x]
    else Insert(ids[..|ids| - 1], x) + [ids[|ids| - 1]]
  }

  function SortedIds(ids: seq<nat>): seq<nat> {
    if ids == [] then [] else Insert(SortedIds(ids[..|ids| - 1]), ids[|ids| - 1])
  }

  predicate SameSet(left: seq<nat>, right: seq<nat>) {
    SortedIds(left) == SortedIds(right)
  }

  ghost predicate Ascending(ids: seq<nat>) {
    forall i, j :: 0 <= i < j < |ids| ==> ids[i] <= ids[j]
  }

  lemma {:induction false} InsertFacts(ids: seq<nat>, x: nat)
    requires Ascending(ids)
    ensures multiset(Insert(ids, x)) == multiset(ids) + multiset{x} && Ascending(Insert(ids, x))
    ensures forall y :: y in Insert(ids, x) <==> y in ids || y == x
  {
    if ids != [] && ids[|ids| - 1] > x {
      var rest, last := ids[..|ids| - 1], ids[|ids| - 1];
      assert ids == rest + [last];
      InsertFacts(rest, x);
      forall i | 0 <= i < |Insert(rest, x)| ensures Insert(rest, x)[i] <= last {
        assert Insert(rest, x)[i] in Insert(rest, x);
      }
    }
  }

  lemma {:induction false} SortedIdsFacts(ids: seq<nat>)
    ensures multiset(SortedIds(ids)) == multiset(ids) && Ascending(SortedIds(ids))
  {
    if ids != [] {
      hide Ascending, Insert;
      SortedIdsFacts(ids[..|ids| - 1]);
      InsertFacts(SortedIds(ids[..|ids| - 1]), ids[|ids| - 1]);
      assert ids == ids[..|ids| - 1] + [ids[|ids| - 1]];
    } else {
      assert SortedIds(ids) == [];
    }
  }

  lemma {:induction false} OneAscent(a: seq<nat>, b: seq<nat>)
    requires multiset(a) == multiset(b) && Ascending(a) && Ascending(b)
    ensures a == b
    decreases |a|
  {
    hide Ascending;
    SameSize(a, b);
    if a != [] {
      var n := |a| - 1;
      LastIsGreatest(a, b[n]);
      LastIsGreatest(b, a[n]);
      FirstOnes(a);
      FirstOnes(b);
      SameWithout(multiset(a[..n]), multiset(b[..n]), a[n]);
      OneAscent(a[..n], b[..n]);
      assert a == a[..n] + [a[n]] && b == b[..n] + [b[n]];
    }
  }

  lemma {:induction false} SameSize(a: seq<nat>, b: seq<nat>)
    requires multiset(a) == multiset(b)
    ensures |a| == |b| && (a != [] ==> a[|a| - 1] in b && b[|b| - 1] in a)
  {
    assert |a| == |multiset(a)| == |multiset(b)| == |b|;
    if a != [] { assert a[|a| - 1] in multiset(a) && b[|b| - 1] in multiset(b); }
  }

  lemma {:induction false} LastIsGreatest(ids: seq<nat>, x: nat)
    requires Ascending(ids) && x in ids
    ensures x <= ids[|ids| - 1]
  {
    var i :| 0 <= i < |ids| && ids[i] == x;
  }

  lemma {:induction false} FirstOnes(ids: seq<nat>)
    requires Ascending(ids) && ids != []
    ensures Ascending(ids[..|ids| - 1]) && multiset(ids) == multiset(ids[..|ids| - 1]) + multiset{ids[|ids| - 1]}
  {
    assert ids == ids[..|ids| - 1] + [ids[|ids| - 1]];
  }

  lemma {:induction false} SameWithout(a: multiset<nat>, b: multiset<nat>, x: nat)
    requires a + multiset{x} == b + multiset{x}
    ensures a == b
  {
    assert a == a + multiset{x} - multiset{x} == b + multiset{x} - multiset{x} == b;
  }

  /** Comparing sorted lists tells exactly whether they have the same members,
      as often. */
  lemma {:induction false} SameSetIff(left: seq<nat>, right: seq<nat>)
    ensures SameSet(left, right) <==> multiset(left) == multiset(right)
  {
    hide SortedIds, Ascending;
    SortedIdsFacts(left);
    SortedIdsFacts(right);
    if multiset(left) == multiset(right) { OneAscent(SortedIds(left), SortedIds(right)); }
  }

  /** The bundle claims exactly what that record says, in whatever order. */
  ghost predicate SaysTheSame(claims: seq<Claim>, r: NoteRecord) {
    match ClaimWith(claims, r.id)
    case None => r.absorbedCommits == [] && r.absorbedChanges == []
    case Some(c) =>
      multiset(c.absorbedCommits) == multiset(r.absorbedCommits) && multiset(c.absorbedChanges) == multiset(r.absorbedChanges)
  }

  /** Follows one inclusion proof through carried objects. */
  method VerifyReceipt(f: NoteFormat, carried: Carried, tip: Oid, p: Inclusion, claims: seq<Claim>) returns (absorbs: bool)
    ensures absorbs <==> exists r: NoteRecord :: Holds(f, carried, tip, p, r) && r.id == p.id && r.valid && SaysTheSame(claims, r)
  {
    var root := RootAt(f, carried, tip);
    if root.None? || p.path == [] || p.path[0] != root.value { return false; }
    for i := 0 to |p.path|
      invariant forall j :: 0 <= j < i ==>
                  ItemsAt(f, carried, p.path[j]).Some? && Contains(ItemsAt(f, carried, p.path[j]).value, NextOf(p.path, p.blob, j))
    {
      var items := ItemsAt(f, carried, p.path[i]);
      if items.None? || !Contains(items.value, NextOf(p.path, p.blob, i)) { return false; }
    }
    if p.blob !in carried || carried[p.blob].kind != BlobKind { return false; }
    var container := f.note(carried[p.blob].bytes);
    if container.None? { return false; }
    var record := RecordWith(container.value, p.id);
    if record.None? || !record.value.valid { return false; }
    assert Holds(f, carried, tip, p, record.value);
    var claimed := ClaimWith(claims, p.id);
    var commits, changes := if claimed.Some? then claimed.value.absorbedCommits else [], if claimed.Some? then claimed.value.absorbedChanges else [];
    SameSetIff(commits, record.value.absorbedCommits);
    SameSetIff(changes, record.value.absorbedChanges);
    NothingClaimed(record.value.absorbedCommits);
    NothingClaimed(record.value.absorbedChanges);
    absorbs := SameSet(commits, record.value.absorbedCommits) && SameSet(changes, record.value.absorbedChanges);
  }

  lemma {:induction false} NothingClaimed(ids: seq<nat>)
    ensures multiset(ids) == multiset([]) <==> ids == []
  {
    assert |multiset(ids)| == |ids|;
  }

  /** A store that keeps every tree and blob its trees and commits name. */
  ghost predicate Complete(f: NoteFormat, repo: Carried) {
    && Hashed(f.format, repo)
    && (forall o :: RootAt(f, repo, o).Some? ==> RootAt(f, repo, o).value in repo)
    && forall o, x :: ItemsAt(f, repo, o).Some? && Contains(ItemsAt(f, repo, o).value, x) ==> x in repo
  }

  /** Whatever a producer put in a bundle: a receipt whose inclusion verifies is a
      record that the notes tip of the real repository holds. */
  lemma {:induction false} IncludedReceiptIsReal(f: NoteFormat, repo: Carried, carried: Carried, tip: Oid, p: Inclusion, r: NoteRecord)
    requires CollisionFree(f.format) && Complete(f, repo) && Hashed(f.format, carried) && tip in repo
    requires Holds(f, carried, tip, p, r)
    ensures Holds(f, repo, tip, p, r)
  {
    RealRoot(f, repo, carried, tip);
    CarriedPathIsReal(f, repo, carried, p.path, p.blob);
    CarriedIsReal(f.format, repo, carried, p.blob);
  }

  lemma {:induction false} RealRoot(f: NoteFormat, repo: Carried, carried: Carried, tip: Oid)
    requires CollisionFree(f.format) && Complete(f, repo) && Hashed(f.format, carried) && tip in repo && RootAt(f, carried, tip).Some?
    ensures RootAt(f, repo, tip) == RootAt(f, carried, tip) && RootAt(f, repo, tip).value in repo
  {
    CarriedIsReal(f.format, repo, carried, tip);
  }

  lemma {:induction false} RealItems(f: NoteFormat, repo: Carried, carried: Carried, o: Oid, next: Oid)
    requires CollisionFree(f.format) && Complete(f, repo) && Hashed(f.format, carried) && o in repo
    requires ItemsAt(f, carried, o).Some? && Contains(ItemsAt(f, carried, o).value, next)
    ensures ItemsAt(f, repo, o) == ItemsAt(f, carried, o) && next in repo
  {
    CarriedIsReal(f.format, repo, carried, o);
  }

  lemma {:induction false} CarriedPathIsReal(f: NoteFormat, repo: Carried, carried: Carried, path: seq<Oid>, blob: Oid)
    requires CollisionFree(f.format) && Complete(f, repo) && Hashed(f.format, carried)
    requires PathLeadsTo(f, carried, path, blob) && path[0] in repo
    ensures PathLeadsTo(f, repo, path, blob) && blob in repo
  {
    hide CollisionFree, Complete, Hashed, Contains, ItemsAt;
    var i := 0;
    while i < |path|
      invariant 0 <= i <= |path|
      invariant (if i < |path| then path[i] else blob) in repo
      invariant forall j :: 0 <= j < i ==> ItemsAt(f, repo, path[j]).Some? && Contains(ItemsAt(f, repo, path[j]).value, NextOf(path, blob, j))
    {
      RealItems(f, repo, carried, path[i], NextOf(path, blob, i));
      i := i + 1;
    }
  }

  // The verifier, over all the receipts of a bundle.

  /** One inclusion is accepted: the store holds the record it names, the record
      is valid and says what the evidence says. */
  ghost predicate Accepted(f: NoteFormat, carried: Carried, tip: Oid, p: Inclusion, claims: seq<Claim>) {
    exists r: NoteRecord :: Holds(f, carried, tip, p, r) && r.id == p.id && r.valid && SaysTheSame(claims, r)
  }

  method VerifyReceipts(f: NoteFormat, carried: Carried, tip: Option<Oid>, inclusions: seq<Inclusion>, claims: seq<Claim>)
    returns (problems: nat)
    ensures problems == 0 <==>
            inclusions == [] || (tip.Some? && forall i :: 0 <= i < |inclusions| ==> Accepted(f, carried, tip.value, inclusions[i], claims))
  {
    if tip.None? { return |inclusions|; }
    problems := 0;
    for i := 0 to |inclusions|
      invariant problems == 0 <==> forall j :: 0 <= j < i ==> Accepted(f, carried, tip.value, inclusions[j], claims)
    {
      var absorbs := VerifyReceipt(f, carried, tip.value, inclusions[i], claims);
      if !absorbs { problems := problems + 1; }
    }
  }

  // The producer.

  function FirstPrefix(items: seq<Item>, remaining: string): (r: Option<nat>)
    ensures match r
            case None => forall i :: 0 <= i < |items| ==> !(items[i].name <= remaining)
            case Some(k) => k < |items| && items[k].name <= remaining && forall i :: 0 <= i < k ==> !(items[i].name <= remaining)
  {
    if items == [] then None
    else if items[0].name <= remaining then Some(0)
    else
      match FirstPrefix(items[1..], remaining)
      case None => None
      case Some(i) => Some(i + 1)
  }

  /** Git never writes an entry without a name. */
  ghost predicate NamesGiven(f: NoteFormat, repo: Carried) {
    forall o :: ItemsAt(f, repo, o).Some? ==>
      forall i :: 0 <= i < |ItemsAt(f, repo, o).value| ==> ItemsAt(f, repo, o).value[i].name != ""
  }

  /** In no tree of a path is the name of one entry the beginning of another's,
      as in a notes tree that Git fans out itself. */
  ghost predicate PrefixFreeAlong(f: NoteFormat, store: Carried, path: seq<Oid>) {
    forall k :: 0 <= k < |path| ==> PrefixFreeAt(f, store, path[k])
  }

  ghost predicate PrefixFreeAt(f: NoteFormat, store: Carried, o: Oid) {
    ItemsAt(f, store, o).Some? ==>
      var items := ItemsAt(f, store, o).value;
      forall i, j :: 0 <= i < |items| && 0 <= j < |items| && i != j ==> !(items[i].name <= items[j].name)
  }

  function Spelled(names: seq<string>): string {
    if names == [] then "" else names[0] + Spelled(names[1..])
  }

  /** Each tree of a path holds the next object under its part of the name. */
  ghost predicate NamedPath(f: NoteFormat, store: Carried, path: seq<Oid>, blob: Oid, names: seq<string>) {
    && |names| == |path|
    && forall i :: 0 <= i < |path| ==>
         ItemsAt(f, store, path[i]).Some? && Item(names[i], NextOf(path, blob, i)) in ItemsAt(f, store, path[i]).value
  }

  /** A note: a path from the root of the notes tip whose names spell the attachment. */
  ghost predicate IsNote(f: NoteFormat, store: Carried, tip: Oid, attachment: string, path: seq<Oid>, blob: Oid) {
    && path != [] && RootAt(f, store, tip) == Some(path[0])
    && exists names :: NamedPath(f, store, path, blob, names) && Spelled(names) == attachment
  }

  /** Where following the first entry that begins the rest of a name leads. */
  ghost function Descend(f: NoteFormat, store: Carried, current: Oid, remaining: string): Option<(seq<Oid>, Oid)>
    requires NamesGiven(f, store)
    decreases |remaining|
  {
    match ItemsAt(f, store, current)
    case None => None
    case Some(items) =>
      match FirstPrefix(items, remaining)
      case None => None
      case Some(i) =>
        if items[i].name == remaining then Some(([current], items[i].oid))
        else
          match Descend(f, store, items[i].oid, remaining[|items[i].name|..])
          case None => None
          case Some((trees, blob)) => Some(([current] + trees, blob))
  }

  /** Each entry on the path is the first of its tree whose name begins what is
      left of the attachment's. */
  ghost predicate Unshadowed(f: NoteFormat, store: Carried, path: seq<Oid>, blob: Oid, names: seq<string>)
    decreases |path|
  {
    && |names| == |path|
    && (path != [] ==>
          && ItemsAt(f, store, path[0]).Some?
          && var items, first := ItemsAt(f, store, path[0]).value, FirstPrefix(ItemsAt(f, store, path[0]).value, Spelled(names));
             && first.Some? && items[first.value] == Item(names[0], NextOf(path, blob, 0))
             && Unshadowed(f, store, path[1..], blob, names[1..]))
  }

  /** A note that no earlier entry hides. */
  ghost predicate IsFirstNote(f: NoteFormat, store: Carried, tip: Oid, attachment: string, path: seq<Oid>, blob: Oid) {
    && path != [] && RootAt(f, store, tip) == Some(path[0])
    && exists names :: NamedPath(f, store, path, blob, names) && Spelled(names) == attachment && Unshadowed(f, store, path, blob, names)
  }

  lemma {:induction false} DescendIsNamed(f: NoteFormat, store: Carried, current: Oid, remaining: string) returns (names: seq<string>)
    requires NamesGiven(f, store) && Descend(f, store, current, remaining).Some?
    ensures var r := Descend(f, store, current, remaining).value;
            r.0 != [] && r.0[0] == current && NamedPath(f, store, r.0, r.1, names) && Spelled(names) == remaining &&
            Unshadowed(f, store, r.0, r.1, names)
    decreases |remaining|
  {
    var items := ItemsAt(f, store, current).value;
    var item := items[FirstPrefix(items, remaining).value];
    assert item == Item(item.name, item.oid) && item in items;
    if item.name == remaining {
      names := [item.name];
      assert names[1..] == [] && item.name + "" == remaining;
      assert [current][1..] == [] && Spelled(names) == remaining;
      assert Unshadowed(f, store, [], item.oid, []);
    } else {
      var rest := DescendIsNamed(f, store, item.oid, remaining[|item.name|..]);
      names := [item.name] + rest;
      assert names[1..] == rest;
      var r, below := Descend(f, store, current, remaining).value, Descend(f, store, item.oid, remaining[|item.name|..]).value;
      OneAbove(f, store, current, item, below.0, below.1, rest);
      assert item.name + Spelled(rest) == remaining && Spelled(names) == remaining;
      assert r.0[1..] == below.0;
    }
  }

  lemma {:induction false} OneAbove(f: NoteFormat, store: Carried, current: Oid, item: Item, path: seq<Oid>, blob: Oid, names: seq<string>)
    requires ItemsAt(f, store, current).Some? && item in ItemsAt(f, store, current).value
    requires path != [] && path[0] == item.oid && NamedPath(f, store, path, blob, names)
    ensures NamedPath(f, store, [current] + path, blob, [item.name] + names)
  {
    var longer, more := [current] + path, [item.name] + names;
    forall i | 0 <= i < |longer|
      ensures ItemsAt(f, store, longer[i]).Some? && Item(more[i], NextOf(longer, blob, i)) in ItemsAt(f, store, longer[i]).value
    {
      if i == 0 {
        assert NextOf(longer, blob, 0) == item.oid && Item(item.name, item.oid) == item;
      } else {
        assert NextOf(longer, blob, i) == NextOf(path, blob, i - 1);
      }
    }
  }

  /** The descent follows a path that nothing hides to its end. */
  lemma {:induction false} DescendFollows(f: NoteFormat, store: Carried, path: seq<Oid>, blob: Oid, names: seq<string>)
    requires NamesGiven(f, store) && path != [] && NamedPath(f, store, path, blob, names) && Unshadowed(f, store, path, blob, names)
    ensures Descend(f, store, path[0], Spelled(names)) == Some((path, blob))
    decreases |path|
  {
    hide NamesGiven, NamedPath, Spelled;
    SpelledAll(names);
    NamedHere(f, store, path, blob, names);
    if |path| == 1 {
      assert path == [path[0]];
    } else {
      DescendFollows(f, store, path[1..], blob, names[1..]);
      SpelledIsNotEmpty(f, store, path[1..], blob, names[1..]);
      assert path == [path[0]] + path[1..];
    }
  }

  /** Along prefix-free trees nothing is hidden. */
  lemma {:induction false} NothingIsHidden(f: NoteFormat, store: Carried, path: seq<Oid>, blob: Oid, names: seq<string>)
    requires PrefixFreeAlong(f, store, path) && NamedPath(f, store, path, blob, names)
    ensures Unshadowed(f, store, path, blob, names)
    decreases |path|
  {
    hide PrefixFreeAt;
    if path != [] {
      assert PrefixFreeAt(f, store, path[0]);
      SpelledAll(names);
      NamedHere(f, store, path, blob, names);
      var k := TheOnlyPrefix(f, store, path[0], names[0], NextOf(path, blob, 0), Spelled(names));
      NothingIsHidden(f, store, path[1..], blob, names[1..]);
    }
  }

  lemma {:induction false} SpelledAll(names: seq<string>)
    requires names != []
    ensures names[0] <= Spelled(names) && Spelled(names)[|names[0]|..] == Spelled(names[1..])
    ensures Spelled(names[1..]) == "" ==> Spelled(names) == names[0]
    ensures Spelled(names[1..]) != "" ==> Spelled(names) != names[0]
  {
    assert names[0] + "" == names[0];
  }

  lemma {:induction false} NamedHere(f: NoteFormat, store: Carried, path: seq<Oid>, blob: Oid, names: seq<string>)
    requires path != [] && NamedPath(f, store, path, blob, names)
    ensures ItemsAt(f, store, path[0]).Some? && Item(names[0], NextOf(path, blob, 0)) in ItemsAt(f, store, path[0]).value
    ensures NamedPath(f, store, path[1..], blob, names[1..])
    ensures |path| == 1 ==> Spelled(names[1..]) == "" && NextOf(path, blob, 0) == blob
    ensures |path| > 1 ==> NextOf(path, blob, 0) == path[1..][0]
  {
    var below, fewer := path[1..], names[1..];
    forall i | 0 <= i < |below|
      ensures ItemsAt(f, store, below[i]).Some? && Item(fewer[i], NextOf(below, blob, i)) in ItemsAt(f, store, below[i]).value
    {
      assert NextOf(below, blob, i) == NextOf(path, blob, i + 1);
    }
  }

  lemma {:induction false} TheOnlyPrefix(f: NoteFormat, store: Carried, o: Oid, name: string, next: Oid, remaining: string) returns (k: nat)
    requires PrefixFreeAt(f, store, o) && ItemsAt(f, store, o).Some? && Item(name, next) in ItemsAt(f, store, o).value && name <= remaining
    ensures var items := ItemsAt(f, store, o).value;
            k < |items| && items[k] == Item(name, next) && FirstPrefix(items, remaining) == Some(k)
  {
    var items := ItemsAt(f, store, o).value;
    k :| 0 <= k < |items| && items[k] == Item(name, next);
    var first := FirstPrefix(items, remaining).value;
    BothBegin(items[first].name, items[k].name, remaining);
  }

  lemma {:induction false} BothBegin(a: string, b: string, whole: string)
    requires a <= whole && b <= whole
    ensures a <= b || b <= a
  {
    assert forall i :: 0 <= i < |a| ==> a[i] == whole[i];
    assert forall i :: 0 <= i < |b| ==> b[i] == whole[i];
  }

  lemma {:induction false} SpelledIsNotEmpty(f: NoteFormat, store: Carried, path: seq<Oid>, blob: Oid, names: seq<string>)
    requires NamesGiven(f, store) && path != [] && NamedPath(f, store, path, blob, names)
    ensures Spelled(names) != ""
  {
    var items := ItemsAt(f, store, path[0]).value;
    var k :| 0 <= k < |items| && items[k] == Item(names[0], NextOf(path, blob, 0));
  }

  lemma {:induction false} NamedPathLeads(f: NoteFormat, store: Carried, path: seq<Oid>, blob: Oid, names: seq<string>)
    requires path != [] && NamedPath(f, store, path, blob, names)
    ensures PathLeadsTo(f, store, path, blob)
  {
    forall i | 0 <= i < |path| ensures Contains(ItemsAt(f, store, path[i]).value, NextOf(path, blob, i)) {
      var items := ItemsAt(f, store, path[i]).value;
      var k :| 0 <= k < |items| && items[k] == Item(names[i], NextOf(path, blob, i));
    }
  }

  /** Walks down from the root of the notes tip, spending the attachment's name.
      What it returns is a note of the attachment, by a path the verifier follows.
      It finds exactly the note that no earlier entry hides; along prefix-free
      trees that is any note there is. */
  method NotePath(f: NoteFormat, repo: Carried, tip: Oid, attachment: string) returns (r: Option<(seq<Oid>, Oid)>)
    requires NamesGiven(f, repo)
    ensures r.Some? ==> IsNote(f, repo, tip, attachment, r.value.0, r.value.1) && PathLeadsTo(f, repo, r.value.0, r.value.1)
    ensures forall path: seq<Oid>, blob: Oid :: IsFirstNote(f, repo, tip, attachment, path, blob) <==> r == Some((path, blob))
    ensures forall path: seq<Oid>, blob: Oid ::
              IsNote(f, repo, tip, attachment, path, blob) && PrefixFreeAlong(f, repo, path) ==> r == Some((path, blob))
  {
    hide NamedPath, Spelled, PathLeadsTo, Descend, PrefixFreeAlong, Unshadowed, IsNote, IsFirstNote;
    var root := RootAt(f, repo, tip);
    if root.None? {
      NoRootNoNote(f, repo, tip, attachment);
      return None;
    }
    var trees: seq<Oid> := [];
    var current, remaining := root.value, attachment;
    Continues(f, repo, [], current, remaining);
    r := None;
    while true
      invariant r == None && Descend(f, repo, root.value, attachment) == Rejoined(trees, Descend(f, repo, current, remaining))
      decreases |remaining|
    {
      OneDown(f, repo, current, remaining);
      var items := ItemsAt(f, repo, current);
      if items.None? { break; }
      var found := FirstPrefix(items.value, remaining);
      if found.None? { break; }
      var item := items.value[found.value];
      if item.name == remaining {
        r := Some((trees + [current], item.oid));
        break;
      }
      Continues(f, repo, trees + [current], item.oid, remaining[|item.name|..]);
      RejoinMore(trees, current, Descend(f, repo, item.oid, remaining[|item.name|..]));
      trees := trees + [current];
      remaining := remaining[|item.name|..];
      current := item.oid;
    }
    assert r == Descend(f, repo, root.value, attachment);
    if r.Some? { FoundIsNote(f, repo, tip, attachment, root.value, r.value.0, r.value.1); }
    FirstNotesAreFound(f, repo, tip, attachment, root.value);
    NotesAreFound(f, repo, tip, attachment);
  }

  lemma {:induction false} NoRootNoNote(f: NoteFormat, store: Carried, tip: Oid, attachment: string)
    requires RootAt(f, store, tip).None?
    ensures forall path: seq<Oid>, blob: Oid :: !IsNote(f, store, tip, attachment, path, blob) && !IsFirstNote(f, store, tip, attachment, path, blob)
  {}

  ghost function Rejoined(trees: seq<Oid>, below: Option<(seq<Oid>, Oid)>): Option<(seq<Oid>, Oid)> {
    match below
    case None => None
    case Some((path, blob)) => Some((trees + path, blob))
  }

  lemma {:induction false} RejoinMore(trees: seq<Oid>, current: Oid, below: Option<(seq<Oid>, Oid)>)
    ensures Rejoined(trees, Rejoined([current], below)) == Rejoined(trees + [current], below)
  {
    if below.Some? { assert trees + ([current] + below.value.0) == trees + [current] + below.value.0; }
  }

  lemma {:induction false} Continues(f: NoteFormat, store: Carried, trees: seq<Oid>, current: Oid, remaining: string)
    requires NamesGiven(f, store)
    ensures trees == [] ==> Rejoined(trees, Descend(f, store, current, remaining)) == Descend(f, store, current, remaining)
  {
    hide Descend;
    var below := Descend(f, store, current, remaining);
    if below.Some? { assert [] + below.value.0 == below.value.0; }
  }

  lemma {:induction false} OneDown(f: NoteFormat, store: Carried, current: Oid, remaining: string)
    requires NamesGiven(f, store)
    ensures Descend(f, store, current, remaining) ==
              match ItemsAt(f, store, current)
              case None => None
              case Some(items) =>
                match FirstPrefix(items, remaining)
                case None => None
                case Some(i) =>
                  if items[i].name == remaining then Some(([current], items[i].oid))
                  else Rejoined([current], Descend(f, store, items[i].oid, remaining[|items[i].name|..]))
  {}

  lemma {:induction false} FoundIsNote(f: NoteFormat, store: Carried, tip: Oid, attachment: string, root: Oid, path: seq<Oid>, blob: Oid)
    requires NamesGiven(f, store) && RootAt(f, store, tip) == Some(root) && Descend(f, store, root, attachment) == Some((path, blob))
    ensures IsNote(f, store, tip, attachment, path, blob) && PathLeadsTo(f, store, path, blob)
  {
    hide Descend, NamedPath, Spelled;
    var names := DescendIsNamed(f, store, root, attachment);
    NamedPathLeads(f, store, path, blob, names);
  }

  lemma {:induction false} FirstNotesAreFound(f: NoteFormat, store: Carried, tip: Oid, attachment: string, root: Oid)
    requires NamesGiven(f, store) && RootAt(f, store, tip) == Some(root)
    ensures forall path: seq<Oid>, blob: Oid ::
              IsFirstNote(f, store, tip, attachment, path, blob) <==> Descend(f, store, root, attachment) == Some((path, blob))
  {
    hide Descend, NamedPath, Spelled, Unshadowed;
    forall path: seq<Oid>, blob: Oid
      ensures IsFirstNote(f, store, tip, attachment, path, blob) <==> Descend(f, store, root, attachment) == Some((path, blob))
    {
      if IsFirstNote(f, store, tip, attachment, path, blob) {
        var names :| NamedPath(f, store, path, blob, names) && Spelled(names) == attachment && Unshadowed(f, store, path, blob, names);
        DescendFollows(f, store, path, blob, names);
      }
      if Descend(f, store, root, attachment) == Some((path, blob)) {
        var names := DescendIsNamed(f, store, root, attachment);
      }
    }
  }

  lemma {:induction false} NotesAreFound(f: NoteFormat, store: Carried, tip: Oid, attachment: string)
    ensures forall path: seq<Oid>, blob: Oid ::
              IsNote(f, store, tip, attachment, path, blob) && PrefixFreeAlong(f, store, path) ==> IsFirstNote(f, store, tip, attachment, path, blob)
  {
    hide NamedPath, Spelled, PrefixFreeAlong, Unshadowed;
    forall path: seq<Oid>, blob: Oid | IsNote(f, store, tip, attachment, path, blob) && PrefixFreeAlong(f, store, path)
      ensures IsFirstNote(f, store, tip, attachment, path, blob)
    {
      var names :| NamedPath(f, store, path, blob, names) && Spelled(names) == attachment;
      NothingIsHidden(f, store, path, blob, names);
    }
  }

  /** A tree that holds a subtree `a` before a note `ab`. */
  const MIXED_FORMAT := NoteFormat(
    Format((r: Raw) => 0, (n: nat) => ParsedCommit(Some(4), [], None, 0), (o: Oid) => 0),
    (o: Oid) => "ab",
    (n: nat) => if n == 1 then [Item("a", 7), Item("ab", 8)] else [],
    (n: nat) => if n == 3 then Some([NoteRecord(5, true, [2], [])]) else None)
  const MIXED_NOTES: Carried := map[0 := Raw(CommitKind, 0), 4 := Raw(TreeKind, 1), 7 := Raw(TreeKind, 2), 8 := Raw(BlobKind, 3)]

  /** A note can be hidden: the subtree is entered, and what is left is not there. */
  lemma {:induction false} MixedTreeHidesANote()
    ensures NamesGiven(MIXED_FORMAT, MIXED_NOTES) && IsNote(MIXED_FORMAT, MIXED_NOTES, 0, "ab", [4], 8)
    ensures forall path: seq<Oid>, blob: Oid :: !IsFirstNote(MIXED_FORMAT, MIXED_NOTES, 0, "ab", path, blob)
  {
    var f, store := MIXED_FORMAT, MIXED_NOTES;
    var items := ItemsAt(f, store, 4).value;
    assert items == [Item("a", 7), Item("ab", 8)];
    assert ["ab"][1..] == [] && "ab" + "" == "ab" && Spelled(["ab"]) == "ab";
    assert items[1] == Item("ab", 8) && NamedPath(f, store, [4], 8, ["ab"]);
    assert items[0].name <= "ab" && FirstPrefix(items, "ab") == Some(0);
    assert ItemsAt(f, store, 7) == Some([]);
    assert Descend(f, store, 7, "ab"[1..]) == None;
    assert Descend(f, store, 4, "ab") == None;
    FirstNotesAreFound(f, store, 0, "ab", 4);
  }
}
