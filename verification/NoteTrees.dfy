/** A notes tree as Git stores it: attachments are hex names, flat or fanned out
    into two-digit directories at any depth, mixed with entries that are not
    notes at all. */
module NoteTrees {
  import opened Git
  import opened NoteRecords

  datatype Object =
    | File(executable: bool, oid: Oid)
    | Symlink(oid: Oid)
    | Submodule(oid: Oid)
    | Directory(entries: seq<TreeEntry>)

  datatype TreeEntry = TreeEntry(name: string, target: Object)

  type Path = seq<string>

  // Everything a tree holds, counted by any weight a reader gives its leaves.

  function Total(entries: seq<TreeEntry>, path: Path, w: (Path, Object) -> nat): nat
    decreases entries, 0
  {
    if entries == [] then 0
    else Weight(entries[0], path, w) + Total(entries[1..], path, w)
  }

  function Weight(e: TreeEntry, path: Path, w: (Path, Object) -> nat): nat
    decreases e, 0
  {
    if e.target.Directory? then Total(e.target.entries, path + [e.name], w)
    else w(path + [e.name], e.target)
  }

  lemma {:induction false} TotalAppend(entries: seq<TreeEntry>, e: TreeEntry, path: Path, w: (Path, Object) -> nat)
    ensures Total(entries + [e], path, w) == Total(entries, path, w) + Weight(e, path, w)
  {
    if entries != [] {
      assert (entries + [e])[1..] == entries[1..] + [e];
      TotalAppend(entries[1..], e, path, w);
    } else {
      assert ([] + [e])[1..] == [];
    }
  }

  lemma {:induction false} TotalUpdate(entries: seq<TreeEntry>, i: nat, e: TreeEntry, path: Path, w: (Path, Object) -> nat)
    requires i < |entries|
    ensures Total(entries[i := e], path, w) + Weight(entries[i], path, w) ==
            Total(entries, path, w) + Weight(e, path, w)
  {
    if i == 0 {
      assert entries[0 := e][1..] == entries[1..];
    } else {
      assert entries[i := e][1..] == entries[1..][i - 1 := e];
      TotalUpdate(entries[1..], i - 1, e, path, w);
    }
  }

  // Replacing one note.

  predicate HexDigit(c: char) {
    '0' <= c <= '9' || 'a' <= c <= 'f' || 'A' <= c <= 'F'
  }

  predicate Hex(name: string) {
    name != "" && forall i :: 0 <= i < |name| ==> HexDigit(name[i])
  }

  predicate LowerHex(name: string) {
    Hex(name) && forall i :: 0 <= i < |name| ==> !('A' <= name[i] <= 'F')
  }

  function FindExact(entries: seq<TreeEntry>, suffix: string): (r: Option<nat>)
    ensures r.Some? ==> r.value < |entries| && entries[r.value].name == suffix
    ensures r.None? ==> forall i :: 0 <= i < |entries| ==> entries[i].name != suffix
  {
    if entries == [] then None
    else if FindExact(entries[..|entries| - 1], suffix).Some? then FindExact(entries[..|entries| - 1], suffix)
    else if entries[|entries| - 1].name == suffix then Some(|entries| - 1)
    else None
  }

  predicate FansOut(e: TreeEntry, suffix: string) {
    e.target.Directory? && |e.name| == 2 && LowerHex(e.name) && e.name < suffix
  }

  function FindDirectory(entries: seq<TreeEntry>, suffix: string): (r: Option<nat>)
    ensures r.Some? ==> r.value < |entries| && FansOut(entries[r.value], suffix)
    ensures r.None? ==> forall i :: 0 <= i < |entries| ==> !FansOut(entries[i], suffix)
  {
    if entries == [] then None
    else if FindDirectory(entries[..|entries| - 1], suffix).Some? then FindDirectory(entries[..|entries| - 1], suffix)
    else if FansOut(entries[|entries| - 1], suffix) then Some(|entries| - 1)
    else None
  }

  /** Where a note for `suffix` belongs below `path`, and what is there now. */
  function Place(entries: seq<TreeEntry>, suffix: string, path: Path): (Path, Option<Object>)
    decreases |suffix|
  {
    match FindExact(entries, suffix)
    case Some(i) => (path + [suffix], Some(entries[i].target))
    case None =>
      match FindDirectory(entries, suffix)
      case Some(i) => Place(entries[i].target.entries, suffix[2..], path + [entries[i].name])
      case None => (path + [suffix], None)
  }

  /** A regular file or a symbolic link: both read back as blobs. */
  predicate IsBlob(o: Object) {
    o.File? || o.Symlink?
  }

  function Was(place: (Path, Option<Object>), w: (Path, Object) -> nat): nat {
    if place.1.Some? then w(place.0, place.1.value) else 0
  }

  /** Whatever is counted, `after` holds what `before` held except the blob that
      was in the one place a note for `suffix` belongs, and the new one in it. */
  ghost predicate Replaces(before: seq<TreeEntry>, after: seq<TreeEntry>, suffix: string, blob: Oid) {
    forall path, w :: ReplacedBy(before, after, suffix, blob, path, w)
  }

  ghost predicate ReplacedBy(before: seq<TreeEntry>, after: seq<TreeEntry>, suffix: string, blob: Oid,
    path: Path, w: (Path, Object) -> nat)
  {
    var place := Place(before, suffix, path);
    Total(after, path, w) + Was(place, w) == Total(before, path, w) + w(place.0, File(false, blob))
  }

  function Entries(tree: Option<seq<TreeEntry>>): seq<TreeEntry> {
    if tree.Some? then tree.value else []
  }

  /** Puts `blob` where the note for `suffix` belongs, unless something that is
      no blob is there. */
  method ReplaceNote(tree: Option<seq<TreeEntry>>, suffix: string, blob: Oid) returns (r: Option<seq<TreeEntry>>)
    ensures var there := Place(Entries(tree), suffix, []).1;
            r.Some? <==> (there.Some? ==> there.value.File? || there.value.Symlink?)
    ensures r.Some? ==> Replaces(Entries(tree), r.value, suffix, blob)
    ensures r.Some? && Tidy(Entries(tree)) && LowerHex(suffix) && blob != 0 ==> Tidy(r.value)
    decreases |suffix|
  {
    var entries := Entries(tree);
    ghost var before := entries;
    var exact := FindExact(entries, suffix);
    if exact.Some? && !IsBlob(entries[exact.value].target) {
      return None;
    }
    var directory := FindDirectory(entries, suffix);
    if exact.Some? {
      entries := entries[exact.value := entries[exact.value].(target := File(false, blob))];
      forall path, w ensures ReplacedBy(before, entries, suffix, blob, path, w) {
        TotalUpdate(before, exact.value, entries[exact.value], path, w);
      }
      TidyUpdate(before, exact.value, entries[exact.value]);
    } else if directory.Some? {
      var e := entries[directory.value];
      PlaceIgnoresPath(e.target.entries, suffix[2..], [], [] + [e.name]);
      var inner := ReplaceNote(Some(e.target.entries), suffix[2..], blob);
      if inner.None? { return None; }
      entries := entries[directory.value := e.(target := Directory(inner.value))];
      forall path, w ensures ReplacedBy(before, entries, suffix, blob, path, w) {
        TotalUpdate(before, directory.value, entries[directory.value], path, w);
        assert ReplacedBy(e.target.entries, inner.value, suffix[2..], blob, path + [e.name], w);
      }
      TidyFanOut(before, directory.value, suffix, inner.value, blob);
    } else {
      entries := entries + [TreeEntry(suffix, File(false, blob))];
      forall path, w ensures ReplacedBy(before, entries, suffix, blob, path, w) {
        TotalAppend(before, TreeEntry(suffix, File(false, blob)), path, w);
      }
      TidyAppend(before, suffix, blob);
    }
    return Some(entries);
  }

  lemma {:induction false} TidyUpdate(entries: seq<TreeEntry>, i: nat, e: TreeEntry)
    requires i < |entries| && e.name == entries[i].name
    ensures Tidy(entries) && TidyEntry(e) ==> Tidy(entries[i := e])
  {}

  lemma {:induction false} TidyFanOut(entries: seq<TreeEntry>, i: nat, suffix: string, inner: seq<TreeEntry>, blob: Oid)
    requires i < |entries| && FansOut(entries[i], suffix)
    requires Tidy(entries[i].target.entries) && LowerHex(suffix[2..]) && blob != 0 ==> Tidy(inner)
    ensures Tidy(entries) && LowerHex(suffix) && blob != 0 ==>
              Tidy(entries[i := entries[i].(target := Directory(inner))])
  {
    if Tidy(entries) && LowerHex(suffix) && blob != 0 {
      TidyNames(entries, i);
      TidyBelow(entries[i]);
      assert forall k :: 0 <= k < |suffix| - 2 ==> suffix[2..][k] == suffix[k + 2];
      assert TidyEntry(entries[i].(target := Directory(inner)));
      TidyUpdate(entries, i, entries[i].(target := Directory(inner)));
    }
  }

  lemma {:induction false} TidyAppend(entries: seq<TreeEntry>, name: string, blob: Oid)
    requires FindExact(entries, name).None?
    ensures Tidy(entries) && LowerHex(name) && blob != 0 ==> Tidy(entries + [TreeEntry(name, File(false, blob))])
  {}

  lemma {:induction false} PlaceIgnoresPath(entries: seq<TreeEntry>, suffix: string, p: Path, q: Path)
    ensures Place(entries, suffix, p).1 == Place(entries, suffix, q).1
    decreases |suffix|
  {
    if FindExact(entries, suffix).None? && FindDirectory(entries, suffix).Some? {
      var e := entries[FindDirectory(entries, suffix).value];
      PlaceIgnoresPath(e.target.entries, suffix[2..], p + [e.name], q + [e.name]);
    }
  }

  // Which leaves are notes.

  function LowerChar(c: char): char {
    if 'A' <= c <= 'Z' then (c as int - 'A' as int + 'a' as int) as char else c
  }

  function Lower(s: string): (r: string)
    ensures |r| == |s|
  {
    seq(|s|, i requires 0 <= i < |s| => LowerChar(s[i]))
  }

  function Concat(path: Path): string {
    if path == [] then "" else Concat(path[..|path| - 1]) + path[|path| - 1]
  }

  const DIGITS := "0123456789abcdef"
  const CAPITALS := "ABCDEF"

  /** The sixteen digits, the last six in either case, and what folding makes of
      every character. */
  lemma {:induction false} DigitsAre(c: char)
    ensures HexDigit(c) <==> c in DIGITS || c in CAPITALS
    ensures c in DIGITS ==> LowerChar(c) == c
    ensures forall i :: 0 <= i < 6 && CAPITALS[i] == c ==> LowerChar(c) == DIGITS[i + 10]
  {
    if '0' <= c <= '9' { assert DIGITS[c as int - '0' as int] == c; }
    if 'a' <= c <= 'f' { assert DIGITS[c as int - 'a' as int + 10] == c; }
    if 'A' <= c <= 'F' { assert CAPITALS[c as int - 'A' as int] == c; }
  }

  /** Every directory on the way has a two-digit hex name. */
  predicate Fan(path: Path) {
    forall i :: 0 <= i < |path| ==> |path[i]| == 2 && Hex(path[i])
  }

  /** A regular file whose hex path is as wide as an object id is the note of
      the object that path names, in lower case. */
  predicate IsNote(width: nat, path: Path, o: Object) {
    && path != [] && Fan(path[..|path| - 1]) && Hex(path[|path| - 1])
    && |Concat(path)| == width && o.File? && o.oid != 0
  }

  /** Counts the notes of one attachment. */
  function NotesFor(width: nat, attachment: string): (Path, Object) -> nat {
    (path: Path, o: Object) => if IsNote(width, path, o) && Lower(Concat(path)) == attachment then 1 else 0
  }

  /** Counts the notes of one attachment that are one blob. */
  function NoteIs(width: nat, attachment: string, blob: Oid): (Path, Object) -> nat {
    (path: Path, o: Object) =>
      if IsNote(width, path, o) && Lower(Concat(path)) == attachment && o.oid == blob then 1 else 0
  }

  /** The path a note is put on spells its attachment. */
  lemma {:induction false} PlaceSpells(entries: seq<TreeEntry>, suffix: string, path: Path)
    requires Fan(path) && Hex(suffix)
    ensures var p := Place(entries, suffix, path).0;
            p != [] && Concat(p) == Concat(path) + suffix && Fan(p[..|p| - 1]) && Hex(p[|p| - 1])
    decreases |suffix|
  {
    match FindExact(entries, suffix) {
      case Some(i) =>
        assert (path + [suffix])[..|path|] == path;
      case None =>
        match FindDirectory(entries, suffix) {
          case Some(i) =>
            var e := entries[i];
            assert suffix == e.name + suffix[2..];
            assert (path + [e.name])[..|path|] == path;
            assert Concat(path + [e.name]) == Concat(path) + e.name;
            PlaceSpells(e.target.entries, suffix[2..], path + [e.name]);
          case None =>
            assert (path + [suffix])[..|path|] == path;
        }
    }
  }

  lemma {:induction false} LowerKeepsLower(s: string)
    requires LowerHex(s)
    ensures Lower(s) == s
  {}

  lemma {:induction false} WeightWithin(entries: seq<TreeEntry>, i: nat, path: Path, w: (Path, Object) -> nat)
    requires i < |entries|
    ensures Weight(entries[i], path, w) <= Total(entries, path, w)
  {
    if i > 0 { WeightWithin(entries[1..], i - 1, path, w); }
  }

  lemma {:induction false} WasCounted(entries: seq<TreeEntry>, suffix: string, path: Path, w: (Path, Object) -> nat)
    requires var there := Place(entries, suffix, path).1; there.Some? ==> IsBlob(there.value)
    ensures Was(Place(entries, suffix, path), w) <= Total(entries, path, w)
    decreases |suffix|
  {
    match FindExact(entries, suffix) {
      case Some(i) => WeightWithin(entries, i, path, w);
      case None =>
        match FindDirectory(entries, suffix) {
          case Some(i) =>
            WasCounted(entries[i].target.entries, suffix[2..], path + [entries[i].name], w);
            WeightWithin(entries, i, path, w);
          case None =>
        }
    }
  }

  /** Replacing a note touches no other attachment, puts the new blob on its
      own, and leaves exactly one note there if and only if every note the
      attachment had was the one in the place being written. */
  lemma {:induction false} ReplacesOneNote(before: seq<TreeEntry>, after: seq<TreeEntry>, attachment: string, blob: Oid)
    requires Replaces(before, after, attachment, blob) && LowerHex(attachment) && blob != 0
    requires var there := Place(before, attachment, []).1; there.Some? ==> IsBlob(there.value)
    ensures forall a, b :: a != attachment ==>
              Total(after, [], NoteIs(|attachment|, a, b)) == Total(before, [], NoteIs(|attachment|, a, b))
    ensures Total(after, [], NoteIs(|attachment|, attachment, blob)) >= 1
    ensures Total(after, [], NotesFor(|attachment|, attachment)) == 1 <==>
            Total(before, [], NotesFor(|attachment|, attachment)) ==
            Was(Place(before, attachment, []), NotesFor(|attachment|, attachment))
  {
    hide Total, Place;
    var width := |attachment|;
    var place := Place(before, attachment, []);
    PlaceSpells(before, attachment, []);
    assert Concat([]) == "";
    LowerKeepsLower(attachment);
    assert IsNote(width, place.0, File(false, blob));
    assert ReplacedBy(before, after, attachment, blob, [], NotesFor(width, attachment));
    assert ReplacedBy(before, after, attachment, blob, [], NoteIs(width, attachment, blob));
    WasCounted(before, attachment, [], NoteIs(width, attachment, blob));
    forall a, b | a != attachment
      ensures Total(after, [], NoteIs(width, a, b)) == Total(before, [], NoteIs(width, a, b))
    {
      assert ReplacedBy(before, after, attachment, blob, [], NoteIs(width, a, b));
    }
  }

  // Trees this tool writes.

  /** Names are used once, hex names are in lower case, and a leaf with a hex
      name is a regular file. */
  predicate Tidy(entries: seq<TreeEntry>)
    decreases entries, 0
  {
    && (forall i, j :: 0 <= i < j < |entries| ==> entries[i].name != entries[j].name)
    && forall i :: 0 <= i < |entries| ==> TidyEntry(entries[i])
  }

  predicate TidyEntry(e: TreeEntry)
    decreases e, 0
  {
    && (Hex(e.name) ==> LowerHex(e.name) && (e.target.Directory? || (e.target.File? && e.target.oid != 0)))
    && (e.target.Directory? ==> Tidy(e.target.entries))
  }

  lemma {:induction false} LowerConcat(a: string, b: string)
    ensures Lower(a + b) == Lower(a) + Lower(b)
  {}

  lemma {:induction false} ConcatSnoc(path: Path, name: string)
    ensures Concat(path + [name]) == Concat(path) + name
    ensures Fan(path + [name]) <==> Fan(path) && |name| == 2 && Hex(name)
    ensures (path + [name])[..|path|] == path
  {
    assert (path + [name])[..|path|] == path;
    assert (path + [name])[|path|] == name;
    if Fan(path + [name]) {
      forall i | 0 <= i < |path| ensures |path[i]| == 2 && Hex(path[i]) { assert (path + [name])[i] == path[i]; }
    }
  }

  /** Nothing below a path that does not begin an attachment is its note. */
  lemma {:induction false} NoneBelow(entries: seq<TreeEntry>, path: Path, width: nat, attachment: string)
    requires !(Fan(path) && Lower(Concat(path)) < attachment)
    ensures Total(entries, path, NotesFor(width, attachment)) == 0
    decreases entries
  {
    if entries != [] {
      var e := entries[0];
      ConcatSnoc(path, e.name);
      LowerConcat(Concat(path), e.name);
      NoneBelow(entries[1..], path, width, attachment);
      if e.target.Directory? {
        NoneBelow(e.target.entries, path + [e.name], width, attachment);
      }
    }
  }

  lemma {:induction false} OnlyOne(entries: seq<TreeEntry>, i: nat, path: Path, w: (Path, Object) -> nat)
    requires forall j :: 0 <= j < |entries| && j != i ==> Weight(entries[j], path, w) == 0
    ensures Total(entries, path, w) == if i < |entries| then Weight(entries[i], path, w) else 0
  {
    if entries != [] {
      forall j | 0 <= j < |entries[1..]| && j != i - 1 ensures Weight(entries[1..][j], path, w) == 0 {
        assert entries[1..][j] == entries[j + 1];
      }
      if i > 0 {
        OnlyOne(entries[1..], i - 1, path, w);
      } else {
        OnlyOne(entries[1..], |entries|, path, w);
      }
    }
  }

  lemma {:induction false} CutPrefix(a: string, b: string, c: string)
    ensures a + b <= a + c ==> b <= c
  {
    if a + b <= a + c {
      forall i | 0 <= i < |b| ensures b[i] == c[i] {
        assert b[i] == (a + b)[|a| + i] == (a + c)[|a| + i];
      }
    }
  }

  lemma {:induction false} OthersHoldNone(e: TreeEntry, suffix: string, path: Path)
    requires Fan(path) && LowerHex(suffix) && TidyEntry(e) && Lower(Concat(path)) == Concat(path)
    requires e.name != suffix && !FansOut(e, suffix)
    ensures Weight(e, path, NotesFor(|Concat(path) + suffix|, Concat(path) + suffix)) == 0
  {
    var attachment := Concat(path) + suffix;
    ConcatSnoc(path, e.name);
    LowerConcat(Concat(path), e.name);
    if Hex(e.name) { LowerKeepsLower(e.name); }
    CutPrefix(Concat(path), e.name, suffix);
    if e.target.Directory? {
      NoneBelow(e.target.entries, path + [e.name], |attachment|, attachment);
    }
  }

  /** In a tidy tree that lists an attachment at most once, its note is in the
      place it belongs. */
  lemma {:induction false} TidyNotesAreInPlace(entries: seq<TreeEntry>, suffix: string, path: Path)
    requires Tidy(entries) && Fan(path) && LowerHex(suffix) && Lower(Concat(path)) == Concat(path)
    requires var there := Place(entries, suffix, path).1; there.Some? ==> IsBlob(there.value)
    requires var attachment := Concat(path) + suffix;
             Total(entries, path, NotesFor(|attachment|, attachment)) <= 1
    ensures var attachment := Concat(path) + suffix;
            Total(entries, path, NotesFor(|attachment|, attachment)) ==
            Was(Place(entries, suffix, path), NotesFor(|attachment|, attachment))
    decreases |suffix|
  {
    hide Total, IsNote, Tidy, TidyEntry, FindExact, FindDirectory;
    var attachment := Concat(path) + suffix;
    var w := NotesFor(|attachment|, attachment);
    match FindExact(entries, suffix) {
      case Some(i) =>
        NoteInPlace(entries, i, suffix, path);
      case None =>
        var d := FindDirectory(entries, suffix);
        forall j | 0 <= j < |entries| && (d.Some? ==> j != d.value) ensures Weight(entries[j], path, w) == 0 {
          TidyNames(entries, j);
          if d.Some? && FansOut(entries[j], suffix) { TidyTwice(entries, d.value, j, suffix); }
          OthersHoldNone(entries[j], suffix, path);
        }
        OnlyOne(entries, if d.Some? then d.value else |entries|, path, w);
        if d.Some? {
          var e := entries[d.value];
          ConcatSnoc(path, e.name);
          assert e.name + suffix[2..] == suffix;
          assert Concat(path + [e.name]) + suffix[2..] == attachment;
          LowerConcat(Concat(path), e.name);
          LowerKeepsLower(e.name);
          TidyNames(entries, d.value);
          TidyBelow(e);
          TidyNotesAreInPlace(e.target.entries, suffix[2..], path + [e.name]);
        }
    }
  }

  lemma {:induction false} TidyNames(entries: seq<TreeEntry>, j: nat)
    requires Tidy(entries) && j < |entries|
    ensures TidyEntry(entries[j])
  {}

  lemma {:induction false} TidyBelow(e: TreeEntry)
    requires TidyEntry(e) && e.target.Directory?
    ensures Tidy(e.target.entries)
  {}

  lemma {:induction false} TidyTwice(entries: seq<TreeEntry>, i: nat, j: nat, suffix: string)
    requires Tidy(entries) && i < |entries| && j < |entries|
    requires FansOut(entries[i], suffix) && FansOut(entries[j], suffix)
    ensures i == j
  {
    assert entries[i].name == entries[j].name;
  }

  lemma {:induction false} NoteInPlace(entries: seq<TreeEntry>, i: nat, suffix: string, path: Path)
    requires Tidy(entries) && Fan(path) && LowerHex(suffix) && Lower(Concat(path)) == Concat(path)
    requires i < |entries| && entries[i].name == suffix && IsBlob(entries[i].target)
    ensures var attachment := Concat(path) + suffix;
            && NotesFor(|attachment|, attachment)(path + [suffix], entries[i].target) == 1
            && Total(entries, path, NotesFor(|attachment|, attachment)) >= 1
  {
    var attachment := Concat(path) + suffix;
    ConcatSnoc(path, suffix);
    LowerConcat(Concat(path), suffix);
    LowerKeepsLower(suffix);
    TidyNames(entries, i);
    WeightWithin(entries, i, path, NotesFor(|attachment|, attachment));
  }

  /** So in the trees this tool writes, replacing a note is a map update. */
  lemma {:induction false} ReplacingIsAMapUpdate(before: seq<TreeEntry>, after: seq<TreeEntry>, attachment: string, blob: Oid)
    requires Replaces(before, after, attachment, blob) && LowerHex(attachment) && blob != 0
    requires var there := Place(before, attachment, []).1; there.Some? ==> IsBlob(there.value)
    requires Tidy(before) && Total(before, [], NotesFor(|attachment|, attachment)) <= 1
    ensures forall a, b :: a != attachment ==>
              Total(after, [], NoteIs(|attachment|, a, b)) == Total(before, [], NoteIs(|attachment|, a, b))
    ensures Total(after, [], NotesFor(|attachment|, attachment)) == 1
    ensures Total(after, [], NoteIs(|attachment|, attachment, blob)) >= 1
  {
    hide Total, Tidy, Place, Replaces;
    assert Concat([]) + attachment == attachment;
    TidyNotesAreInPlace(before, attachment, []);
    ReplacesOneNote(before, after, attachment, blob);
  }

  /** Of any width an object id may have: a name with a digit in upper case is
      listed but not written over. The note to replace stays, and its attachment
      has two. */
  lemma {:induction false} UpperCaseKeepsBoth(name: string)
    requires Hex(name) && !LowerHex(name)
    ensures var before := [TreeEntry(name, File(false, 1))];
            var after := before + [TreeEntry(Lower(name), File(false, 2))];
            && Replaces(before, after, Lower(name), 2)
            && Total(before, [], NotesFor(|name|, Lower(name))) == 1
            && Total(after, [], NotesFor(|name|, Lower(name))) == 2
  {
    var before, lower := [TreeEntry(name, File(false, 1))], Lower(name);
    LowerIsLower(name);
    assert FindExact(before[..0], lower).None? && FindExact(before, lower).None?;
    assert FindDirectory(before[..0], lower).None? && FindDirectory(before, lower).None?;
    AppendReplaces(before, lower, 2);
    CountOne(name, lower, 1);
    CountOne(lower, lower, 2);
    TotalAppend(before, TreeEntry(lower, File(false, 2)), [], NotesFor(|name|, lower));
  }

  lemma {:induction false} LowerIsLower(name: string)
    requires Hex(name)
    ensures LowerHex(Lower(name)) && Lower(Lower(name)) == Lower(name)
    ensures !LowerHex(name) ==> Lower(name) != name
  {
    assert forall i :: 0 <= i < |name| ==> Lower(name)[i] == LowerChar(name[i]);
    if !LowerHex(name) {
      var i :| 0 <= i < |name| && 'A' <= name[i] <= 'F';
      assert Lower(name)[i] != name[i];
    }
  }

  lemma {:induction false} AppendReplaces(before: seq<TreeEntry>, suffix: string, blob: Oid)
    requires FindExact(before, suffix).None? && FindDirectory(before, suffix).None?
    ensures Replaces(before, before + [TreeEntry(suffix, File(false, blob))], suffix, blob)
  {
    forall path, w
      ensures ReplacedBy(before, before + [TreeEntry(suffix, File(false, blob))], suffix, blob, path, w)
    {
      TotalAppend(before, TreeEntry(suffix, File(false, blob)), path, w);
    }
  }

  lemma {:induction false} CountOne(name: string, attachment: string, oid: Oid)
    requires Hex(name) && Lower(name) == attachment && oid != 0
    ensures Total([TreeEntry(name, File(false, oid))], [], NotesFor(|name|, attachment)) == 1
    ensures Weight(TreeEntry(name, File(false, oid)), [], NotesFor(|name|, attachment)) == 1
  {
    hide Lower, Hex;
    ConcatSnoc([], name);
    assert "" + name == name;
    assert [TreeEntry(name, File(false, oid))][1..] == [];
  }

  // Listing every note of a tree with a worklist of subtrees.

  const MAX_TREES := 1024
  const MAX_BYTES := 16 * 1024 * 1024
  const BATCH := 64

  /** A subtree still to be read, and the path to it. */
  datatype Task = Task(entries: seq<TreeEntry>, path: Path)

  type Cost = seq<TreeEntry> -> nat

  /** The listing descends into an entry with a two-digit hex name while the
      path is short of a whole object id. */
  predicate Descends(e: TreeEntry, path: Path, width: nat) {
    e.target.Directory? && Hex(e.name) && |e.name| == 2 && |Concat(path + [e.name])| < width
  }

  /** What the trees under `path` cost that the listing reads. */
  function Visits(entries: seq<TreeEntry>, path: Path, width: nat, cost: Cost): nat
    decreases entries, 1
  {
    cost(entries) + VisitsBelow(entries, path, width, cost)
  }

  function VisitsBelow(entries: seq<TreeEntry>, path: Path, width: nat, cost: Cost): nat
    decreases entries, 0
  {
    if entries == [] then 0
    else VisitsIn(entries[0], path, width, cost) + VisitsBelow(entries[1..], path, width, cost)
  }

  function VisitsIn(e: TreeEntry, path: Path, width: nat, cost: Cost): nat
    decreases e, 0
  {
    if Descends(e, path, width) then Visits(e.target.entries, path + [e.name], width, cost) else 0
  }

  function Held(tasks: seq<Task>, w: (Path, Object) -> nat): nat {
    if tasks == [] then 0 else Total(tasks[0].entries, tasks[0].path, w) + Held(tasks[1..], w)
  }

  function Due(tasks: seq<Task>, width: nat, cost: Cost): nat {
    if tasks == [] then 0 else Visits(tasks[0].entries, tasks[0].path, width, cost) + Due(tasks[1..], width, cost)
  }

  function DueBelow(tasks: seq<Task>, width: nat, cost: Cost): nat {
    if tasks == [] then 0
    else VisitsBelow(tasks[0].entries, tasks[0].path, width, cost) + DueBelow(tasks[1..], width, cost)
  }

  const One: Cost := (entries: seq<TreeEntry>) => 1

  function Has(notes: map<string, Oid>, a: string, b: Oid): nat {
    if a in notes && notes[a] == b then 1 else 0
  }

  function HasAny(notes: map<string, Oid>, a: string): nat {
    if a in notes then 1 else 0
  }

  /** What has been listed and what is still held make up the whole tree. */
  ghost predicate Accounts(root: seq<TreeEntry>, width: nat, notes: map<string, Oid>, open: seq<Task>, pending: seq<Task>) {
    && (forall a, b ::
          Has(notes, a, b) + Held(open, NoteIs(width, a, b)) + Held(pending, NoteIs(width, a, b)) ==
          Total(root, [], NoteIs(width, a, b)))
    && (forall a ::
          HasAny(notes, a) + Held(open, NotesFor(width, a)) + Held(pending, NotesFor(width, a)) ==
          Total(root, [], NotesFor(width, a)))
    && (forall i :: 0 <= i < |open| ==> Fan(open[i].path))
    && (forall i :: 0 <= i < |pending| ==> Fan(pending[i].path))
  }

  /** What the listing has spent and what it is still due make up the whole cost. */
  ghost predicate Spends(root: seq<TreeEntry>, width: nat, cost: Cost, spent: nat, open: seq<Task>, pending: seq<Task>) {
    spent + DueBelow(open, width, cost) + Due(pending, width, cost) == Visits(root, [], width, cost)
  }

  lemma {:induction false} HeldMore(tasks: seq<Task>, more: seq<Task>, w: (Path, Object) -> nat)
    ensures Held(tasks + more, w) == Held(tasks, w) + Held(more, w)
  {
    if tasks == [] {
      assert tasks + more == more;
    } else {
      assert (tasks + more)[1..] == tasks[1..] + more;
      HeldMore(tasks[1..], more, w);
    }
  }

  lemma {:induction false} DueMore(tasks: seq<Task>, more: seq<Task>, width: nat, cost: Cost)
    ensures Due(tasks + more, width, cost) == Due(tasks, width, cost) + Due(more, width, cost)
  {
    if tasks == [] {
      assert tasks + more == more;
    } else {
      assert (tasks + more)[1..] == tasks[1..] + more;
      DueMore(tasks[1..], more, width, cost);
    }
  }

  lemma {:induction false} DueCountsTrees(tasks: seq<Task>, width: nat)
    ensures Due(tasks, width, One) >= |tasks|
  {
    if tasks != [] { DueCountsTrees(tasks[1..], width); }
  }

  /** A weight that counts nothing but notes. */
  ghost predicate CountsNotes(width: nat, w: (Path, Object) -> nat) {
    forall p, o :: w(p, o) > 0 ==> IsNote(width, p, o)
  }

  /** Nothing below a path that is no fan-out, or already as wide as an object
      id, is a note. */
  lemma {:induction false} NoNotesUnder(entries: seq<TreeEntry>, path: Path, width: nat, w: (Path, Object) -> nat)
    requires CountsNotes(width, w) && (!Fan(path) || |Concat(path)| >= width)
    ensures Total(entries, path, w) == 0
    decreases entries
  {
    if entries != [] {
      var e := entries[0];
      ConcatSnoc(path, e.name);
      NoNotesUnder(entries[1..], path, width, w);
      if e.target.Directory? {
        NoNotesUnder(e.target.entries, path + [e.name], width, w);
      } else {
        assert !IsNote(width, path + [e.name], e.target);
      }
    }
  }

  predicate ListsNote(e: TreeEntry, path: Path, width: nat) {
    e.target.File? && e.target.oid != 0 && Hex(e.name) && |Concat(path + [e.name])| == width
  }

  lemma {:induction false} EntryWeight(e: TreeEntry, path: Path, width: nat, w: (Path, Object) -> nat)
    requires Fan(path) && CountsNotes(width, w) && !Descends(e, path, width) && !ListsNote(e, path, width)
    ensures Weight(e, path, w) == 0
  {
    ConcatSnoc(path, e.name);
    if e.target.Directory? {
      NoNotesUnder(e.target.entries, path + [e.name], width, w);
    } else {
      assert !IsNote(width, path + [e.name], e.target);
    }
  }

  lemma {:induction false} SkipEntry(root: seq<TreeEntry>, width: nat, notes: map<string, Oid>, t: Task, rest: seq<Task>, pending: seq<Task>)
    requires t.entries != [] && Accounts(root, width, notes, [t] + rest, pending)
    requires !Descends(t.entries[0], t.path, width) && !ListsNote(t.entries[0], t.path, width)
    ensures Accounts(root, width, notes, [t.(entries := t.entries[1..])] + rest, pending)
  {
    hide Total, Weight;
    var open := [t] + rest;
    var next := [t.(entries := t.entries[1..])] + rest;
    assert open[1..] == rest && next[1..] == rest && open[0] == t;
    forall a, b ensures Held(next, NoteIs(width, a, b)) == Held(open, NoteIs(width, a, b)) {
      EntryWeight(t.entries[0], t.path, width, NoteIs(width, a, b));
      TotalFirst(t.entries, t.path, NoteIs(width, a, b));
    }
    forall a ensures Held(next, NotesFor(width, a)) == Held(open, NotesFor(width, a)) {
      EntryWeight(t.entries[0], t.path, width, NotesFor(width, a));
      TotalFirst(t.entries, t.path, NotesFor(width, a));
    }
    forall i | 0 <= i < |next| ensures Fan(next[i].path) { assert Fan(open[i].path); }
  }

  lemma {:induction false} TotalFirst(entries: seq<TreeEntry>, path: Path, w: (Path, Object) -> nat)
    requires entries != []
    ensures Total(entries, path, w) == Weight(entries[0], path, w) + Total(entries[1..], path, w)
  {}

  lemma {:induction false} PushEntry(root: seq<TreeEntry>, width: nat, notes: map<string, Oid>, t: Task, rest: seq<Task>, pending: seq<Task>)
    requires t.entries != [] && Accounts(root, width, notes, [t] + rest, pending)
    requires Descends(t.entries[0], t.path, width)
    ensures var e := t.entries[0];
            Accounts(root, width, notes, [t.(entries := t.entries[1..])] + rest,
              pending + [Task(e.target.entries, t.path + [e.name])])
  {
    hide Total;
    var e := t.entries[0];
    var task := Task(e.target.entries, t.path + [e.name]);
    var open, next, more := [t] + rest, [t.(entries := t.entries[1..])] + rest, pending + [task];
    assert open[1..] == rest && next[1..] == rest && open[0] == t;
    ConcatSnoc(t.path, e.name);
    forall a, b ensures Held(next, NoteIs(width, a, b)) + Held(more, NoteIs(width, a, b)) ==
                        Held(open, NoteIs(width, a, b)) + Held(pending, NoteIs(width, a, b)) {
      HeldPushed(t, rest, pending, task, NoteIs(width, a, b));
    }
    forall a ensures Held(next, NotesFor(width, a)) + Held(more, NotesFor(width, a)) ==
                     Held(open, NotesFor(width, a)) + Held(pending, NotesFor(width, a)) {
      HeldPushed(t, rest, pending, task, NotesFor(width, a));
    }
    forall i | 0 <= i < |next| ensures Fan(next[i].path) { assert Fan(open[i].path); }
    forall i | 0 <= i < |more| ensures Fan(more[i].path) { assert i < |pending| ==> Fan(pending[i].path); }
  }

  lemma {:induction false} HeldPushed(t: Task, rest: seq<Task>, pending: seq<Task>, task: Task, w: (Path, Object) -> nat)
    requires t.entries != [] && t.entries[0].target.Directory?
    requires task == Task(t.entries[0].target.entries, t.path + [t.entries[0].name])
    ensures Held([t.(entries := t.entries[1..])] + rest, w) + Held(pending + [task], w) ==
            Held([t] + rest, w) + Held(pending, w)
  {
    HeldMore(pending, [task], w);
    assert ([t] + rest)[1..] == rest && ([t.(entries := t.entries[1..])] + rest)[1..] == rest;
    assert [task][1..] == [];
    TotalFirst(t.entries, t.path, w);
  }

  lemma {:induction false} ListEntry(root: seq<TreeEntry>, width: nat, notes: map<string, Oid>, t: Task, rest: seq<Task>, pending: seq<Task>)
    requires t.entries != [] && Accounts(root, width, notes, [t] + rest, pending)
    requires ListsNote(t.entries[0], t.path, width)
    ensures var e := t.entries[0];
            var target := Lower(Concat(t.path + [e.name]));
            if target in notes then Total(root, [], NotesFor(width, target)) >= 2
            else Accounts(root, width, notes[target := e.target.oid], [t.(entries := t.entries[1..])] + rest, pending)
  {
    var e := t.entries[0];
    var target := Lower(Concat(t.path + [e.name]));
    var open, next := [t] + rest, [t.(entries := t.entries[1..])] + rest;
    assert open[1..] == rest && next[1..] == rest && open[0] == t;
    assert Fan(open[0].path);
    ConcatSnoc(t.path, e.name);
    assert IsNote(width, t.path + [e.name], e.target);
    hide Total, Concat, Lower, IsNote;
    TotalFirst(t.entries, t.path, NotesFor(width, target));
    if target !in notes {
      var more := notes[target := e.target.oid];
      forall a, b ensures Has(more, a, b) + Held(next, NoteIs(width, a, b)) ==
                          Has(notes, a, b) + Held(open, NoteIs(width, a, b)) {
        TotalFirst(t.entries, t.path, NoteIs(width, a, b));
      }
      forall a ensures HasAny(more, a) + Held(next, NotesFor(width, a)) ==
                       HasAny(notes, a) + Held(open, NotesFor(width, a)) {
        TotalFirst(t.entries, t.path, NotesFor(width, a));
      }
      forall i | 0 <= i < |next| ensures Fan(next[i].path) { assert Fan(open[i].path); }
    }
  }

  /** Lists the notes of a tree, or nothing when the tree is over a budget or
      gives one attachment two notes, which Git itself must then sort out. */
  method SessionNoteEntries(root: Option<seq<TreeEntry>>, width: nat, size: Cost) returns (r: Option<map<string, Oid>>)
    ensures root.None? ==> r == Some(map[])
    ensures root.Some? ==>
              (r.Some? <==> && Visits(root.value, [], width, One) <= 1024
                            && Visits(root.value, [], width, size) <= 16 * 1024 * 1024
                            && forall a :: Total(root.value, [], NotesFor(width, a)) <= 1)
    ensures root.Some? && r.Some? ==>
              forall a, b :: Has(r.value, a, b) == Total(root.value, [], NoteIs(width, a, b))
  {
    hide Total, Visits, Held, Due, DueBelow, Spent;
    if root.None? { return Some(map[]); }
    var notes: map<string, Oid> := map[];
    var pending := [Task(root.value, [])];
    var treeCount: nat, totalBytes: nat := 0, 0;
    StartAccounts(root.value, width, size);
    while pending != []
      invariant Accounts(root.value, width, notes, [], pending)
      invariant Spends(root.value, width, One, treeCount, [], pending)
      invariant Spends(root.value, width, size, totalBytes, [], pending)
      invariant treeCount <= MAX_TREES && totalBytes <= MAX_BYTES
      decreases Visits(root.value, [], width, One) - treeCount
    {
      var count := if |pending| < BATCH then |pending| else BATCH;
      var batch, rest := pending[..count], pending[count..];
      assert pending == batch + rest;
      OpenBatch(root.value, width, notes, batch, rest, treeCount, One);
      treeCount := treeCount + |batch|;
      pending := rest;
      DueCountsTrees(pending, width);
      if treeCount + |pending| > MAX_TREES { return None; }
      var bytes := ReadSizes(batch, size);
      OpenBatch(root.value, width, notes, batch, rest, totalBytes, size);
      totalBytes := totalBytes + bytes;
      if totalBytes > MAX_BYTES { return None; }
      var scanned := ScanBatch(root.value, width, size, batch, notes, pending, treeCount, totalBytes);
      if scanned.None? { return None; }
      notes, pending := scanned.value.0, scanned.value.1;
    }
    AllListed(root.value, width, size, notes, treeCount, totalBytes);
    return Some(notes);
  }

  lemma {:induction false} AllListed(root: seq<TreeEntry>, width: nat, size: Cost, notes: map<string, Oid>, trees: nat, bytes: nat)
    requires Accounts(root, width, notes, [], [])
    requires Spends(root, width, One, trees, [], []) && Spends(root, width, size, bytes, [], [])
    ensures Visits(root, [], width, One) == trees && Visits(root, [], width, size) == bytes
    ensures forall a :: Total(root, [], NotesFor(width, a)) <= 1
    ensures forall a, b :: Has(notes, a, b) == Total(root, [], NoteIs(width, a, b))
  {
    hide Total, Visits;
    forall a ensures Total(root, [], NotesFor(width, a)) <= 1 {
      assert HasAny(notes, a) == Total(root, [], NotesFor(width, a));
    }
  }

  function Spent(batch: seq<Task>, cost: Cost): nat {
    if batch == [] then 0 else cost(batch[0].entries) + Spent(batch[1..], cost)
  }

  method ReadSizes(batch: seq<Task>, size: Cost) returns (bytes: nat)
    ensures bytes == Spent(batch, size)
  {
    bytes := 0;
    for i := 0 to |batch|
      invariant bytes + Spent(batch[i..], size) == Spent(batch, size)
    {
      assert batch[i..][1..] == batch[i + 1..];
      bytes := bytes + size(batch[i].entries);
    }
  }

  lemma {:induction false} StartAccounts(root: seq<TreeEntry>, width: nat, size: Cost)
    ensures Accounts(root, width, map[], [], [Task(root, [])])
    ensures Spends(root, width, One, 0, [], [Task(root, [])])
    ensures Spends(root, width, size, 0, [], [Task(root, [])])
  {
    assert [Task(root, [])][1..] == [];
  }

  lemma {:induction false} OpenDue(batch: seq<Task>, width: nat, cost: Cost)
    ensures Due(batch, width, cost) == Spent(batch, cost) + DueBelow(batch, width, cost)
  {
    if batch != [] { OpenDue(batch[1..], width, cost); }
  }

  lemma {:induction false} OnePerTree(batch: seq<Task>)
    ensures Spent(batch, One) == |batch|
  {
    if batch != [] { OnePerTree(batch[1..]); }
  }

  lemma {:induction false} OpenBatch(root: seq<TreeEntry>, width: nat, notes: map<string, Oid>, batch: seq<Task>, rest: seq<Task>,
    spent: nat, cost: Cost)
    requires Accounts(root, width, notes, [], batch + rest) && Spends(root, width, cost, spent, [], batch + rest)
    ensures Accounts(root, width, notes, batch, rest)
    ensures Spends(root, width, cost, spent + Spent(batch, cost), batch, rest)
    ensures cost == One ==> Spent(batch, cost) == |batch|
  {
    OpenDue(batch, width, cost);
    DueMore(batch, rest, width, cost);
    OnePerTree(batch);
    forall a, b ensures Held(batch + rest, NoteIs(width, a, b)) == Held(batch, NoteIs(width, a, b)) + Held(rest, NoteIs(width, a, b)) {
      HeldMore(batch, rest, NoteIs(width, a, b));
    }
    forall a ensures Held(batch + rest, NotesFor(width, a)) == Held(batch, NotesFor(width, a)) + Held(rest, NotesFor(width, a)) {
      HeldMore(batch, rest, NotesFor(width, a));
    }
    forall i | 0 <= i < |batch| ensures Fan(batch[i].path) { assert Fan((batch + rest)[i].path); }
    forall i | 0 <= i < |rest| ensures Fan(rest[i].path) { assert Fan((batch + rest)[|batch| + i].path); }
  }

  /** Reads every tree of a batch, listing notes and queueing the directories
      below; stops at a second note for one attachment, or when the trees read
      and queued are over the budget. */
  method ScanBatch(ghost root: seq<TreeEntry>, width: nat, ghost size: Cost, batch: seq<Task>,
    notes0: map<string, Oid>, pending0: seq<Task>, treeCount: nat, ghost totalBytes: nat)
    returns (r: Option<(map<string, Oid>, seq<Task>)>)
    requires Accounts(root, width, notes0, batch, pending0)
    requires Spends(root, width, One, treeCount, batch, pending0)
    requires Spends(root, width, size, totalBytes, batch, pending0)
    ensures r.Some? ==>
              && Accounts(root, width, r.value.0, [], r.value.1)
              && Spends(root, width, One, treeCount, [], r.value.1)
              && Spends(root, width, size, totalBytes, [], r.value.1)
    ensures r.None? ==>
              Visits(root, [], width, One) > MAX_TREES || exists a :: Total(root, [], NotesFor(width, a)) > 1
  {
    hide Total, Visits, VisitsBelow, Held, Due, DueBelow, Concat, Lower;
    var notes: map<string, Oid>, pending := notes0, pending0;
    assert batch[0..] == batch;
    for index := 0 to |batch|
      invariant Accounts(root, width, notes, batch[index..], pending)
      invariant Spends(root, width, One, treeCount, batch[index..], pending)
      invariant Spends(root, width, size, totalBytes, batch[index..], pending)
    {
      var path, entries := batch[index].path, batch[index].entries;
      ghost var rest := batch[index + 1..];
      var offset := 0;
      assert batch[index..] == [Task(entries[0..], path)] + rest;
      while offset < |entries|
        invariant 0 <= offset <= |entries|
        invariant Accounts(root, width, notes, [Task(entries[offset..], path)] + rest, pending)
        invariant Spends(root, width, One, treeCount, [Task(entries[offset..], path)] + rest, pending)
        invariant Spends(root, width, size, totalBytes, [Task(entries[offset..], path)] + rest, pending)
      {
        var e := entries[offset];
        ghost var t := Task(entries[offset..], path);
        assert t.entries[0] == e && t.entries[1..] == entries[offset + 1..];
        SpendEntry(root, width, One, treeCount, t, rest, pending);
        SpendEntry(root, width, size, totalBytes, t, rest, pending);
        offset := offset + 1;
        if !Hex(e.name) {
          SkipEntry(root, width, notes, t, rest, pending);
          continue;
        }
        var target := Lower(Concat(path + [e.name]));
        if |target| == width && e.target.File? {
          if e.target.oid == 0 {
            SkipEntry(root, width, notes, t, rest, pending);
            continue;
          }
          ListEntry(root, width, notes, t, rest, pending);
          if target in notes { return None; }
          notes := notes[target := e.target.oid];
        } else if |e.name| == 2 && |target| < width && e.target.Directory? {
          PushEntry(root, width, notes, t, rest, pending);
          pending := pending + [Task(e.target.entries, path + [e.name])];
          DueCountsTrees(pending, width);
          if treeCount + |pending| > MAX_TREES { return None; }
        } else {
          SkipEntry(root, width, notes, t, rest, pending);
        }
      }
      assert entries[offset..] == [];
      CloseTask(root, width, notes, path, rest, pending);
      SpendClosed(root, width, One, treeCount, path, rest, pending);
      SpendClosed(root, width, size, totalBytes, path, rest, pending);
    }
    assert batch[|batch|..] == [];
    return Some((notes, pending));
  }

  /** Moving past an entry moves the trees below it to the queue. */
  lemma {:induction false} SpendEntry(root: seq<TreeEntry>, width: nat, cost: Cost, spent: nat, t: Task, rest: seq<Task>, pending: seq<Task>)
    requires t.entries != [] && Spends(root, width, cost, spent, [t] + rest, pending)
    ensures var e := t.entries[0];
            Spends(root, width, cost, spent, [t.(entries := t.entries[1..])] + rest,
              if Descends(e, t.path, width) then pending + [Task(e.target.entries, t.path + [e.name])] else pending)
  {
    var e := t.entries[0];
    var next := t.(entries := t.entries[1..]);
    assert ([t] + rest)[1..] == rest && ([next] + rest)[1..] == rest;
    assert DueBelow([t] + rest, width, cost) == VisitsBelow(t.entries, t.path, width, cost) + DueBelow(rest, width, cost);
    assert DueBelow([next] + rest, width, cost) == VisitsBelow(next.entries, t.path, width, cost) + DueBelow(rest, width, cost);
    assert VisitsBelow(t.entries, t.path, width, cost) ==
           VisitsIn(e, t.path, width, cost) + VisitsBelow(t.entries[1..], t.path, width, cost);
    if Descends(e, t.path, width) {
      var task := Task(e.target.entries, t.path + [e.name]);
      assert [task][1..] == [];
      assert Due([task], width, cost) == VisitsIn(e, t.path, width, cost);
      DueMore(pending, [task], width, cost);
    }
  }

  lemma {:induction false} SpendClosed(root: seq<TreeEntry>, width: nat, cost: Cost, spent: nat, path: Path, rest: seq<Task>, pending: seq<Task>)
    requires Spends(root, width, cost, spent, [Task([], path)] + rest, pending)
    ensures Spends(root, width, cost, spent, rest, pending)
  {
    assert ([Task([], path)] + rest)[1..] == rest;
  }

  lemma {:induction false} CloseTask(root: seq<TreeEntry>, width: nat, notes: map<string, Oid>, path: Path, rest: seq<Task>, pending: seq<Task>)
    requires Accounts(root, width, notes, [Task([], path)] + rest, pending)
    ensures Accounts(root, width, notes, rest, pending)
  {
    var open := [Task([], path)] + rest;
    assert open[1..] == rest;
    forall a, b ensures Held(open, NoteIs(width, a, b)) == Held(rest, NoteIs(width, a, b)) {}
    forall a ensures Held(open, NotesFor(width, a)) == Held(rest, NotesFor(width, a)) {}
    forall i | 0 <= i < |rest| ensures Fan(rest[i].path) { assert Fan(open[i + 1].path); }
  }
}
