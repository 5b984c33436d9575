/** The disposition registry as several processes use it: a file that is read and
    rewritten whole, under no lock. */
module DispositionRegistry {
  import opened Git
  import opened NoteRecords
  import opened MetadataTransfer

  /** A registry as a process read it, and how many decisions had been filed by then. */
  datatype Read = Read(file: seq<Disposition>, filed: nat)

  datatype Registry = Registry(file: seq<Disposition>, read: map<nat, Read>, filed: seq<Disposition>)

  /** Filing a decision is one read and one write, by some process. */
  datatype Step = Reads(who: nat) | Files(who: nat, decision: Disposition)

  function Next(r: Registry, step: Step): Registry {
    match step
    case Reads(who) => r.(read := r.read[who := Read(r.file, |r.filed|)])
    case Files(who, decision) =>
      if who !in r.read then r
      else Registry(r.read[who].file + [decision], r.read - {who}, r.filed + [decision])
  }

  function Exec(file: seq<Disposition>, steps: seq<Step>): Registry {
    if steps == [] then Registry(file, map[], [])
    else Next(Exec(file, steps[..|steps| - 1]), steps[|steps| - 1])
  }

  /** No decision is filed between the read and the write of another. */
  ghost predicate Alone(file: seq<Disposition>, steps: seq<Step>) {
    steps == [] ||
    var before, last := Exec(file, steps[..|steps| - 1]), steps[|steps| - 1];
    && Alone(file, steps[..|steps| - 1])
    && (last.Files? && last.who in before.read ==> before.read[last.who].filed == |before.filed|)
  }

  /** What was read is no longer than what had been filed by then, and is the file
      when nothing was filed since. */
  lemma {:induction false} ReadsAreEarlier(file: seq<Disposition>, steps: seq<Step>)
    ensures var r := Exec(file, steps);
            && |r.file| <= |file| + |r.filed|
            && forall who <- r.read ::
                 && r.read[who].filed <= |r.filed|
                 && |r.read[who].file| <= |file| + r.read[who].filed
                 && (r.read[who].filed == |r.filed| ==> r.read[who].file == r.file)
  {
    if steps != [] { ReadsAreEarlier(file, steps[..|steps| - 1]); }
  }

  /** In every interleaving, the registry holds every decision filed, in order, if
      and only if none was filed between the read and the write of another. */
  lemma {:induction false} NoDecisionIsLostIff(file: seq<Disposition>, steps: seq<Step>)
    ensures Exec(file, steps).file == file + Exec(file, steps).filed <==> Alone(file, steps)
  {
    if steps == [] {
      assert file + [] == file;
    } else {
      var before, last := Exec(file, steps[..|steps| - 1]), steps[|steps| - 1];
      NoDecisionIsLostIff(file, steps[..|steps| - 1]);
      ReadsAreEarlier(file, steps[..|steps| - 1]);
      if last.Files? && last.who in before.read {
        var read := before.read[last.who];
        if read.file == file + before.filed {
          assert read.file + [last.decision] == file + (before.filed + [last.decision]);
        }
        if read.file + [last.decision] == file + (before.filed + [last.decision]) {
          assert read.file == (read.file + [last.decision])[..|read.file|] == file + before.filed;
        }
      }
    }
  }

  const MINE := Disposition(1, [Entry(5, Record(Some(1), 0, 1, []))])
  const YOURS := Disposition(2, [Entry(6, Record(Some(2), 0, 1, []))])
  const TWO_DECISIONS: seq<Step> := [Reads(0), Reads(1), Files(0, MINE), Files(1, YOURS)]

  /** One can be lost: two people decide at once, and the digest the first
      rejected is planned to be parked again. */
  lemma {:induction false} LostDecisionParksAgain(e: Entry, local: set<Digest>)
    requires e == MINE.rejected[0] && local != {} && e !in local
    ensures e in RejectedFor(Exec([], TWO_DECISIONS[..3]).file, 1) && e !in RejectedFor(Exec([], TWO_DECISIONS).file, 1)
    ensures ConflictAction(e, local, RejectedFor(Exec([], TWO_DECISIONS[..3]).file, 1), true) == Disposed
    ensures ConflictAction(e, local, RejectedFor(Exec([], TWO_DECISIONS).file, 1), true) == Park
  {
    var s := TWO_DECISIONS;
    assert s[..1][..0] == [] && s[..2][..1] == s[..1] && s[..3][..2] == s[..2] && s[..4][..3] == s[..3] && s[..4] == s;
    assert Exec([], s[..1]) == Registry([], map[0 := Read([], 0)], []);
    assert Exec([], s[..2]) == Registry([], map[0 := Read([], 0), 1 := Read([], 0)], []);
    assert Exec([], s[..3]).file == [MINE] && 1 in Exec([], s[..3]).read && Exec([], s[..3]).read[1] == Read([], 0);
    assert Exec([], s).file == [YOURS];
    assert [MINE][0].id == 1 && [MINE][0].rejected[0] == e;
  }
}
