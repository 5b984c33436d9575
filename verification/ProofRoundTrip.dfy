/** The whole verifier, the whole producer, and the round trip: what is produced
    from a repository raises no problem. */
module ProofRoundTrip {
  import opened Git
  import opened MergePlan
  import opened ProofBinding
  import opened CommitPaths
  import opened ProofBundle
  import opened ReceiptInclusion

  datatype Anchors = Anchors(targetHead: Oid, sourceHead: Oid, notesTip: Option<Oid>, lineageRoots: seq<Oid>)

  /** A bundle as it travels: its bindings, the inclusions of its receipts, what
      its evidence claims of them, and the anchors and lineage it states. */
  datatype Package = Package(bundle: Bundle, notesTip: Option<Oid>, inclusions: seq<Inclusion>, claims: seq<Claim>,
    anchors: Anchors, lineageRoots: seq<Oid>)

  function Included(inclusions: seq<Inclusion>): set<Oid> {
    set i | 0 <= i < |inclusions| :: inclusions[i].attachment
  }

  /** Paths of receipt proofs end at attachments that have an inclusion. */
  function BundleOf(p: Package): Bundle {
    p.bundle.(attachments := Included(p.inclusions))
  }

  ghost predicate ReceiptsHold(f: NoteFormat, p: Package) {
    p.inclusions == [] ||
    (p.notesTip.Some? && forall i :: 0 <= i < |p.inclusions| ==>
       Accepted(f, p.bundle.objects, p.notesTip.value, p.inclusions[i], p.claims))
  }

  ghost predicate AnchorsAgree(p: Package) {
    && p.anchors.targetHead == p.bundle.targetHead && p.anchors.sourceHead == p.bundle.sourceHead
    && p.anchors.notesTip == p.notesTip && multiset(p.anchors.lineageRoots) == multiset(p.lineageRoots)
  }

  ghost predicate CoverageIsQuiet(f: Format, b: Bundle) {
    forall i :: 0 <= i < |b.changes| && b.changes[i].status == Covered ==> Quiet(f, b.objects, b, b.changes[i])
  }

  /** Nothing to complain about, anywhere. */
  ghost predicate Clean(f: NoteFormat, p: Package) {
    && Hashed(f.format, p.bundle.objects)
    && InventoryHolds(f.format, p.bundle.objects, BundleOf(p))
    && CoverageIsQuiet(f.format, BundleOf(p))
    && ReceiptsHold(f, p)
    && AnchorsAgree(p)
  }

  // The verifier.

  method VerifyStatedAnchors(p: Package) returns (problems: nat)
    ensures problems == 0 <==> AnchorsAgree(p)
  {
    problems := 0;
    if p.anchors.targetHead != p.bundle.targetHead { problems := problems + 1; }
    if p.anchors.sourceHead != p.bundle.sourceHead { problems := problems + 1; }
    if p.anchors.notesTip != p.notesTip { problems := problems + 1; }
    SameSetIff(p.anchors.lineageRoots, p.lineageRoots);
    if !SameSet(p.anchors.lineageRoots, p.lineageRoots) { problems := problems + 1; }
  }

  /** Every check of a package, by what it carries alone. */
  method VerifyBindings(f: NoteFormat, p: Package) returns (problems: nat, proven: seq<bool>)
    ensures problems == 0 <==> Clean(f, p)
    ensures problems == 0 ==>
              |proven| == |p.bundle.changes| &&
              forall i :: 0 <= i < |proven| ==>
                (proven[i] <==> p.bundle.changes[i].status == Covered && Proven(f.format, p.bundle.objects, BundleOf(p), p.bundle.changes[i]))
  {
    hide InventoryHolds, Quiet, Proven, Accepted, AnchorsAgree, Hashed;
    var b := BundleOf(p);
    var carried, misnamed := CheckObjects(f.format, p.bundle.objects);
    var inventory := VerifyInventory(f.format, carried, b);
    var coverage;
    proven, coverage := VerifyCoverage(f.format, carried, b);
    var receipts := VerifyReceipts(f, carried, p.notesTip, p.inclusions, p.claims);
    var anchors := VerifyStatedAnchors(p);
    problems := misnamed + inventory + coverage + receipts + anchors;
  }

  /** The bundle's own evidence gives every change the verdict it states. */
  predicate Reproduced(changes: seq<Change>, e: Evidence) {
    forall i :: 0 <= i < |changes| ==>
      FirstRule(PROOF_RULES, changes[i].commit, changes[i].changeId, e) == (changes[i].status, changes[i].proof)
  }

  ghost predicate DistinctCommits(changes: seq<Change>) {
    forall i, j :: 0 <= i < j < |changes| ==> changes[i].commit != changes[j].commit
  }

  lemma {:induction false} NoneAreDistinct()
    ensures DistinctCommits([])
  {}

  lemma {:induction false} DistinctMore(changes: seq<Change>, i: nat)
    requires i < |changes|
    ensures DistinctCommits(changes[..i + 1]) <==> DistinctCommits(changes[..i]) && forall j :: 0 <= j < i ==> changes[j].commit != changes[i].commit
  {
    var some, more := changes[..i], changes[..i + 1];
    assert forall j :: 0 <= j < i ==> more[j] == some[j] == changes[j];
    assert more[i] == changes[i];
  }

  /** As many commits as changes. */
  method UniqueCommits(changes: seq<Change>) returns (unique: bool)
    ensures unique <==> DistinctCommits(changes)
  {
    hide DistinctCommits;
    var seen: set<Oid> := {};
    NoneAreDistinct();
    for i := 0 to |changes|
      invariant |seen| <= i && forall c :: c in seen <==> exists j :: 0 <= j < i && changes[j].commit == c
      invariant |seen| == i <==> DistinctCommits(changes[..i])
    {
      var c := changes[i].commit;
      DistinctMore(changes, i);
      if c in seen { assert seen + {c} == seen; }
      seen := seen + {c};
    }
    assert changes[..|changes|] == changes;
    unique := |seen| == |changes|;
  }

  /** The whole verdict: the bindings hold, and the classification follows from
      the evidence the bundle carries. */
  method VerifyProofBundle(f: NoteFormat, p: Package, e: Evidence) returns (ok: bool, problems: nat, proven: seq<bool>)
    ensures ok <==> Clean(f, p) && Reproduced(p.bundle.changes, e) && DistinctCommits(p.bundle.changes)
    ensures problems == 0 <==> Clean(f, p)
    ensures problems == 0 ==>
              |proven| == |p.bundle.changes| &&
              forall i :: 0 <= i < |proven| ==>
                (proven[i] <==> p.bundle.changes[i].status == Covered && Proven(f.format, p.bundle.objects, BundleOf(p), p.bundle.changes[i]))
  {
    hide Clean, Proven;
    problems, proven := VerifyBindings(f, p);
    var changes := p.bundle.changes;
    var disagreements := 0;
    for i := 0 to |changes|
      invariant disagreements == 0 <==> Reproduced(changes[..i], e)
    {
      assert changes[..i + 1] == changes[..i] + [changes[i]];
      var status, proof := ClassifyFromEvidence(changes[i].commit, changes[i].changeId, e);
      if status != changes[i].status || proof != changes[i].proof { disagreements := disagreements + 1; }
    }
    assert changes[..|changes|] == changes;
    var unique := UniqueCommits(changes);
    ok := problems == 0 && disagreements == 0 && unique;
  }

  // The producer.

  /** The producer finds no note of an attachment: there is none, or an earlier
      entry hides it. */
  ghost predicate NotFound(f: NoteFormat, repo: Carried, tip: Option<Oid>, attachment: Oid) {
    tip.None? || forall path: seq<Oid>, blob: Oid :: !IsFirstNote(f, repo, tip.value, f.hex(attachment), path, blob)
  }

  ghost predicate IsBlob(repo: Carried, o: Oid) {
    o in repo && repo[o].kind == BlobKind
  }

  /** A note says of a receipt what the evidence says of it. */
  ghost predicate NoteSays(f: NoteFormat, repo: Carried, blob: Oid, r: Fact) {
    && r.body.Receipt? && IsBlob(repo, blob) && f.note(repo[blob].bytes).Some?
    && var record := RecordWith(f.note(repo[blob].bytes).value, r.id);
       && record.Some? && record.value.valid
       && multiset(r.body.absorbedCommits) == multiset(record.value.absorbedCommits)
       && multiset(r.body.absorbedChanges) == multiset(record.value.absorbedChanges)
  }

  /** The note that is found for a receipt, if one is, says what the evidence says. */
  ghost predicate Shown(f: NoteFormat, repo: Carried, tip: Oid, r: Fact) {
    forall path: seq<Oid>, blob: Oid :: IsFirstNote(f, repo, tip, f.hex(r.attachedTo), path, blob) ==> NoteSays(f, repo, blob, r)
  }

  /** What is found in a note's place is a note. */
  ghost predicate Readable(f: NoteFormat, repo: Carried, tip: Oid, r: Fact) {
    forall path: seq<Oid>, blob: Oid :: IsFirstNote(f, repo, tip, f.hex(r.attachedTo), path, blob) ==> IsBlob(repo, blob)
  }

  ghost predicate Receipts(receipts: seq<Fact>) {
    && (forall i :: 0 <= i < |receipts| ==> receipts[i].body.Receipt?)
    && forall i, j :: 0 <= i < j < |receipts| ==> receipts[i].id != receipts[j].id
  }

  function ClaimsOf(receipts: seq<Fact>): seq<Claim>
    requires forall i :: 0 <= i < |receipts| ==> receipts[i].body.Receipt?
  {
    seq(|receipts|, i requires 0 <= i < |receipts| && receipts[i].body.Receipt? =>
      Claim(receipts[i].id, receipts[i].body.absorbedCommits, receipts[i].body.absorbedChanges))
  }

  /** An inclusion by the note that was found for a receipt. */
  ghost predicate Located(f: NoteFormat, repo: Carried, tip: Oid, p: Inclusion, r: Fact) {
    && p.id == r.id && p.attachment == r.attachedTo
    && IsFirstNote(f, repo, tip, f.hex(r.attachedTo), p.path, p.blob) && PathLeadsTo(f, repo, p.path, p.blob)
  }

  /** Every inclusion is some receipt's, and every receipt whose note was found
      has one. */
  ghost predicate IncludesFound(f: NoteFormat, repo: Carried, tip: Oid, inclusions: seq<Inclusion>, receipts: seq<Fact>) {
    && (forall k :: 0 <= k < |inclusions| ==> LocatedFor(f, repo, tip, inclusions[k], receipts))
    && forall i :: 0 <= i < |receipts| ==> NotFound(f, repo, Some(tip), receipts[i].attachedTo) || HasInclusion(inclusions, receipts[i])
  }

  ghost predicate LocatedFor(f: NoteFormat, repo: Carried, tip: Oid, p: Inclusion, receipts: seq<Fact>) {
    exists i :: 0 <= i < |receipts| && Located(f, repo, tip, p, receipts[i])
  }

  ghost predicate HasInclusion(inclusions: seq<Inclusion>, r: Fact) {
    exists k :: 0 <= k < |inclusions| && inclusions[k].id == r.id && inclusions[k].attachment == r.attachedTo
  }

  /** Locates the note of every receipt and collects what its inclusion needs.
      Something else in a note's place ends it. */
  method BuildInclusions(f: NoteFormat, repo: Carried, tip: Oid, receipts: seq<Fact>)
    returns (built: Option<seq<Inclusion>>, wanted: set<Oid>)
    requires NamesGiven(f, repo)
    ensures built.Some? <==> forall i :: 0 <= i < |receipts| ==> Readable(f, repo, tip, receipts[i])
    ensures built.Some? ==> IncludesFound(f, repo, tip, built.value, receipts) && tip in wanted
    ensures built.Some? ==>
              forall k :: 0 <= k < |built.value| ==> (forall o <- built.value[k].path :: o in wanted) && built.value[k].blob in wanted
  {
    hide IsFirstNote, IsNote, PathLeadsTo, NamesGiven, IncludesFound, Located, Readable, NotFound;
    wanted := {tip};
    var inclusions: seq<Inclusion> := [];
    NothingIncluded(f, repo, tip);
    for i := 0 to |receipts|
      invariant IncludesFound(f, repo, tip, inclusions, receipts[..i]) && tip in wanted
      invariant forall j :: 0 <= j < i ==> Readable(f, repo, tip, receipts[j])
      invariant forall k :: 0 <= k < |inclusions| ==> (forall o <- inclusions[k].path :: o in wanted) && inclusions[k].blob in wanted
    {
      var r := receipts[i];
      ghost var sofar := inclusions;
      assert receipts[..i + 1] == receipts[..i] + [r];
      var located := NotePath(f, repo, tip, f.hex(r.attachedTo));
      Finding(f, repo, tip, r, located);
      if located.Some? {
        var path, blob := located.value.0, located.value.1;
        if blob !in repo || repo[blob].kind != BlobKind { return None, {}; }
        inclusions := inclusions + [Inclusion(r.id, r.attachedTo, path, blob)];
        wanted := wanted + (set o | o in path) + {blob};
      }
      IncludesMore(f, repo, tip, sofar, inclusions, receipts[..i], r);
    }
    assert receipts[..|receipts|] == receipts;
    built := Some(inclusions);
  }

  lemma {:induction false} NothingIncluded(f: NoteFormat, repo: Carried, tip: Oid)
    ensures IncludesFound(f, repo, tip, [], [])
  {}

  /** What it means that the search found something, or nothing. */
  lemma {:induction false} Finding(f: NoteFormat, repo: Carried, tip: Oid, r: Fact, located: Option<(seq<Oid>, Oid)>)
    requires forall path: seq<Oid>, blob: Oid :: IsFirstNote(f, repo, tip, f.hex(r.attachedTo), path, blob) <==> located == Some((path, blob))
    requires located.Some? ==> PathLeadsTo(f, repo, located.value.0, located.value.1)
    ensures located.None? ==> NotFound(f, repo, Some(tip), r.attachedTo) && Readable(f, repo, tip, r)
    ensures located.Some? ==>
              && (Readable(f, repo, tip, r) <==> IsBlob(repo, located.value.1))
              && Located(f, repo, tip, Inclusion(r.id, r.attachedTo, located.value.0, located.value.1), r)
  {
    hide IsFirstNote, PathLeadsTo;
    if located.Some? {
      var path, blob := located.value.0, located.value.1;
      assert located == Some((path, blob));
      assert IsFirstNote(f, repo, tip, f.hex(r.attachedTo), path, blob);
    }
  }

  lemma {:induction false} IncludesMore(f: NoteFormat, repo: Carried, tip: Oid, sofar: seq<Inclusion>, inclusions: seq<Inclusion>,
    receipts: seq<Fact>, r: Fact)
    requires IncludesFound(f, repo, tip, sofar, receipts)
    requires (inclusions == sofar && NotFound(f, repo, Some(tip), r.attachedTo)) ||
             (|inclusions| == |sofar| + 1 && inclusions[..|sofar|] == sofar && Located(f, repo, tip, inclusions[|sofar|], r))
    ensures IncludesFound(f, repo, tip, inclusions, receipts + [r])
  {
    hide Located, NotFound;
    var all := receipts + [r];
    forall k | 0 <= k < |inclusions| ensures LocatedFor(f, repo, tip, inclusions[k], all) {
      if k < |sofar| {
        assert inclusions[k] == sofar[k];
        var i :| 0 <= i < |receipts| && Located(f, repo, tip, sofar[k], receipts[i]);
        assert all[i] == receipts[i];
      } else {
        assert all[|receipts|] == r;
      }
    }
    forall i | 0 <= i < |all| ensures NotFound(f, repo, Some(tip), all[i].attachedTo) || HasInclusion(inclusions, all[i]) {
      if i < |receipts| {
        if HasInclusion(sofar, receipts[i]) {
          var k :| 0 <= k < |sofar| && sofar[k].id == receipts[i].id && sofar[k].attachment == receipts[i].attachedTo;
          assert inclusions[k] == sofar[k];
        }
      } else if |inclusions| > |sofar| {
        LocatedNames(f, repo, tip, inclusions[|sofar|], r);
      }
    }
  }

  lemma {:induction false} LocatedNames(f: NoteFormat, repo: Carried, tip: Oid, p: Inclusion, r: Fact)
    requires Located(f, repo, tip, p, r)
    ensures p.id == r.id && p.attachment == r.attachedTo && !NotFound(f, repo, Some(tip), r.attachedTo)
  {
    hide IsFirstNote;
  }

  /** A note is found by one path. */
  lemma {:induction false} OneFirstNote(f: NoteFormat, repo: Carried, tip: Oid, attachment: string, path: seq<Oid>, blob: Oid, p: seq<Oid>, b: Oid)
    requires NamesGiven(f, repo) && IsFirstNote(f, repo, tip, attachment, path, blob) && IsFirstNote(f, repo, tip, attachment, p, b)
    ensures path == p && blob == b
  {
    hide Descend, NamesGiven, IsFirstNote;
    var root := RootAt(f, repo, tip);
    if root.Some? { FirstNotesAreFound(f, repo, tip, attachment, root.value); } else { NoRootNoNote(f, repo, tip, attachment); }
  }

  /** What the repository holds, the carried part of it holds too. */
  lemma {:induction false} PathOfPart(f: NoteFormat, repo: Carried, carried: Carried, path: seq<Oid>, blob: Oid)
    requires PartOf(carried, repo) && PathLeadsTo(f, repo, path, blob) && forall o <- path :: o in repo ==> o in carried
    ensures PathLeadsTo(f, carried, path, blob)
  {
    forall i | 0 <= i < |path| ensures ItemsAt(f, carried, path[i]).Some? && Contains(ItemsAt(f, carried, path[i]).value, NextOf(path, blob, i)) {
      assert path[i] in path && ItemsAt(f, repo, path[i]).Some?;
    }
  }

  /** A located inclusion is accepted exactly when the note says what the evidence says. */
  lemma {:induction false} AcceptedIff(f: NoteFormat, repo: Carried, carried: Carried, tip: Oid, p: Inclusion, receipts: seq<Fact>, i: nat)
    requires PartOf(carried, repo) && Receipts(receipts) && i < |receipts| && Located(f, repo, tip, p, receipts[i])
    requires tip in carried && IsBlob(repo, p.blob) && p.blob in carried && forall o <- p.path :: o in repo ==> o in carried
    ensures Accepted(f, carried, tip, p, ClaimsOf(receipts)) <==> NoteSays(f, repo, p.blob, receipts[i])
  {
    hide IsNote, PathLeadsTo, Unshadowed, NamedPath, Spelled;
    PathOfPart(f, repo, carried, p.path, p.blob);
    assert RootAt(f, carried, tip) == RootAt(f, repo, tip);
    var r, claims := receipts[i], ClaimsOf(receipts);
    assert claims[i].id == r.id;
    assert ClaimWith(claims, r.id) == Some(claims[i]);
    var records := f.note(repo[p.blob].bytes);
    if records.Some? {
      var record := RecordWith(records.value, r.id);
      if record.Some? { assert ReceiptInclusion.Holds(f, carried, tip, p, record.value); }
    }
  }

  lemma {:induction false} AttachedAreIncluded(f: NoteFormat, repo: Carried, tip: Oid, inclusions: seq<Inclusion>, receipts: seq<Fact>, a: Oid)
    requires IncludesFound(f, repo, tip, inclusions, receipts) && exists i :: 0 <= i < |receipts| && receipts[i].attachedTo == a
    ensures a in Included(inclusions) <==> !NotFound(f, repo, Some(tip), a)
  {
    hide Located, NotFound;
    if a in Included(inclusions) {
      var k :| 0 <= k < |inclusions| && inclusions[k].attachment == a;
      assert LocatedFor(f, repo, tip, inclusions[k], receipts);
      var i :| 0 <= i < |receipts| && Located(f, repo, tip, inclusions[k], receipts[i]);
      LocatedNames(f, repo, tip, inclusions[k], receipts[i]);
    }
  }

  /** A receipt is left out of a package precisely when its note is not found. */
  lemma {:induction false} LeftOutIff(f: NoteFormat, repo: Carried, tip: Oid, inclusions: seq<Inclusion>, receipts: seq<Fact>, i: nat)
    requires IncludesFound(f, repo, tip, inclusions, receipts) && Receipts(receipts) && i < |receipts|
    ensures (exists k :: 0 <= k < |inclusions| && inclusions[k].id == receipts[i].id) <==> !NotFound(f, repo, Some(tip), receipts[i].attachedTo)
  {
    hide Located, NotFound;
    if k :| 0 <= k < |inclusions| && inclusions[k].id == receipts[i].id {
      assert LocatedFor(f, repo, tip, inclusions[k], receipts);
      var j :| 0 <= j < |receipts| && Located(f, repo, tip, inclusions[k], receipts[j]);
      LocatedNames(f, repo, tip, inclusions[k], receipts[j]);
      assert j == i;
    }
  }

  /** When the round trip goes through: every note that is found says what the
      evidence says of its receipt, and the first receipt that claims a change
      has its note found. */
  ghost predicate RoundTrips(f: NoteFormat, repo: Carried, tip: Option<Oid>, receipts: seq<Fact>, changes: seq<Change>) {
    && (tip.Some? ==> forall i :: 0 <= i < |receipts| ==> Shown(f, repo, tip.value, receipts[i]))
    && forall i :: 0 <= i < |changes| && changes[i].status == Covered && ByReceipt(changes[i]) ==> ClaimIsFound(f, repo, tip, receipts, changes[i])
  }

  ghost predicate ClaimIsFound(f: NoteFormat, repo: Carried, tip: Option<Oid>, receipts: seq<Fact>, c: Change) {
    var to := FirstClaiming(receipts, c);
    to.Some? && !NotFound(f, repo, tip, to.value)
  }

  /** Everything a producer puts in a package; nothing, if something else is in a
      note's place. */
  method BuildPackage(f: NoteFormat, repo: Carried, ghost catalog: Catalog, target: Oid, source: Oid, base: Oid, effective: Option<Oid>,
    range: seq<Oid>, changes: seq<Change>, e: Evidence, targetHistory: seq<Oid>, rows: Oid -> History, sourceRows: Oid -> History,
    notesTip: Option<Oid>, lineageRoots: seq<Oid>)
    returns (built: Option<Package>)
    requires Repository(f.format, repo) && target in RealHistory(f.format, repo)
    requires LinearRange(f.format, repo, base, source, range) && range == ChangeCommits(changes)
    requires RealEvidence(f.format, repo, catalog, target, e)
    requires NamesGiven(f, repo) && (notesTip.Some? ==> notesTip.value in repo) && Receipts(e.receipt.receipts)
    requires forall o <- targetHistory :: o in repo
    requires forall o :: o in targetHistory <==> o in e.direct.commits
    requires forall to :: Between(RealHistory(f.format, repo), target, to, rows(to)) &&
                          Between(RealHistory(f.format, repo), source, to, sourceRows(to))
    requires forall i :: 0 <= i < |changes| ==> PlannedChange(f.format, repo, e, changes[i])
    ensures built.Some? <==>
            (notesTip.Some? ==> forall i :: 0 <= i < |e.receipt.receipts| ==> Readable(f, repo, notesTip.value, e.receipt.receipts[i]))
    ensures built.Some? ==>
              var p := built.value;
              && p.bundle.changes == changes && p.bundle.targetHead == target && p.bundle.sourceHead == source && p.bundle.physicalBase == base
              && (forall i :: 0 <= i < |e.receipt.receipts| ==>
                    ((exists k :: 0 <= k < |p.inclusions| && p.inclusions[k].id == e.receipt.receipts[i].id) <==>
                     !NotFound(f, repo, notesTip, e.receipt.receipts[i].attachedTo)))
              && (Clean(f, p) <==> RoundTrips(f, repo, notesTip, e.receipt.receipts, changes))
              && (Clean(f, p) ==> forall i :: 0 <= i < |changes| && changes[i].status == Covered ==>
                    Proven(f.format, p.bundle.objects, BundleOf(p), changes[i]))
  {
    hide RealEvidence, PlannedChange, LinearRange, Between, NamesGiven, InventoryHolds, Quiet, Proven, Hashed, PartOf, Repository,
      Borne, NotFound, Readable, IncludesFound, ReceiptsHold, RoundTrips;
    var receipts := e.receipt.receipts;
    var inclusions: seq<Inclusion>, also: set<Oid> := [], {};
    if notesTip.Some? {
      var located, wanted := BuildInclusions(f, repo, notesTip.value, receipts);
      if located.None? { return None; }
      inclusions, also := located.value, wanted;
    }
    var b := BuildBindings(f.format, repo, catalog, target, source, base, effective, range, changes, e, targetHistory, rows, sourceRows,
      Included(inclusions), also);
    var p := Package(b, notesTip, inclusions, ClaimsOf(receipts), Anchors(target, source, notesTip, lineageRoots), lineageRoots);
    assert BundleOf(p) == b;
    FoundIffIncluded(f, repo, notesTip, inclusions, receipts);
    CleanIff(f, repo, p, receipts, changes, also);
    built := Some(p);
  }

  lemma {:induction false} FoundIffIncluded(f: NoteFormat, repo: Carried, tip: Option<Oid>, inclusions: seq<Inclusion>, receipts: seq<Fact>)
    requires Receipts(receipts)
    requires match tip case None => inclusions == [] case Some(t) => IncludesFound(f, repo, t, inclusions, receipts)
    ensures forall i :: 0 <= i < |receipts| ==>
              ((exists k :: 0 <= k < |inclusions| && inclusions[k].id == receipts[i].id) <==> !NotFound(f, repo, tip, receipts[i].attachedTo))
  {
    hide IncludesFound;
    if tip.Some? {
      hide NotFound;
      forall i | 0 <= i < |receipts|
        ensures (exists k :: 0 <= k < |inclusions| && inclusions[k].id == receipts[i].id) <==> !NotFound(f, repo, tip, receipts[i].attachedTo)
      {
        LeftOutIff(f, repo, tip.value, inclusions, receipts, i);
      }
    }
  }

  /** What a producer built has nothing to complain about exactly when the round
      trip goes through. */
  lemma {:induction false} CleanIff(f: NoteFormat, repo: Carried, p: Package, receipts: seq<Fact>, changes: seq<Change>, also: set<Oid>)
    requires Receipts(receipts) && p.claims == ClaimsOf(receipts) && p.bundle.changes == changes && BundleOf(p) == p.bundle
    requires Hashed(f.format, p.bundle.objects) && InventoryHolds(f.format, p.bundle.objects, p.bundle) && AnchorsAgree(p)
    requires NamesGiven(f, repo) && PartOf(p.bundle.objects, repo)
    requires forall o <- also :: o in repo ==> o in p.bundle.objects
    requires match p.notesTip
             case None => p.inclusions == []
             case Some(tip) =>
               && tip in repo && tip in also && IncludesFound(f, repo, tip, p.inclusions, receipts)
               && (forall i :: 0 <= i < |receipts| ==> Readable(f, repo, tip, receipts[i]))
               && forall k :: 0 <= k < |p.inclusions| ==> (forall o <- p.inclusions[k].path :: o in also) && p.inclusions[k].blob in also
    requires forall i :: 0 <= i < |changes| && changes[i].status == Covered ==>
               (Quiet(f.format, p.bundle.objects, p.bundle, changes[i]) <==> Borne(receipts, Included(p.inclusions), changes[i]))
    ensures Clean(f, p) <==> RoundTrips(f, repo, p.notesTip, receipts, changes)
  {
    hide InventoryHolds, Hashed, AnchorsAgree, Quiet, PartOf, NamesGiven, IncludesFound, Readable, Shown, NotFound, Borne, ClaimIsFound;
    forall i | 0 <= i < |changes| && changes[i].status == Covered
      ensures Borne(receipts, Included(p.inclusions), changes[i]) <==>
              (ByReceipt(changes[i]) ==> ClaimIsFound(f, repo, p.notesTip, receipts, changes[i]))
    {
      BorneIffFound(f, repo, p.notesTip, p.inclusions, receipts, changes[i]);
    }
    match p.notesTip {
      case None =>
      case Some(tip) => AllAcceptedIff(f, repo, p.bundle.objects, tip, p.inclusions, receipts);
    }
  }

  lemma {:induction false} BorneIffFound(f: NoteFormat, repo: Carried, tip: Option<Oid>, inclusions: seq<Inclusion>, receipts: seq<Fact>, c: Change)
    requires match tip case None => inclusions == [] case Some(t) => IncludesFound(f, repo, t, inclusions, receipts)
    ensures Borne(receipts, Included(inclusions), c) <==> (ByReceipt(c) ==> ClaimIsFound(f, repo, tip, receipts, c))
  {
    hide IncludesFound;
    var to := FirstClaiming(receipts, c);
    if tip.Some? && to.Some? { AttachedAreIncluded(f, repo, tip.value, inclusions, receipts, to.value); }
  }

  lemma {:induction false} AllAcceptedIff(f: NoteFormat, repo: Carried, carried: Carried, tip: Oid, inclusions: seq<Inclusion>, receipts: seq<Fact>)
    requires PartOf(carried, repo) && NamesGiven(f, repo) && Receipts(receipts) && tip in carried
    requires IncludesFound(f, repo, tip, inclusions, receipts)
    requires forall i :: 0 <= i < |receipts| ==> Readable(f, repo, tip, receipts[i])
    requires forall k :: 0 <= k < |inclusions| ==>
               (forall o <- inclusions[k].path :: o in repo ==> o in carried) && (inclusions[k].blob in repo ==> inclusions[k].blob in carried)
    ensures (forall k :: 0 <= k < |inclusions| ==> Accepted(f, carried, tip, inclusions[k], ClaimsOf(receipts))) <==>
            forall i :: 0 <= i < |receipts| ==> Shown(f, repo, tip, receipts[i])
  {
    hide Accepted, NamesGiven, PartOf, ClaimsOf, IncludesFound, Shown, Readable;
    if forall i :: 0 <= i < |receipts| ==> Shown(f, repo, tip, receipts[i]) {
      forall k | 0 <= k < |inclusions| ensures Accepted(f, carried, tip, inclusions[k], ClaimsOf(receipts)) {
        ShownAreAccepted(f, repo, carried, tip, inclusions, receipts, k);
      }
    }
    if forall k :: 0 <= k < |inclusions| ==> Accepted(f, carried, tip, inclusions[k], ClaimsOf(receipts)) {
      forall i | 0 <= i < |receipts| ensures Shown(f, repo, tip, receipts[i]) {
        AcceptedAreShown(f, repo, carried, tip, inclusions, receipts, i);
      }
    }
  }

  lemma {:induction false} ShownAreAccepted(f: NoteFormat, repo: Carried, carried: Carried, tip: Oid, inclusions: seq<Inclusion>,
    receipts: seq<Fact>, k: nat)
    requires PartOf(carried, repo) && NamesGiven(f, repo) && Receipts(receipts) && tip in carried
    requires IncludesFound(f, repo, tip, inclusions, receipts) && k < |inclusions|
    requires forall i :: 0 <= i < |receipts| ==> Readable(f, repo, tip, receipts[i]) && Shown(f, repo, tip, receipts[i])
    requires (forall o <- inclusions[k].path :: o in repo ==> o in carried) && (inclusions[k].blob in repo ==> inclusions[k].blob in carried)
    ensures Accepted(f, carried, tip, inclusions[k], ClaimsOf(receipts))
  {
    hide Accepted, NamesGiven, PartOf, ClaimsOf, Receipts, Located, Readable, Shown;
    var i :| 0 <= i < |receipts| && Located(f, repo, tip, inclusions[k], receipts[i]);
    ShownIff(f, repo, carried, tip, inclusions[k], receipts, i);
  }

  lemma {:induction false} AcceptedAreShown(f: NoteFormat, repo: Carried, carried: Carried, tip: Oid, inclusions: seq<Inclusion>,
    receipts: seq<Fact>, i: nat)
    requires PartOf(carried, repo) && NamesGiven(f, repo) && Receipts(receipts) && tip in carried && i < |receipts|
    requires IncludesFound(f, repo, tip, inclusions, receipts) && Readable(f, repo, tip, receipts[i])
    requires forall k :: 0 <= k < |inclusions| ==>
               (forall o <- inclusions[k].path :: o in repo ==> o in carried) && (inclusions[k].blob in repo ==> inclusions[k].blob in carried)
    requires forall k :: 0 <= k < |inclusions| ==> Accepted(f, carried, tip, inclusions[k], ClaimsOf(receipts))
    ensures Shown(f, repo, tip, receipts[i])
  {
    hide Accepted, NamesGiven, PartOf, ClaimsOf, Receipts, Located, Readable, IsFirstNote, NoteSays, LocatedFor;
    if !NotFound(f, repo, Some(tip), receipts[i].attachedTo) {
      hide Shown, NotFound;
      var k :| 0 <= k < |inclusions| && inclusions[k].id == receipts[i].id && inclusions[k].attachment == receipts[i].attachedTo;
      SameReceipt(f, repo, tip, inclusions[k], receipts, i);
      ShownIff(f, repo, carried, tip, inclusions[k], receipts, i);
    }
  }

  lemma {:induction false} SameReceipt(f: NoteFormat, repo: Carried, tip: Oid, p: Inclusion, receipts: seq<Fact>, i: nat)
    requires Receipts(receipts) && LocatedFor(f, repo, tip, p, receipts) && i < |receipts| && p.id == receipts[i].id
    ensures Located(f, repo, tip, p, receipts[i])
  {
    var j :| 0 <= j < |receipts| && Located(f, repo, tip, p, receipts[j]);
    assert j == i;
  }

  lemma {:induction false} ShownIff(f: NoteFormat, repo: Carried, carried: Carried, tip: Oid, p: Inclusion, receipts: seq<Fact>, i: nat)
    requires PartOf(carried, repo) && NamesGiven(f, repo) && Receipts(receipts) && tip in carried
    requires i < |receipts| && Located(f, repo, tip, p, receipts[i]) && Readable(f, repo, tip, receipts[i])
    requires (forall o <- p.path :: o in repo ==> o in carried) && (p.blob in repo ==> p.blob in carried)
    ensures Accepted(f, carried, tip, p, ClaimsOf(receipts)) <==> Shown(f, repo, tip, receipts[i])
  {
    hide Accepted, NamesGiven, PartOf, IsFirstNote, NoteSays, ClaimsOf, Receipts, PathLeadsTo;
    AcceptedIff(f, repo, carried, tip, p, receipts, i);
    forall path: seq<Oid>, blob: Oid | IsFirstNote(f, repo, tip, f.hex(receipts[i].attachedTo), path, blob) ensures blob == p.blob {
      OneFirstNote(f, repo, tip, f.hex(receipts[i].attachedTo), path, blob, p.path, p.blob);
    }
  }

  /** When every receipt was read from a note that nothing hides, the round trip
      goes through, whatever else the repository holds. */
  lemma {:induction false} VisibleNotesRoundTrip(f: NoteFormat, repo: Carried, catalog: Catalog, target: Oid, e: Evidence, tip: Oid, changes: seq<Change>)
    requires NamesGiven(f, repo) && RealEvidence(f.format, repo, catalog, target, e)
    requires forall i :: 0 <= i < |changes| ==> PlannedChange(f.format, repo, e, changes[i])
    requires forall i :: 0 <= i < |e.receipt.receipts| ==>
               exists path: seq<Oid>, blob: Oid :: IsFirstNote(f, repo, tip, f.hex(e.receipt.receipts[i].attachedTo), path, blob) &&
                                                   NoteSays(f, repo, blob, e.receipt.receipts[i])
    ensures RoundTrips(f, repo, Some(tip), e.receipt.receipts, changes)
  {
    hide IsFirstNote, NoteSays, NamesGiven, RealEvidence, PlannedChange;
    var receipts := e.receipt.receipts;
    forall i | 0 <= i < |receipts| ensures Shown(f, repo, tip, receipts[i]) {
      var name := f.hex(receipts[i].attachedTo);
      var path: seq<Oid>, blob: Oid :| IsFirstNote(f, repo, tip, name, path, blob) && NoteSays(f, repo, blob, receipts[i]);
      forall p: seq<Oid>, b: Oid | IsFirstNote(f, repo, tip, name, p, b) ensures b == blob { OneFirstNote(f, repo, tip, name, path, blob, p, b); }
    }
    forall i | 0 <= i < |changes| && changes[i].status == Covered && ByReceipt(changes[i])
      ensures ClaimIsFound(f, repo, Some(tip), receipts, changes[i])
    {
      CoveredIsSupported(f.format, repo, catalog, target, e, changes[i]);
      SupportedIsClaimed(f.format, repo, e, changes[i]);
    }
  }

  const MIXED_RECEIPT := Fact(5, 1, Receipt(None, [2], []))
  const MIXED_CHANGE := ProofBinding.Change(2, 2, 0, Covered, ReceiptCommit)

  /** A hidden note breaks it: the note holds what the evidence says, nothing else
      covers the change, and the receipt is left out. */
  lemma {:induction false} HiddenNoteBreaksTheRoundTrip()
    ensures IsNote(MIXED_FORMAT, MIXED_NOTES, 0, MIXED_FORMAT.hex(MIXED_RECEIPT.attachedTo), [4], 8)
    ensures NoteSays(MIXED_FORMAT, MIXED_NOTES, 8, MIXED_RECEIPT) && NotFound(MIXED_FORMAT, MIXED_NOTES, Some(0), MIXED_RECEIPT.attachedTo)
    ensures Readable(MIXED_FORMAT, MIXED_NOTES, 0, MIXED_RECEIPT) && Shown(MIXED_FORMAT, MIXED_NOTES, 0, MIXED_RECEIPT)
    ensures !RoundTrips(MIXED_FORMAT, MIXED_NOTES, Some(0), [MIXED_RECEIPT], [MIXED_CHANGE])
  {
    hide IsFirstNote, IsNote;
    MixedTreeHidesANote();
    assert !ClaimIsFound(MIXED_FORMAT, MIXED_NOTES, Some(0), [MIXED_RECEIPT], MIXED_CHANGE);
    assert [MIXED_CHANGE][0] == MIXED_CHANGE;
  }

  lemma {:induction false} SupportedIsClaimed(f: Format, repo: Carried, e: Evidence, c: Change)
    requires ByReceipt(c) && exists to :: Supports(f, repo, e, c, to)
    ensures FirstClaiming(e.receipt.receipts, c).Some?
  {
    var to :| Supports(f, repo, e, c, to);
    var r :| r in e.receipt.receipts && r.attachedTo == to && Claims(r, c);
    var i :| 0 <= i < |e.receipt.receipts| && e.receipt.receipts[i] == r;
  }

  /** A change the lattice has no rule for: only an identity that a reachable
      amendment downgraded speaks for it. */
  predicate OnlyAmended(c: Change, e: Evidence) {
    && c.changeId in e.receipt.amended && c.commit !in e.direct.commits && c.commit !in e.receipt.commits
    && (c.changeId in e.direct.changeIds || c.changeId in e.receipt.changeIds)
  }

  lemma {:induction false} ReproducedIff(f: Format, repo: Carried, changes: seq<Change>, e: Evidence)
    requires forall i :: 0 <= i < |changes| ==> PlannedChange(f, repo, e, changes[i])
    ensures Reproduced(changes, e) <==> forall i :: 0 <= i < |changes| ==> !OnlyAmended(changes[i], e)
  {
    hide FirstRule, Classify;
    forall i | 0 <= i < |changes|
      ensures FirstRule(PROOF_RULES, changes[i].commit, changes[i].changeId, e) == (changes[i].status, changes[i].proof) <==>
              !OnlyAmended(changes[i], e)
    {
      LatticeReproducesPlannerIff(changes[i].commit, changes[i].changeId, e);
    }
  }

  /** The round trip over a linear range: the verifier accepts what was produced
      exactly when the notes it was produced from can be found and the lattice has
      a rule for every change; then every change the planner covered is proven. */
  method ProduceAndVerify(f: NoteFormat, repo: Carried, ghost catalog: Catalog, target: Oid, source: Oid, base: Oid, effective: Option<Oid>,
    range: seq<Oid>, changes: seq<Change>, e: Evidence, targetHistory: seq<Oid>, rows: Oid -> History, sourceRows: Oid -> History,
    notesTip: Option<Oid>, lineageRoots: seq<Oid>)
    returns (produced: bool, ok: bool, problems: nat, proven: seq<bool>)
    requires Repository(f.format, repo) && target in RealHistory(f.format, repo)
    requires LinearRange(f.format, repo, base, source, range) && range == ChangeCommits(changes)
    requires RealEvidence(f.format, repo, catalog, target, e)
    requires NamesGiven(f, repo) && (notesTip.Some? ==> notesTip.value in repo) && Receipts(e.receipt.receipts)
    requires forall o <- targetHistory :: o in repo
    requires forall o :: o in targetHistory <==> o in e.direct.commits
    requires forall to :: Between(RealHistory(f.format, repo), target, to, rows(to)) &&
                          Between(RealHistory(f.format, repo), source, to, sourceRows(to))
    requires forall i :: 0 <= i < |changes| ==> PlannedChange(f.format, repo, e, changes[i])
    ensures produced <==>
            (notesTip.Some? ==> forall i :: 0 <= i < |e.receipt.receipts| ==> Readable(f, repo, notesTip.value, e.receipt.receipts[i]))
    ensures produced ==> (problems == 0 <==> RoundTrips(f, repo, notesTip, e.receipt.receipts, changes))
    ensures produced ==>
              (ok <==> RoundTrips(f, repo, notesTip, e.receipt.receipts, changes) &&
                       forall i :: 0 <= i < |changes| ==> !OnlyAmended(changes[i], e))
    ensures produced && problems == 0 ==>
              |proven| == |changes| && forall i :: 0 <= i < |changes| ==> (proven[i] <==> changes[i].status == Covered)
  {
    hide RealEvidence, PlannedChange, LinearRange, Between, NamesGiven, Repository, Clean, Proven, RoundTrips, Readable, NotFound, Reproduced,
      OnlyAmended, DistinctCommits;
    var built := BuildPackage(f, repo, catalog, target, source, base, effective, range, changes, e, targetHistory, rows, sourceRows, notesTip, lineageRoots);
    if built.None? { return false, false, 0, []; }
    produced := true;
    ok, problems, proven := VerifyProofBundle(f, built.value, e);
    ReproducedIff(f.format, repo, changes, e);
    ChangesAreDistinct(f.format, repo, base, source, range, changes);
  }

  lemma {:induction false} ChangesAreDistinct(f: Format, repo: Carried, base: Oid, head: Oid, range: seq<Oid>, changes: seq<Change>)
    requires LinearRange(f, repo, base, head, range) && range == ChangeCommits(changes)
    ensures DistinctCommits(changes)
  {
    RangeIsDistinct(f, repo, base, head, range, changes);
  }
}
