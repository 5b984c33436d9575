/** Building the bindings of a proof bundle, and the round trip: what the
    producer builds, the verifier accepts. */
module ProofBundle {
  import opened Git
  import opened RebaseTopology
  import opened MergePlan
  import opened ProofBinding
  import opened CommitPaths

  function Objects(repo: map<Oid, Raw>, oids: set<Oid>): Carried {
    map o | o in repo && o in oids :: repo[o]
  }

  function ParsedAt(f: Format, repo: map<Oid, Raw>, o: Oid): ParsedCommit
    requires o in repo
  {
    f.commit(repo[o].bytes)
  }

  function Previous(base: Oid, range: seq<Oid>, i: nat): Oid
    requires i < |range|
  {
    if i == 0 then base else range[i - 1]
  }

  /** A range without merges, oldest first: each commit's one parent is the
      commit before it, and the first one's is the base. An empty one ends where
      it starts. */
  ghost predicate LinearRange(f: Format, repo: map<Oid, Raw>, base: Oid, head: Oid, range: seq<Oid>) {
    && head == (if range == [] then base else range[|range| - 1]) && base !in range
    && (forall i :: 0 <= i < |range| ==> range[i] in repo && repo[range[i]].kind == CommitKind)
    && (forall i, j :: 0 <= i < j < |range| ==> range[i] != range[j])
    && forall i :: 0 <= i < |range| ==> ParsedAt(f, repo, range[i]).parents == [Previous(base, range, i)]
  }

  /** The evidence of a plan, read from the repository itself. */
  ghost predicate RealEvidence(f: Format, repo: map<Oid, Raw>, catalog: Catalog, target: Oid, e: Evidence) {
    && (forall c :: c in e.direct.commits <==> Reachable(RealHistory(f, repo), target, c) && c in repo && repo[c].kind == CommitKind)
    && (forall id :: id in e.direct.changeIds <==>
          exists c :: c in e.direct.commits && c in repo && Identity(f, c, ParsedAt(f, repo, c)) == id)
    && CoverageOf(catalog, e.direct.commits, e.receipt)
  }

  /** A change as the planner lists it: real identity and subject, and the
      planner's own verdict. */
  ghost predicate PlannedChange(f: Format, repo: map<Oid, Raw>, e: Evidence, c: Change) {
    && c.commit in repo && repo[c.commit].kind == CommitKind
    && c.changeId == Identity(f, c.commit, ParsedAt(f, repo, c.commit))
    && c.subject == ParsedAt(f, repo, c.commit).subject
    && (c.status, c.proof) == Classify(c.commit, c.changeId, e)
  }

  /** Carried objects that are a part of the repository. */
  ghost predicate PartOf(carried: Carried, repo: map<Oid, Raw>) {
    forall o <- carried :: o in repo && carried[o] == repo[o]
  }

  lemma {:induction false} CarriedCommit(f: Format, repo: map<Oid, Raw>, carried: Carried, o: Oid)
    requires PartOf(carried, repo) && o in carried && repo[o].kind == CommitKind
    ensures CommitAt(f, carried, o) == Some(ParsedAt(f, repo, o))
  {}

  /** Carrying more objects keeps a path running. */
  lemma {:induction false} RunsMore(f: Format, repo: map<Oid, Raw>, carried: Carried, more: Carried, b: Bundle, p: PathClaim)
    requires PartOf(carried, repo) && PartOf(more, repo) && carried.Keys <= more.Keys
    requires Runs(f, carried, b, p)
    ensures Runs(f, more, b, p)
  {
    assert forall o <- carried :: o in more && more[o] == carried[o];
    assert forall o :: CommitAt(f, carried, o).Some? ==> CommitAt(f, more, o) == CommitAt(f, carried, o);
  }

  /** A real chain whose commits are carried is a chain the verifier follows. */
  lemma {:induction false} RealChainHolds(f: Format, repo: map<Oid, Raw>, carried: Carried, chain: seq<Oid>)
    requires Repository(f, repo) && PartOf(carried, repo) && IsPath(RealHistory(f, repo), chain)
    requires chain[0] in RealHistory(f, repo)
    requires forall o <- chain :: o in repo ==> o in carried
    ensures ChainHolds(f, carried, chain)
    ensures forall i :: 0 <= i < |chain| ==> chain[i] in repo && repo[chain[i]].kind == CommitKind
  {
    var h := RealHistory(f, repo);
    forall i | 0 <= i < |chain| ensures chain[i] in repo && repo[chain[i]].kind == CommitKind {
      if i > 0 { assert chain[i - 1] in h && chain[i - 1 + 1] in h[chain[i - 1]]; }
    }
    forall i | 0 <= i < |chain| - 1
      ensures CommitAt(f, carried, chain[i]).Some? && chain[i + 1] in CommitAt(f, carried, chain[i]).value.parents
    {
      assert chain[i] in h && chain[i + 1] in h[chain[i]];
      assert chain[i] in chain;
      CarriedCommit(f, repo, carried, chain[i]);
    }
  }

  // The inventory.

  /** The carried objects of a linear range let the walk reach every commit of
      it and the base, and nothing else. */
  lemma {:induction false} LinearWalk(f: Format, repo: map<Oid, Raw>, carried: Carried, base: Oid, head: Oid, range: seq<Oid>)
    requires LinearRange(f, repo, base, head, range) && PartOf(carried, repo) && forall o <- range :: o in carried
    ensures forall o :: Walked(f, carried, head, base, o) <==> o in range || o == base
  {
    hide CommitAt, WalkLink, Walked, LinearRange;
    HeadIsWalked(f, carried, head, base);
    if range == [] {
      OnlyTheBase(f, repo, carried, base, head);
    } else {
      HeadIsLast(f, repo, base, head, range);
      var i := |range| - 1;
      while i > 0
        invariant 0 <= i < |range|
        invariant forall j :: i <= j < |range| ==> Walked(f, carried, head, base, range[j])
      {
        LinearLink(f, repo, carried, base, head, range, i);
        WalkOn(f, carried, head, base, range[i], range[i - 1]);
        i := i - 1;
      }
      LinearLink(f, repo, carried, base, head, range, 0);
      WalkOn(f, carried, head, base, range[0], base);
      NothingElse(f, repo, carried, base, head, range);
    }
  }

  lemma {:induction false} OnlyTheBase(f: Format, repo: map<Oid, Raw>, carried: Carried, base: Oid, head: Oid)
    requires LinearRange(f, repo, base, head, [])
    ensures head == base && forall o :: Walked(f, carried, head, base, o) ==> o == base
  {
    BaseHasNoLink(f, carried, base);
    forall o | Walked(f, carried, head, base, o) ensures o == base {
      ClosedHoldsWalked(f, carried, head, base, {base}, o);
    }
  }

  lemma {:induction false} NothingElse(f: Format, repo: map<Oid, Raw>, carried: Carried, base: Oid, head: Oid, range: seq<Oid>)
    requires LinearRange(f, repo, base, head, range) && range != [] && PartOf(carried, repo) && forall o <- range :: o in carried
    ensures forall o :: Walked(f, carried, head, base, o) ==> o in range || o == base
  {
    hide CommitAt, WalkLink, Walked, LinearRange;
    HeadIsLast(f, repo, base, head, range);
    BaseHasNoLink(f, carried, base);
    var closed := (set o | o in range) + {base};
    forall a, b | a in closed && WalkLink(f, carried, base, a, b) ensures b in closed {
      if a != base {
        var k :| 0 <= k < |range| && range[k] == a;
        LinearLink(f, repo, carried, base, head, range, k);
        assert k > 0 ==> range[k - 1] in range;
      }
    }
    forall o | Walked(f, carried, head, base, o) ensures o in closed {
      ClosedHoldsWalked(f, carried, head, base, closed, o);
    }
  }

  lemma {:induction false} HeadIsLast(f: Format, repo: map<Oid, Raw>, base: Oid, head: Oid, range: seq<Oid>)
    requires LinearRange(f, repo, base, head, range) && range != []
    ensures range[|range| - 1] == head && head in range
  {}

  lemma {:induction false} BaseHasNoLink(f: Format, carried: Carried, base: Oid)
    ensures forall b :: !WalkLink(f, carried, base, base, b)
  {}

  lemma {:induction false} LinearLink(f: Format, repo: map<Oid, Raw>, carried: Carried, base: Oid, head: Oid, range: seq<Oid>, k: nat)
    requires LinearRange(f, repo, base, head, range) && PartOf(carried, repo) && forall o <- range :: o in carried
    requires k < |range|
    ensures forall b :: WalkLink(f, carried, base, range[k], b) <==> b == Previous(base, range, k)
  {
    assert range[k] in range;
    CarriedCommit(f, repo, carried, range[k]);
    assert ParsedAt(f, repo, range[k]).parents == [Previous(base, range, k)];
  }

  lemma {:induction false} InventoryOfRange(f: Format, repo: map<Oid, Raw>, e: Evidence, b: Bundle)
    requires LinearRange(f, repo, b.physicalBase, b.sourceHead, b.inventory) && PartOf(b.objects, repo)
    requires forall o <- b.inventory :: o in b.objects
    requires b.inventory == ChangeCommits(b.changes)
    requires forall i :: 0 <= i < |b.changes| ==> PlannedChange(f, repo, e, b.changes[i])
    ensures InventoryHolds(f, b.objects, b)
  {
    hide Walked, Classify;
    LinearWalk(f, repo, b.objects, b.physicalBase, b.sourceHead, b.inventory);
    forall o | o in b.inventory ensures CommitAt(f, b.objects, o).Some? {
      var i :| 0 <= i < |b.inventory| && b.inventory[i] == o;
      CarriedCommit(f, repo, b.objects, o);
    }
    forall i | 0 <= i < |b.changes| ensures Identified(f, b.objects, b.changes[i]) {
      assert b.inventory[i] == b.changes[i].commit;
      assert b.inventory[i] in b.inventory;
      CarriedCommit(f, repo, b.objects, b.changes[i].commit);
    }
  }

  // Reachability.

  /** Where the paths of a covered change may end. */
  ghost predicate Supports(f: Format, repo: map<Oid, Raw>, e: Evidence, c: Change, to: Oid) {
    match c.proof
    case CommitAncestry => to == c.commit
    case StableChangeId => to in e.direct.commits && to in repo && Identity(f, to, ParsedAt(f, repo, to)) == c.changeId
    case ReceiptCommit => exists r :: r in e.receipt.receipts && r.attachedTo == to && r.body.Receipt? && c.commit in r.body.absorbedCommits
    case ReceiptChangeId => exists r :: r in e.receipt.receipts && r.attachedTo == to && r.body.Receipt? && c.changeId in r.body.absorbedChanges
    case _ => false
  }

  function Attachments(receipts: seq<Fact>): set<Oid> {
    set i | 0 <= i < |receipts| :: receipts[i].attachedTo
  }

  /** Every covered change has an end to run a path to, and it is on the target. */
  lemma {:induction false} CoveredIsSupported(f: Format, repo: map<Oid, Raw>, catalog: Catalog, target: Oid, e: Evidence, c: Change)
    requires RealEvidence(f, repo, catalog, target, e) && PlannedChange(f, repo, e, c) && c.status == Covered
    ensures exists to :: Supports(f, repo, e, c, to)
    ensures forall to :: Supports(f, repo, e, c, to) ==> to in e.direct.commits
  {
    match c.proof {
      case CommitAncestry => assert Supports(f, repo, e, c, c.commit);
      case StableChangeId =>
        var to :| to in e.direct.commits && to in repo && Identity(f, to, ParsedAt(f, repo, to)) == c.changeId;
        assert Supports(f, repo, e, c, to);
      case ReceiptCommit =>
        var r :| r in e.receipt.receipts && r.body.Receipt? && c.commit in r.body.absorbedCommits;
        assert Supports(f, repo, e, c, r.attachedTo);
        assert forall g <- e.receipt.receipts :: Counts(catalog, e.direct.commits, g);
      case ReceiptChangeId =>
        var r :| r in e.receipt.receipts && r.body.Receipt? && c.changeId in r.body.absorbedChanges;
        assert Supports(f, repo, e, c, r.attachedTo);
        assert forall g <- e.receipt.receipts :: Counts(catalog, e.direct.commits, g);
      case _ =>
    }
  }

  /** A real chain to where a change's paths may end runs there, and bears the
      change out unless the end is an attachment that nothing includes. */
  lemma {:induction false} SupportedPathRuns(f: Format, repo: map<Oid, Raw>, carried: Carried, e: Evidence, b: Bundle, c: Change, p: PathClaim)
    requires Repository(f, repo) && PartOf(carried, repo) && c.status == Covered
    requires Supports(f, repo, e, c, p.to)
    requires IsPath(RealHistory(f, repo), p.commits) && p.commits[0] == b.targetHead && p.commits[|p.commits| - 1] == p.to && p.from == b.targetHead
    requires b.targetHead in RealHistory(f, repo) && forall o <- p.commits :: o in repo ==> o in carried
    ensures Runs(f, carried, b, p)
  {
    RealChainHolds(f, repo, carried, p.commits);
    assert p.commits[|p.commits| - 1] in p.commits;
    CarriedCommit(f, repo, carried, p.to);
  }

  /** A change whose paths end at attachments of receipts. */
  predicate ByReceipt(c: Change) {
    c.proof == ReceiptCommit || c.proof == ReceiptChangeId
  }

  lemma {:induction false} RunningBearsIff(f: Format, repo: map<Oid, Raw>, carried: Carried, e: Evidence, b: Bundle, c: Change, p: PathClaim)
    requires PartOf(carried, repo) && Runs(f, carried, b, p) && Supports(f, repo, e, c, p.to)
    ensures Bears(f, carried, b, c, p) <==> (ByReceipt(c) ==> p.to in b.attachments)
  {}

  /** The ends a producer runs paths to: the commit itself, the first target
      commit that carries the id, or the attachment of every claiming receipt. */
  method PathEnds(f: Format, repo: map<Oid, Raw>, targetHistory: seq<Oid>, e: Evidence, c: Change) returns (ends: seq<Oid>)
    requires forall o <- targetHistory :: o in repo
    requires forall o :: o in targetHistory <==> o in e.direct.commits
    ensures forall to <- ends :: Supports(f, repo, e, c, to)
    ensures (exists to :: Supports(f, repo, e, c, to)) ==> ends != []
    ensures ByReceipt(c) && ends != [] ==> FirstClaiming(e.receipt.receipts, c) == Some(ends[0])
  {
    ends := [];
    match c.proof {
      case CommitAncestry => ends := [c.commit];
      case StableChangeId =>
        for i := 0 to |targetHistory|
          invariant ends == []
          invariant forall j :: 0 <= j < i ==> Identity(f, targetHistory[j], ParsedAt(f, repo, targetHistory[j])) != c.changeId
        {
          assert targetHistory[i] in targetHistory;
          if Identity(f, targetHistory[i], ParsedAt(f, repo, targetHistory[i])) == c.changeId {
            return [targetHistory[i]];
          }
        }
      case _ => ends := ReceiptEnds(f, repo, e, c);
    }
  }

  method ReceiptEnds(f: Format, repo: map<Oid, Raw>, e: Evidence, c: Change) returns (ends: seq<Oid>)
    requires c.proof != CommitAncestry && c.proof != StableChangeId
    ensures forall to <- ends :: Supports(f, repo, e, c, to)
    ensures (exists to :: Supports(f, repo, e, c, to)) ==> ends != []
    ensures ByReceipt(c) && ends != [] ==> FirstClaiming(e.receipt.receipts, c) == Some(ends[0])
  {
    ends := [];
    var receipts := e.receipt.receipts;
    for i := 0 to |receipts|
      invariant forall to <- ends :: Supports(f, repo, e, c, to)
      invariant forall j :: 0 <= j < i && Claims(receipts[j], c) ==> ends != []
      invariant ends == [] ==> FirstClaiming(receipts[i..], c) == FirstClaiming(receipts, c)
      invariant ends != [] ==> FirstClaiming(receipts, c) == Some(ends[0])
    {
      assert receipts[i..][0] == receipts[i] && receipts[i..][1..] == receipts[i + 1..];
      var receipt := receipts[i];
      if Claims(receipt, c) {
        ends := ends + [receipt.attachedTo];
      }
    }
  }

  predicate Claims(r: Fact, c: Change) {
    r.body.Receipt? &&
    match c.proof
    case ReceiptCommit => c.commit in r.body.absorbedCommits
    case ReceiptChangeId => c.changeId in r.body.absorbedChanges
    case _ => false
  }

  /** Where the first receipt that claims a change is attached. */
  function FirstClaiming(receipts: seq<Fact>, c: Change): (r: Option<Oid>)
    ensures r.None? ==> forall i :: 0 <= i < |receipts| ==> !Claims(receipts[i], c)
    ensures r.Some? ==> exists i :: 0 <= i < |receipts| && Claims(receipts[i], c) && receipts[i].attachedTo == r.value &&
                                    forall j :: 0 <= j < i ==> !Claims(receipts[j], c)
  {
    if receipts == [] then None
    else if Claims(receipts[0], c) then Some(receipts[0].attachedTo)
    else FirstClaiming(receipts[1..], c)
  }

  /** Whether the first path that is tried for a change ends where it may. */
  predicate Borne(receipts: seq<Fact>, attachments: set<Oid>, c: Change) {
    ByReceipt(c) ==> FirstClaiming(receipts, c).Some? && FirstClaiming(receipts, c).value in attachments
  }

  function ParentsOf(f: Format, repo: map<Oid, Raw>, range: seq<Oid>): set<Oid> {
    set o, i | o in repo && o in range && 0 <= i < |ParsedAt(f, repo, o).parents| :: ParsedAt(f, repo, o).parents[i]
  }

  lemma {:induction false} ParentsAreCarried(f: Format, repo: map<Oid, Raw>, range: seq<Oid>, wanted: set<Oid>)
    requires ParentsOf(f, repo, range) <= wanted
    ensures forall o, p :: o in range && o in repo && p in ParsedAt(f, repo, o).parents && p in repo ==> p in Objects(repo, wanted)
  {
    forall o, p | o in range && o in repo && p in ParsedAt(f, repo, o).parents ensures p in wanted {
      var i :| 0 <= i < |ParsedAt(f, repo, o).parents| && ParsedAt(f, repo, o).parents[i] == p;
      assert p in ParentsOf(f, repo, range);
    }
  }

  /** A path found for one of the first `n` changes. */
  ghost predicate Owned(f: Format, repo: map<Oid, Raw>, e: Evidence, b: Bundle, changes: seq<Change>, n: nat, p: PathClaim)
    requires n <= |changes|
  {
    && Runs(f, b.objects, b, p)
    && exists k :: 0 <= k < n && changes[k].status == Covered && p.subject == changes[k].commit && Supports(f, repo, e, changes[k], p.to)
  }

  /** The first path of a change, which for a receipt's claim runs to the first
      receipt that makes it. */
  ghost predicate HasPath(e: Evidence, paths: seq<PathClaim>, c: Change) {
    exists j :: 0 <= j < |paths| && paths[j].subject == c.commit && LeadsFirst(e, paths, c, j)
  }

  ghost predicate LeadsFirst(e: Evidence, paths: seq<PathClaim>, c: Change, j: nat)
    requires j < |paths|
  {
    && (forall k :: 0 <= k < j ==> paths[k].subject != c.commit)
    && (ByReceipt(c) ==> FirstClaiming(e.receipt.receipts, c) == Some(paths[j].to))
  }

  /** The paths found for the first `n` changes: each belongs to one of them, and
      every covered one has some. */
  ghost predicate OwnPaths(f: Format, repo: map<Oid, Raw>, e: Evidence, b: Bundle, changes: seq<Change>, n: nat, paths: seq<PathClaim>) {
    && n <= |changes|
    && (forall p <- paths :: Owned(f, repo, e, b, changes, n, p))
    && (forall k :: 0 <= k < n && changes[k].status == Covered ==> HasPath(e, paths, changes[k]))
  }

  /** Builds the bindings of one plan. Every commit of the range and its parents
      is carried with whatever else is wanted; every covered change gets a
      shortest path for each of its ends, and then the two bases get theirs. */
  method BuildBindings(f: Format, repo: map<Oid, Raw>, ghost catalog: Catalog, target: Oid, source: Oid, base: Oid, effective: Option<Oid>,
    range: seq<Oid>, changes: seq<Change>, e: Evidence, targetHistory: seq<Oid>, rows: Oid -> History, sourceRows: Oid -> History,
    attachments: set<Oid>, also: set<Oid>)
    returns (b: Bundle)
    requires Repository(f, repo) && target in RealHistory(f, repo)
    requires LinearRange(f, repo, base, source, range) && range == ChangeCommits(changes)
    requires RealEvidence(f, repo, catalog, target, e)
    requires forall o <- targetHistory :: o in repo
    requires forall o :: o in targetHistory <==> o in e.direct.commits
    requires forall to :: Between(RealHistory(f, repo), target, to, rows(to)) && Between(RealHistory(f, repo), source, to, sourceRows(to))
    requires forall i :: 0 <= i < |changes| ==> PlannedChange(f, repo, e, changes[i])
    ensures Hashed(f, b.objects) && PartOf(b.objects, repo) && b.changes == changes && b.targetHead == target && b.sourceHead == source
    ensures b.physicalBase == base && b.inventory == range && b.attachments == attachments
    ensures forall o <- also :: o in repo ==> o in b.objects
    ensures forall o, p :: o in range && o in repo && p in ParsedAt(f, repo, o).parents && p in repo ==> p in b.objects
    ensures InventoryHolds(f, b.objects, b)
    ensures forall i :: 0 <= i < |changes| && changes[i].status == Covered ==>
              && (Quiet(f, b.objects, b, changes[i]) <==> Borne(e.receipt.receipts, attachments, changes[i]))
              && (Quiet(f, b.objects, b, changes[i]) ==> Proven(f, b.objects, b, changes[i]))
  {
    hide RealEvidence, PlannedChange, Bears, Runs, Reachable, Between, Supports, LinearRange, Walked, InventoryHolds, ParentsOf, ParsedAt,
      Quiet, Proven, OwnPaths, FirstClaiming, Borne;
    var parents := ParentsOf(f, repo, range);
    var wanted := (set o | o in range) + parents + also;
    var paths: seq<PathClaim> := [];
    b := Bundle(Objects(repo, wanted), target, source, base, range, changes, paths, attachments);
    NoPathsYet(f, repo, e, b, changes);
    RangeIsDistinct(f, repo, base, source, range, changes);
    for i := 0 to |changes|
      invariant b == Bundle(Objects(repo, wanted), target, source, base, range, changes, paths, attachments)
      invariant (forall o <- range :: o in wanted) && parents + also <= wanted
      invariant OwnPaths(f, repo, e, b, changes, i, paths)
    {
      ghost var before, sofar := b, paths;
      ghost var found: seq<PathClaim> := [];
      if changes[i].status == Covered {
        var ends := PathEnds(f, repo, targetHistory, e, changes[i]);
        CoveredIsSupported(f, repo, catalog, target, e, changes[i]);
        var more, chains := AddPaths(f, repo, catalog, target, e, changes[i], ends, rows, wanted);
        wanted, paths := wanted + more, paths + chains;
        found := chains;
        b := Bundle(Objects(repo, wanted), target, source, base, range, changes, paths, attachments);
        assert BuiltOver(b, repo, target, wanted);
      }
      OneChangeMore(f, repo, e, before, b, changes, i, sofar, found);
      assert sofar + [] == sofar;
    }
    ghost var own := paths;
    var toBase := CommitPath(RealHistory(f, repo), target, base, rows(base));
    if toBase.Some? {
      wanted, paths := wanted + (set o | o in toBase.value), paths + [PathClaim(base, target, base, toBase.value)];
    }
    if effective.Some? && effective.value != base {
      var toEffective := CommitPath(RealHistory(f, repo), source, effective.value, sourceRows(effective.value));
      if toEffective.Some? {
        wanted := wanted + set o | o in toEffective.value;
        paths := paths + [PathClaim(effective.value, source, effective.value, toEffective.value)];
      }
    }
    ghost var before := b;
    b := Bundle(Objects(repo, wanted), target, source, base, range, changes, paths, attachments);
    OwnPathsStay(f, repo, e, before, b, changes, |changes|, own);
    OwnPathsAreTried(f, repo, e, b, changes, own);
    ParentsAreCarried(f, repo, range, wanted);
    RangeIsCarried(f, repo, base, source, range, wanted);
    InventoryOfRange(f, repo, e, b);
  }

  lemma {:induction false} NoPathsYet(f: Format, repo: map<Oid, Raw>, e: Evidence, b: Bundle, changes: seq<Change>)
    ensures OwnPaths(f, repo, e, b, changes, 0, [])
  {}

  lemma {:induction false} RangeIsDistinct(f: Format, repo: map<Oid, Raw>, base: Oid, head: Oid, range: seq<Oid>, changes: seq<Change>)
    requires LinearRange(f, repo, base, head, range) && range == ChangeCommits(changes)
    ensures forall i, j :: 0 <= i < j < |changes| ==> changes[i].commit != changes[j].commit
  {
    assert forall i :: 0 <= i < |changes| ==> range[i] == changes[i].commit;
  }

  lemma {:induction false} RangeIsCarried(f: Format, repo: map<Oid, Raw>, base: Oid, head: Oid, range: seq<Oid>, wanted: set<Oid>)
    requires LinearRange(f, repo, base, head, range) && forall o <- range :: o in wanted
    ensures forall o <- range :: o in Objects(repo, wanted)
  {
    forall o | o in range ensures o in repo { var i :| 0 <= i < |range| && range[i] == o; }
  }

  lemma {:induction false} OwnPathsStay(f: Format, repo: map<Oid, Raw>, e: Evidence, before: Bundle, after: Bundle, changes: seq<Change>, n: nat,
    paths: seq<PathClaim>)
    requires OwnPaths(f, repo, e, before, changes, n, paths)
    requires PartOf(before.objects, repo) && PartOf(after.objects, repo) && before.objects.Keys <= after.objects.Keys
    requires before.targetHead == after.targetHead
    ensures OwnPaths(f, repo, e, after, changes, n, paths)
  {
    hide Runs, Supports;
    forall p | p in paths ensures Owned(f, repo, e, after, changes, n, p) {
      assert Owned(f, repo, e, before, changes, n, p);
      RunsMore(f, repo, before.objects, after.objects, before, p);
      RunsAlike(f, after.objects, before, after, p);
    }
  }

  lemma {:induction false} RunsAlike(f: Format, carried: Carried, before: Bundle, after: Bundle, p: PathClaim)
    requires before.targetHead == after.targetHead
    ensures Runs(f, carried, before, p) <==> Runs(f, carried, after, p)
  {}

  lemma {:induction false} OneChangeMore(f: Format, repo: map<Oid, Raw>, e: Evidence, before: Bundle, after: Bundle, changes: seq<Change>, i: nat,
    sofar: seq<PathClaim>, found: seq<PathClaim>)
    requires i < |changes| && OwnPaths(f, repo, e, before, changes, i, sofar)
    requires forall k :: 0 <= k < i ==> changes[k].commit != changes[i].commit
    requires PartOf(before.objects, repo) && PartOf(after.objects, repo) && before.objects.Keys <= after.objects.Keys
    requires before.targetHead == after.targetHead
    requires changes[i].status == Covered <==> found != []
    requires forall p <- found :: p.subject == changes[i].commit && Runs(f, after.objects, after, p) && Supports(f, repo, e, changes[i], p.to)
    requires found != [] && ByReceipt(changes[i]) ==> FirstClaiming(e.receipt.receipts, changes[i]) == Some(found[0].to)
    ensures OwnPaths(f, repo, e, after, changes, i + 1, sofar + found)
  {
    OwnPathsStay(f, repo, e, before, after, changes, i, sofar);
    hide Runs, Supports, HasPath, PartOf, FirstClaiming;
    forall p | p in sofar + found ensures Owned(f, repo, e, after, changes, i + 1, p) {
      if p in sofar { assert Owned(f, repo, e, after, changes, i, p); } else { assert p in found; }
    }
    forall k | 0 <= k < i + 1 && changes[k].status == Covered ensures HasPath(e, sofar + found, changes[k]) {
      if k < i {
        HasPathStill(e, sofar, found, changes[k]);
      } else {
        forall p | p in sofar ensures p.subject != changes[i].commit { assert Owned(f, repo, e, after, changes, i, p); }
        FoundFirst(e, sofar, found, changes[i]);
      }
    }
  }

  lemma {:induction false} HasPathStill(e: Evidence, sofar: seq<PathClaim>, found: seq<PathClaim>, c: Change)
    requires HasPath(e, sofar, c)
    ensures HasPath(e, sofar + found, c)
  {
    hide FirstClaiming;
    var j :| 0 <= j < |sofar| && sofar[j].subject == c.commit && LeadsFirst(e, sofar, c, j);
    assert (sofar + found)[j] == sofar[j] && LeadsFirst(e, sofar + found, c, j);
  }

  lemma {:induction false} FoundFirst(e: Evidence, sofar: seq<PathClaim>, found: seq<PathClaim>, c: Change)
    requires found != [] && found[0].subject == c.commit && forall p <- sofar :: p.subject != c.commit
    requires ByReceipt(c) ==> FirstClaiming(e.receipt.receipts, c) == Some(found[0].to)
    ensures HasPath(e, sofar + found, c)
  {
    hide FirstClaiming;
    var all, j := sofar + found, |sofar|;
    assert all[j] == found[0];
    forall k | 0 <= k < j ensures all[k].subject != c.commit { assert all[k] in sofar; }
    assert LeadsFirst(e, all, c, j);
  }

  /** A change's own paths come before those of the bases, so what is tried first
      is its own first path, even when a base is itself a covered change. */
  lemma {:induction false} OwnPathsAreTried(f: Format, repo: map<Oid, Raw>, e: Evidence, b: Bundle, changes: seq<Change>, own: seq<PathClaim>)
    requires OwnPaths(f, repo, e, b, changes, |changes|, own) && own <= b.paths && PartOf(b.objects, repo)
    requires forall i, j :: 0 <= i < j < |changes| ==> changes[i].commit != changes[j].commit
    ensures forall i :: 0 <= i < |changes| && changes[i].status == Covered ==>
              && (Quiet(f, b.objects, b, changes[i]) <==> Borne(e.receipt.receipts, b.attachments, changes[i]))
              && (Quiet(f, b.objects, b, changes[i]) ==> Proven(f, b.objects, b, changes[i]))
  {
    hide Runs, Supports, FirstClaiming, Quiet, Proven, PartOf;
    forall i | 0 <= i < |changes| && changes[i].status == Covered
      ensures Quiet(f, b.objects, b, changes[i]) <==> Borne(e.receipt.receipts, b.attachments, changes[i])
      ensures Quiet(f, b.objects, b, changes[i]) ==> Proven(f, b.objects, b, changes[i])
    {
      var c := changes[i];
      assert HasPath(e, own, c);
      var first :| 0 <= first < |own| && own[first].subject == c.commit && LeadsFirst(e, own, c, first);
      assert b.paths[first] == own[first] && own[first] in own && Owned(f, repo, e, b, changes, |changes|, own[first]);
      RunningBearsIff(f, repo, b.objects, e, b, c, own[first]);
      forall k | 0 <= k < first ensures b.paths[k].subject != c.commit { assert b.paths[k] == own[k]; }
      FirstDecides(f, b.objects, b, c, first);
    }
  }

  /** When the first path of a change that is tried bears it out, or complains,
      that settles it. */
  lemma {:induction false} FirstDecides(f: Format, carried: Carried, b: Bundle, c: Change, first: nat)
    requires first < |b.paths| && b.paths[first].subject == c.commit
    requires forall k :: 0 <= k < first ==> b.paths[k].subject != c.commit
    requires ByReceipt(c) || Bears(f, carried, b, c, b.paths[first])
    ensures Quiet(f, carried, b, c) <==> Bears(f, carried, b, c, b.paths[first])
    ensures Bears(f, carried, b, c, b.paths[first]) ==> Proven(f, carried, b, c)
  {
    hide Runs, Bears;
    assert NoneBefore(f, carried, b, c, first);
    if Bears(f, carried, b, c, b.paths[first]) {
      assert b.paths[first] in b.paths;
      forall j | 0 <= j < |b.paths| && b.paths[j].subject == c.commit && NoneBefore(f, carried, b, c, j)
        ensures !Complains(f, carried, b, c, b.paths[j])
      {
        assert j <= first;
      }
    } else {
      assert Complains(f, carried, b, c, b.paths[first]);
    }
  }

  lemma {:induction false} OnTarget(f: Format, repo: map<Oid, Raw>, catalog: Catalog, target: Oid, e: Evidence, to: Oid)
    requires RealEvidence(f, repo, catalog, target, e) && to in e.direct.commits
    ensures Reachable(RealHistory(f, repo), target, to)
  {}

  lemma {:induction false} PartOfRepo(repo: map<Oid, Raw>, oids: set<Oid>)
    ensures PartOf(Objects(repo, oids), repo)
  {}

  predicate BuiltOver(b: Bundle, repo: map<Oid, Raw>, target: Oid, oids: set<Oid>) {
    b.targetHead == target && b.objects == Objects(repo, oids)
  }

  method AddPaths(f: Format, repo: map<Oid, Raw>, ghost catalog: Catalog, target: Oid, e: Evidence, c: Change, ends: seq<Oid>,
    rows: Oid -> History, ghost wanted: set<Oid>)
    returns (more: set<Oid>, found: seq<PathClaim>)
    requires Repository(f, repo) && target in RealHistory(f, repo) && c.status == Covered
    requires RealEvidence(f, repo, catalog, target, e)
    requires forall to <- ends :: Supports(f, repo, e, c, to) && to in e.direct.commits
    requires forall to :: Between(RealHistory(f, repo), target, to, rows(to))
    ensures ends != [] ==> found != [] && found[0].to == ends[0]
    ensures forall p <- found :: p.subject == c.commit && Supports(f, repo, e, c, p.to)
    ensures forall b: Bundle, p :: BuiltOver(b, repo, target, wanted + more) && p in found ==> Runs(f, b.objects, b, p)
  {
    hide RealEvidence, Between, Supports, Runs, Repository, Reachable, RealHistory;
    more, found := {}, [];
    for i := 0 to |ends|
      invariant |found| == i && (i > 0 ==> found[0].to == ends[0])
      invariant forall p <- found :: p.subject == c.commit && p.from == target && Supports(f, repo, e, c, p.to)
      invariant forall p <- found :: IsPath(RealHistory(f, repo), p.commits) && p.commits[0] == target && Tip(p.commits) == p.to
      invariant forall p <- found :: forall o <- p.commits :: o in more
    {
      var to := ends[i];
      assert to in ends;
      OnTarget(f, repo, catalog, target, e, to);
      var chain := CommitPath(RealHistory(f, repo), target, to, rows(to));
      more := more + set o | o in chain.value;
      found := found + [PathClaim(c.commit, target, to, chain.value)];
    }
    forall b: Bundle, p | BuiltOver(b, repo, target, wanted + more) && p in found
      ensures Runs(f, b.objects, b, p)
    {
      PartOfRepo(repo, wanted + more);
      SupportedPathRuns(f, repo, b.objects, e, b, c, p);
    }
  }
}
