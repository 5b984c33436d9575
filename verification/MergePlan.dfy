/** What a target already covers of a source: the planner's classification, the
    verifier's own lattice, and the receipts that close coverage. */
module MergePlan {
  import opened Git
  import opened RebaseTopology

  type ChangeId = nat
  type FactId = nat

  datatype Body =
    | Receipt(sourceHead: Option<CommitId>, absorbedCommits: seq<CommitId>, absorbedChanges: seq<ChangeId>)
    | Amendment(changeId: ChangeId)
    | OtherFact

  datatype Fact = Fact(id: FactId, attachedTo: CommitId, body: Body)

  /** The notes as a planner reads them: every record, and the ids in conflict. */
  datatype Catalog = Catalog(facts: seq<Fact>, conflicting: set<FactId>)

  datatype Coverage = Coverage(receipts: seq<Fact>, commits: set<CommitId>, changeIds: set<ChangeId>,
    amended: set<ChangeId>, quarantined: set<FactId>)

  datatype Direct = Direct(commits: set<CommitId>, changeIds: set<ChangeId>)

  /** A fact a planner may use: attached to the target's history and in no conflict. */
  predicate Counts(catalog: Catalog, direct: set<CommitId>, f: Fact) {
    f in catalog.facts && f.attachedTo in direct && f.id !in catalog.conflicting
  }

  /** What accepted receipts and amendments say, and what conflicts kept out. */
  ghost predicate CoverageOf(catalog: Catalog, direct: set<CommitId>, r: Coverage) {
    && (forall f: Fact :: f in r.receipts <==> f.body.Receipt? && Counts(catalog, direct, f))
    && (forall c :: c in r.commits <==> exists f :: f in r.receipts && f.body.Receipt? && c in f.body.absorbedCommits)
    && (forall c :: c in r.changeIds <==> exists f :: f in r.receipts && f.body.Receipt? && c in f.body.absorbedChanges)
    && (forall c :: c in r.amended <==>
          exists f: Fact :: f.body.Amendment? && Counts(catalog, direct, f) && f.body.changeId == c)
    && (forall i :: i in r.quarantined <==>
          i in catalog.conflicting && exists f :: f in catalog.facts && f.attachedTo in direct && f.id == i)
  }

  method ReceiptCoverage(catalog: Catalog, direct: set<CommitId>) returns (r: Coverage)
    ensures CoverageOf(catalog, direct, r)
  {
    var receipts: seq<Fact> := [];
    var amended: set<ChangeId>, quarantined: set<FactId> := {}, {};
    for i := 0 to |catalog.facts|
      invariant forall f :: f in receipts <==> f.body.Receipt? && Counts(catalog, direct, f) && f in catalog.facts[..i]
      invariant forall c :: c in amended <==>
                  exists j :: 0 <= j < i && catalog.facts[j].body.Amendment? &&
                    Counts(catalog, direct, catalog.facts[j]) && catalog.facts[j].body.changeId == c
      invariant forall c :: c in quarantined <==>
                  c in catalog.conflicting && exists j :: 0 <= j < i && catalog.facts[j].attachedTo in direct && catalog.facts[j].id == c
    {
      var f := catalog.facts[i];
      if f.attachedTo in direct {
        if f.id in catalog.conflicting {
          quarantined := quarantined + {f.id};
        } else if f.body.Receipt? {
          receipts := receipts + [f];
        } else if f.body.Amendment? {
          amended := amended + {f.body.changeId};
        }
      }
    }
    var commits, changeIds := CollectAbsorbed(receipts);
    return Coverage(receipts, commits, changeIds, amended, quarantined);
  }

  method CollectAbsorbed(receipts: seq<Fact>) returns (commits: set<CommitId>, changeIds: set<ChangeId>)
    requires forall f <- receipts :: f.body.Receipt?
    ensures forall c :: c in commits <==> exists f :: f in receipts && f.body.Receipt? && c in f.body.absorbedCommits
    ensures forall c :: c in changeIds <==> exists f :: f in receipts && f.body.Receipt? && c in f.body.absorbedChanges
  {
    commits, changeIds := {}, {};
    for i := 0 to |receipts|
      invariant forall c :: c in commits <==>
                  exists j :: 0 <= j < i && receipts[j].body.Receipt? && c in receipts[j].body.absorbedCommits
      invariant forall c :: c in changeIds <==>
                  exists j :: 0 <= j < i && receipts[j].body.Receipt? && c in receipts[j].body.absorbedChanges
    {
      assert receipts[i] in receipts;
      commits := commits + set c | c in receipts[i].body.absorbedCommits;
      changeIds := changeIds + set c | c in receipts[i].body.absorbedChanges;
    }
  }

  // Classification.

  datatype Status = New | Covered | CandidateEquivalent

  datatype Proof =
    | NoProof
    | CommitAncestry
    | ReceiptCommit
    | StableChangeId
    | ReceiptChangeId
    | AmendedChangeId
    | PatchIdHeuristic

  datatype Evidence = Evidence(direct: Direct, receipt: Coverage, patchEquivalent: set<CommitId>)

  /** The planner's verdict on one change. */
  function Classify(commit: CommitId, changeId: ChangeId, e: Evidence): (Status, Proof) {
    if commit in e.direct.commits then (Covered, CommitAncestry)
    else if commit in e.receipt.commits then (Covered, ReceiptCommit)
    else if changeId in e.direct.changeIds || changeId in e.receipt.changeIds then
      if changeId in e.receipt.amended then (CandidateEquivalent, AmendedChangeId)
      else if changeId in e.direct.changeIds then (Covered, StableChangeId)
      else (Covered, ReceiptChangeId)
    else if commit in e.patchEquivalent then (CandidateEquivalent, PatchIdHeuristic)
    else (New, NoProof)
  }

  datatype Rule = Rule(proof: Proof, status: Status)

  const PROOF_RULES: seq<Rule> := [
    Rule(CommitAncestry, Covered),
    Rule(ReceiptCommit, Covered),
    Rule(StableChangeId, Covered),
    Rule(ReceiptChangeId, Covered),
    Rule(PatchIdHeuristic, CandidateEquivalent)]

  predicate Holds(rule: Rule, commit: CommitId, changeId: ChangeId, e: Evidence) {
    match rule.proof
    case CommitAncestry => commit in e.direct.commits
    case ReceiptCommit => commit in e.receipt.commits
    case StableChangeId => changeId in e.direct.changeIds
    case ReceiptChangeId => changeId in e.receipt.changeIds
    case PatchIdHeuristic => commit in e.patchEquivalent
    case _ => false
  }

  /** The verifier's verdict: the first rule of the lattice that holds. */
  method ClassifyFromEvidence(commit: CommitId, changeId: ChangeId, e: Evidence) returns (status: Status, proof: Proof)
    ensures (status, proof) == FirstRule(PROOF_RULES, commit, changeId, e)
  {
    for i := 0 to |PROOF_RULES|
      invariant FirstRule(PROOF_RULES[i..], commit, changeId, e) == FirstRule(PROOF_RULES, commit, changeId, e)
    {
      assert PROOF_RULES[i..][1..] == PROOF_RULES[i + 1..];
      if Holds(PROOF_RULES[i], commit, changeId, e) { return PROOF_RULES[i].status, PROOF_RULES[i].proof; }
    }
    return New, NoProof;
  }

  function FirstRule(rules: seq<Rule>, commit: CommitId, changeId: ChangeId, e: Evidence): (Status, Proof) {
    if rules == [] then (New, NoProof)
    else if Holds(rules[0], commit, changeId, e) then (rules[0].status, rules[0].proof)
    else FirstRule(rules[1..], commit, changeId, e)
  }

  lemma {:induction false} FirstRuleStep(rules: seq<Rule>, rule: Rule, commit: CommitId, changeId: ChangeId, e: Evidence)
    ensures FirstRule([rule] + rules, commit, changeId, e) ==
            if Holds(rule, commit, changeId, e) then (rule.status, rule.proof) else FirstRule(rules, commit, changeId, e)
  {
    assert ([rule] + rules)[1..] == rules;
  }

  /** The lattice reproduces the planner exactly, except for a change proved only
      by an identity that a reachable amendment has downgraded: for that one
      alone the lattice has no rule. */
  lemma {:induction false} LatticeReproducesPlannerIff(commit: CommitId, changeId: ChangeId, e: Evidence)
    ensures FirstRule(PROOF_RULES, commit, changeId, e) == Classify(commit, changeId, e) <==>
            !(changeId in e.receipt.amended && commit !in e.direct.commits && commit !in e.receipt.commits &&
              (changeId in e.direct.changeIds || changeId in e.receipt.changeIds))
  {
    var r := PROOF_RULES;
    assert r == [r[0]] + r[1..] && r[1..] == [r[1]] + r[2..] && r[2..] == [r[2]] + r[3..];
    assert r[3..] == [r[3]] + r[4..] && r[4..] == [r[4]] + [];
    FirstRuleStep(r[1..], r[0], commit, changeId, e);
    FirstRuleStep(r[2..], r[1], commit, changeId, e);
    FirstRuleStep(r[3..], r[2], commit, changeId, e);
    FirstRuleStep(r[4..], r[3], commit, changeId, e);
    FirstRuleStep([], r[4], commit, changeId, e);
  }

  /** It does differ: a change whose identity is on the target, under an
      amendment, waits for review in the plan and is covered for the lattice. */
  lemma {:induction false} AmendedIdentityHasNoRule()
    ensures var e := Evidence(Direct({}, {7}), Coverage([], {}, {}, {7}, {}), {});
            && Classify(1, 7, e) == (CandidateEquivalent, AmendedChangeId)
            && FirstRule(PROOF_RULES, 1, 7, e) == (Covered, StableChangeId)
  {
    var e := Evidence(Direct({}, {7}), Coverage([], {}, {}, {7}, {}), {});
    var r := PROOF_RULES;
    assert r == [r[0]] + r[1..] && r[1..] == [r[1]] + r[2..] && r[2..] == [r[2]] + r[3..];
    FirstRuleStep(r[1..], r[0], 1, 7, e);
    FirstRuleStep(r[2..], r[1], 1, 7, e);
    FirstRuleStep(r[3..], r[2], 1, 7, e);
  }

  // The effective base.

  ghost predicate IsAncestor(h: History, a: CommitId, b: CommitId) {
    Reachable(h, b, a)
  }

  ghost predicate Acyclic(h: History) {
    forall a, b :: IsAncestor(h, a, b) && IsAncestor(h, b, a) ==> a == b
  }

  /** A receipt whose source head is part of the source's history. */
  ghost predicate Eligible(h: History, f: Fact, sourceHead: CommitId) {
    f.body.Receipt? && f.body.sourceHead.Some? && IsAncestor(h, f.body.sourceHead.value, sourceHead)
  }

  /** Walks the receipts, moving up whenever one descends from where it is. No
      eligible receipt strictly descends from where it ends. */
  method ChooseEffectiveBase(ghost h: History, physicalBase: CommitId, receipts: seq<Fact>, sourceHead: CommitId,
    isAncestor: (CommitId, CommitId) -> bool)
    returns (effective: CommitId, reason: Option<FactId>)
    requires forall a, b :: isAncestor(a, b) <==> IsAncestor(h, a, b)
    requires Acyclic(h)
    ensures IsAncestor(h, physicalBase, effective)
    ensures reason.None? ==> effective == physicalBase
    ensures reason.Some? ==> exists f :: f in receipts && f.id == reason.value && Eligible(h, f, sourceHead) &&
                                         f.body.sourceHead.value == effective
    ensures forall f :: f in receipts && Eligible(h, f, sourceHead) ==>
              !(IsAncestor(h, effective, f.body.sourceHead.value) && f.body.sourceHead.value != effective)
  {
    hide Reachable;
    effective, reason := physicalBase, None;
    SelfAncestor(h, physicalBase);
    for i := 0 to |receipts|
      invariant IsAncestor(h, physicalBase, effective)
      invariant reason.None? ==> effective == physicalBase
      invariant reason.Some? ==> exists f :: f in receipts && f.id == reason.value && Eligible(h, f, sourceHead) &&
                                             f.body.sourceHead.value == effective
      invariant forall j :: 0 <= j < i && Eligible(h, receipts[j], sourceHead) ==>
                  !(IsAncestor(h, effective, receipts[j].body.sourceHead.value) && receipts[j].body.sourceHead.value != effective)
    {
      var f := receipts[i];
      if f.body.Receipt? && f.body.sourceHead.Some? && isAncestor(f.body.sourceHead.value, sourceHead) &&
         isAncestor(effective, f.body.sourceHead.value) {
        MovesUp(h, receipts[..i], effective, f.body.sourceHead.value, sourceHead);
        AncestorChains(h, physicalBase, effective, f.body.sourceHead.value);
        assert f in receipts && Eligible(h, f, sourceHead);
        assert forall j :: 0 <= j < i ==> receipts[..i][j] == receipts[j];
        effective, reason := f.body.sourceHead.value, Some(f.id);
      }
    }
  }

  lemma {:induction false} SelfAncestor(h: History, a: CommitId)
    ensures IsAncestor(h, a, a)
  {
    assert IsPath(h, [a]);
  }

  lemma {:induction false} AncestorChains(h: History, a: CommitId, b: CommitId, c: CommitId)
    requires IsAncestor(h, a, b) && IsAncestor(h, b, c)
    ensures IsAncestor(h, a, c)
  {
    ReachableTransitive(h, c, b, a);
  }

  lemma {:induction false} MovesUp(h: History, receipts: seq<Fact>, was: CommitId, next: CommitId, sourceHead: CommitId)
    requires Acyclic(h) && IsAncestor(h, was, next)
    requires forall j :: 0 <= j < |receipts| && Eligible(h, receipts[j], sourceHead) ==>
               !(IsAncestor(h, was, receipts[j].body.sourceHead.value) && receipts[j].body.sourceHead.value != was)
    ensures forall j :: 0 <= j < |receipts| && Eligible(h, receipts[j], sourceHead) ==>
              !(IsAncestor(h, next, receipts[j].body.sourceHead.value) && receipts[j].body.sourceHead.value != next)
  {
    hide Reachable;
    forall j | 0 <= j < |receipts| && Eligible(h, receipts[j], sourceHead)
      ensures !(IsAncestor(h, next, receipts[j].body.sourceHead.value) && receipts[j].body.sourceHead.value != next)
    {
      if IsAncestor(h, next, receipts[j].body.sourceHead.value) {
        AncestorChains(h, was, next, receipts[j].body.sourceHead.value);
      }
    }
  }
}
