/** The declared actions of an interactive rewrite: what is refused, the program
    the rest implies, and the one identity every message it writes carries. */
module RebaseInteractive {
  import opened Git
  import opened RebaseTopology
  import opened RebaseFold

  /** `reword` and `edit` keep their commit; `squash` and `fixup` meld it into
      another, the first with its prose. */
  datatype Verb = Reworded | Edited | Squashed | Fixed

  predicate Absorbs(v: Verb) {
    v.Squashed? || v.Fixed?
  }

  /** What the caller wrote: expressions still to be resolved. */
  datatype Declaration = Declaration(verb: Verb, subject: nat, target: Option<nat>)

  datatype Planned = Replayed | Covered | Review

  datatype PlanChange = PlanChange(commit: CommitId, planned: Planned)

  datatype Resolved = Resolved(verb: Verb, commit: CommitId, target: Option<CommitId>)

  datatype Program = Program(actions: seq<Resolved>, byCommit: map<CommitId, Resolved>)

  predicate DistinctChanges(changes: seq<PlanChange>) {
    forall i, j :: 0 <= i < j < |changes| ==> changes[i].commit != changes[j].commit
  }

  function Order(changes: seq<PlanChange>, c: CommitId): (r: Option<nat>)
    ensures r.Some? ==> r.value < |changes| && changes[r.value].commit == c
    ensures r.None? ==> forall i :: 0 <= i < |changes| ==> changes[i].commit != c
  {
    if changes == [] then None
    else if changes[|changes| - 1].commit == c then Some(|changes| - 1)
    else Order(changes[..|changes| - 1], c)
  }

  lemma {:induction false} OrderIs(changes: seq<PlanChange>, i: nat)
    requires DistinctChanges(changes) && i < |changes|
    ensures Order(changes, changes[i].commit) == Some(i)
  {
    assert Order(changes, changes[i].commit).Some?;
  }

  predicate Replayable(changes: seq<PlanChange>, merges: set<CommitId>, c: CommitId) {
    c !in merges && exists i :: 0 <= i < |changes| && changes[i] == PlanChange(c, Replayed)
  }

  /** A commit an action may name. */
  function Named(changes: seq<PlanChange>, merges: set<CommitId>, resolve: nat -> Option<CommitId>, expression: nat): Option<CommitId> {
    match resolve(expression)
    case None => None
    case Some(c) => if Replayable(changes, merges, c) then Some(c) else None
  }

  function Resolve(changes: seq<PlanChange>, merges: set<CommitId>, resolve: nat -> Option<CommitId>, d: Declaration): Option<Resolved> {
    match Named(changes, merges, resolve, d.subject)
    case None => None
    case Some(subject) =>
      match d.target
      case None => Some(Resolved(d.verb, subject, None))
      case Some(expression) =>
        match Named(changes, merges, resolve, expression)
        case None => None
        case Some(target) => Some(Resolved(d.verb, subject, Some(target)))
  }

  /** The target comes strictly before the subject. */
  predicate InOrder(changes: seq<PlanChange>, a: Resolved) {
    a.target.Some? ==>
      var t, c := Order(changes, a.target.value), Order(changes, a.commit);
      t.Some? && c.Some? && t.value < c.value
  }

  /** Everything the contract admits: every commit named is replayed, no commit
      has two actions, targets precede, and no target is itself absorbed. */
  predicate Admissible(changes: seq<PlanChange>, merges: set<CommitId>, resolve: nat -> Option<CommitId>, ds: seq<Declaration>) {
    && (forall i :: 0 <= i < |ds| ==>
          var a := Resolve(changes, merges, resolve, ds[i]);
          a.Some? && InOrder(changes, a.value))
    && (forall i, j :: 0 <= i < j < |ds| ==>
          Resolve(changes, merges, resolve, ds[i]).value.commit != Resolve(changes, merges, resolve, ds[j]).value.commit)
    && (forall i, j :: 0 <= i < |ds| && 0 <= j < |ds| && Absorbs(ds[j].verb) ==>
          Resolve(changes, merges, resolve, ds[i]).value.target != Some(Resolve(changes, merges, resolve, ds[j]).value.commit))
  }

  predicate WellFormed(d: Declaration) {
    d.target.Some? <==> Absorbs(d.verb)
  }

  /** The resolved actions in range order. */
  function InRangeOrder(changes: seq<PlanChange>, byCommit: map<CommitId, Resolved>): seq<Resolved> {
    if changes == [] then []
    else
      var last := changes[|changes| - 1].commit;
      InRangeOrder(changes[..|changes| - 1], byCommit) + if last in byCommit then [byCommit[last]] else []
  }

  method ResolveInteractiveProgram(changes: seq<PlanChange>, merges: set<CommitId>, resolve: nat -> Option<CommitId>,
    declarations: seq<Declaration>) returns (r: Option<Program>)
    requires DistinctChanges(changes)
    requires forall i :: 0 <= i < |declarations| ==> WellFormed(declarations[i])
    ensures r.Some? <==> Admissible(changes, merges, resolve, declarations)
    ensures r.Some? ==>
              && (forall c :: c in r.value.byCommit <==>
                    exists i :: 0 <= i < |declarations| && Resolve(changes, merges, resolve, declarations[i]).value.commit == c)
              && (forall i :: 0 <= i < |declarations| ==>
                    var a := Resolve(changes, merges, resolve, declarations[i]).value;
                    a.commit in r.value.byCommit && r.value.byCommit[a.commit] == a)
              && r.value.actions == InRangeOrder(changes, r.value.byCommit)
  {
    hide Resolve, InOrder, InRangeOrder;
    var byCommit: map<CommitId, Resolved> := map[];
    for i := 0 to |declarations|
      invariant Taken(changes, merges, resolve, declarations, i, byCommit)
    {
      var a := Resolve(changes, merges, resolve, declarations[i]);
      if a.None? || a.value.commit in byCommit || !InOrder(changes, a.value) { return None; }
      byCommit := byCommit[a.value.commit := a.value];
    }
    if exists c <- byCommit :: byCommit[c].target.Some? && byCommit[c].target.value in byCommit && Absorbs(byCommit[byCommit[c].target.value].verb) {
      ChainIsRefused(changes, merges, resolve, declarations, byCommit);
      return None;
    }
    NoChain(changes, merges, resolve, declarations, byCommit);
    return Some(Program(InRangeOrder(changes, byCommit), byCommit));
  }

  /** The first declarations, each resolved and filed under its own commit. */
  ghost predicate Taken(changes: seq<PlanChange>, merges: set<CommitId>, resolve: nat -> Option<CommitId>, ds: seq<Declaration>, n: nat,
    byCommit: map<CommitId, Resolved>)
  {
    && n <= |ds|
    && (forall i :: 0 <= i < n ==>
          var a := Resolve(changes, merges, resolve, ds[i]);
          a.Some? && InOrder(changes, a.value) && a.value.commit in byCommit && byCommit[a.value.commit] == a.value)
    && (forall i, j :: 0 <= i < j < n ==>
          Resolve(changes, merges, resolve, ds[i]).value.commit != Resolve(changes, merges, resolve, ds[j]).value.commit)
    && (forall c <- byCommit :: exists i :: 0 <= i < n && Resolve(changes, merges, resolve, ds[i]) == Some(byCommit[c]) && byCommit[c].commit == c)
  }

  lemma {:induction false} VerbKept(changes: seq<PlanChange>, merges: set<CommitId>, resolve: nat -> Option<CommitId>, d: Declaration)
    requires Resolve(changes, merges, resolve, d).Some?
    ensures Resolve(changes, merges, resolve, d).value.verb == d.verb
    ensures Resolve(changes, merges, resolve, d).value.target.Some? <==> d.target.Some?
  {}

  lemma {:induction false} NamesReplayed(changes: seq<PlanChange>, merges: set<CommitId>, resolve: nat -> Option<CommitId>, d: Declaration)
    requires Resolve(changes, merges, resolve, d).Some?
    ensures var a := Resolve(changes, merges, resolve, d).value;
            && Replayable(changes, merges, a.commit)
            && (a.target.Some? ==> Replayable(changes, merges, a.target.value))
  {}

  lemma {:induction false} ChainIsRefused(changes: seq<PlanChange>, merges: set<CommitId>, resolve: nat -> Option<CommitId>,
    ds: seq<Declaration>, byCommit: map<CommitId, Resolved>)
    requires Taken(changes, merges, resolve, ds, |ds|, byCommit)
    requires exists c <- byCommit :: byCommit[c].target.Some? && byCommit[c].target.value in byCommit &&
               Absorbs(byCommit[byCommit[c].target.value].verb)
    ensures !Admissible(changes, merges, resolve, ds)
  {
    hide Resolve, InOrder;
    var c :| c in byCommit && byCommit[c].target.Some? && byCommit[c].target.value in byCommit &&
             Absorbs(byCommit[byCommit[c].target.value].verb);
    var i :| 0 <= i < |ds| && Resolve(changes, merges, resolve, ds[i]) == Some(byCommit[c]) && byCommit[c].commit == c;
    var t := byCommit[c].target.value;
    var j :| 0 <= j < |ds| && Resolve(changes, merges, resolve, ds[j]) == Some(byCommit[t]) && byCommit[t].commit == t;
    VerbKept(changes, merges, resolve, ds[j]);
  }

  lemma {:induction false} NoChain(changes: seq<PlanChange>, merges: set<CommitId>, resolve: nat -> Option<CommitId>,
    ds: seq<Declaration>, byCommit: map<CommitId, Resolved>)
    requires Taken(changes, merges, resolve, ds, |ds|, byCommit)
    requires !exists c <- byCommit :: byCommit[c].target.Some? && byCommit[c].target.value in byCommit &&
               Absorbs(byCommit[byCommit[c].target.value].verb)
    ensures Admissible(changes, merges, resolve, ds)
  {
    hide Resolve, InOrder;
    forall i, j | 0 <= i < |ds| && 0 <= j < |ds| && Absorbs(ds[j].verb)
      ensures Resolve(changes, merges, resolve, ds[i]).value.target != Some(Resolve(changes, merges, resolve, ds[j]).value.commit)
    {
      VerbKept(changes, merges, resolve, ds[j]);
      var a, b := Resolve(changes, merges, resolve, ds[i]).value, Resolve(changes, merges, resolve, ds[j]).value;
      assert byCommit[a.commit] == a && byCommit[b.commit] == b;
    }
  }

  // The program.

  /** The declared verb of a commit, when it has one. */
  predicate Survives(byCommit: map<CommitId, Resolved>, c: PlanChange) {
    c.planned == Replayed && (c.commit in byCommit ==> !Absorbs(byCommit[c.commit].verb))
  }

  function ActionOf(byCommit: map<CommitId, Resolved>, c: CommitId): Action {
    if c !in byCommit then Replay
    else if byCommit[c].verb.Edited? then Edit
    else if byCommit[c].verb.Reworded? then Reword
    else Replay
  }

  /** What one survivor takes in, in the order of the actions. */
  function AbsorbedInto(actions: seq<Resolved>, target: CommitId): seq<CommitId> {
    if actions == [] then []
    else
      var last := actions[|actions| - 1];
      AbsorbedInto(actions[..|actions| - 1], target) +
      if Absorbs(last.verb) && last.target == Some(target) then [last.commit] else []
  }

  function SurvivorAt(changes: seq<PlanChange>, byCommit: map<CommitId, Resolved>, c: CommitId): bool {
    match Order(changes, c)
    case None => false
    case Some(i) => Survives(byCommit, changes[i])
  }

  /** One item for each step: joins recreated, survivors picked with what they
      absorb, and everything else left to its parent's image. */
  function RebaseProgram(steps: seq<Step>, changes: seq<PlanChange>, p: Program): (r: seq<Item>)
    ensures |r| == |steps|
  {
    seq(|steps|, i requires 0 <= i < |steps| =>
      if steps[i].isMerge then RecreateMerge(steps[i])
      else if SurvivorAt(changes, p.byCommit, steps[i].commit)
      then Pick(steps[i], ActionOf(p.byCommit, steps[i].commit), AbsorbedInto(p.actions, steps[i].commit))
      else Omit(steps[i]))
  }

  /** A program the resolver accepted, over changes of the range. */
  ghost predicate Accepted(changes: seq<PlanChange>, p: Program) {
    && DistinctChanges(changes)
    && p.actions == InRangeOrder(changes, p.byCommit)
    && (forall c <- p.byCommit :: p.byCommit[c].commit == c && (p.byCommit[c].target.Some? <==> Absorbs(p.byCommit[c].verb)))
    && (forall c <- p.byCommit :: exists i :: 0 <= i < |changes| && changes[i] == PlanChange(c, Replayed))
    && (forall c <- p.byCommit :: p.byCommit[c].target.Some? ==>
          var t := p.byCommit[c].target.value;
          && (exists i :: 0 <= i < |changes| && changes[i] == PlanChange(t, Replayed))
          && InOrder(changes, p.byCommit[c])
          && (t in p.byCommit ==> !Absorbs(p.byCommit[t].verb)))
  }

  /** What the resolver returns is accepted. */
  lemma {:induction false} ResolvedIsAccepted(changes: seq<PlanChange>, merges: set<CommitId>, resolve: nat -> Option<CommitId>,
    ds: seq<Declaration>, p: Program)
    requires DistinctChanges(changes) && Admissible(changes, merges, resolve, ds)
    requires forall i :: 0 <= i < |ds| ==> WellFormed(ds[i])
    requires forall c <- p.byCommit :: exists i :: 0 <= i < |ds| && Resolve(changes, merges, resolve, ds[i]).value.commit == c
    requires forall i :: 0 <= i < |ds| ==>
               var a := Resolve(changes, merges, resolve, ds[i]).value;
               a.commit in p.byCommit && p.byCommit[a.commit] == a
    requires p.actions == InRangeOrder(changes, p.byCommit)
    ensures Accepted(changes, p)
  {
    hide InRangeOrder, Resolve, InOrder;
    forall c | c in p.byCommit
      ensures p.byCommit[c].commit == c && (p.byCommit[c].target.Some? <==> Absorbs(p.byCommit[c].verb))
      ensures exists i :: 0 <= i < |changes| && changes[i] == PlanChange(c, Replayed)
      ensures p.byCommit[c].target.Some? ==>
                var t := p.byCommit[c].target.value;
                && (exists i :: 0 <= i < |changes| && changes[i] == PlanChange(t, Replayed))
                && InOrder(changes, p.byCommit[c])
                && (t in p.byCommit ==> !Absorbs(p.byCommit[t].verb))
    {
      var i :| 0 <= i < |ds| && Resolve(changes, merges, resolve, ds[i]).value.commit == c;
      assert WellFormed(ds[i]) && Resolve(changes, merges, resolve, ds[i]) == Some(p.byCommit[c]);
      VerbKept(changes, merges, resolve, ds[i]);
      NamesReplayed(changes, merges, resolve, ds[i]);
      if p.byCommit[c].target.Some? && p.byCommit[c].target.value in p.byCommit {
        var t := p.byCommit[c].target.value;
        var j :| 0 <= j < |ds| && Resolve(changes, merges, resolve, ds[j]).value.commit == t;
        assert Resolve(changes, merges, resolve, ds[j]) == Some(p.byCommit[t]);
        VerbKept(changes, merges, resolve, ds[j]);
      }
    }
  }

  lemma {:induction false} InRangeOrderHolds(changes: seq<PlanChange>, byCommit: map<CommitId, Resolved>)
    requires DistinctChanges(changes) && forall c <- byCommit :: byCommit[c].commit == c
    ensures forall a :: a in InRangeOrder(changes, byCommit) <==>
              a.commit in byCommit && byCommit[a.commit] == a && Order(changes, a.commit).Some?
  {
    if changes != [] {
      var rest, last := changes[..|changes| - 1], changes[|changes| - 1].commit;
      InRangeOrderHolds(rest, byCommit);
      assert InRangeOrder(changes, byCommit) == InRangeOrder(rest, byCommit) + if last in byCommit then [byCommit[last]] else [];
      forall a ensures a in InRangeOrder(changes, byCommit) <==>
          a.commit in byCommit && byCommit[a.commit] == a && Order(changes, a.commit).Some? {
        assert Order(changes, a.commit).Some? <==> a.commit == last || Order(rest, a.commit).Some?;
      }
    }
  }

  lemma {:induction false} AbsorbedIntoHolds(actions: seq<Resolved>, t: CommitId, c: CommitId)
    ensures c in AbsorbedInto(actions, t) <==>
            exists a :: a in actions && Absorbs(a.verb) && a.target == Some(t) && a.commit == c
  {
    if actions != [] {
      AbsorbedIntoHolds(actions[..|actions| - 1], t, c);
      assert actions == actions[..|actions| - 1] + [actions[|actions| - 1]];
    }
  }

  /** What a survivor takes in is in range order, each commit once. */
  ghost predicate Ascending(changes: seq<PlanChange>, cs: seq<CommitId>) {
    forall i, j :: 0 <= i < j < |cs| ==>
      Order(changes, cs[i]).Some? && Order(changes, cs[j]).Some? && Order(changes, cs[i]).value < Order(changes, cs[j]).value
  }

  lemma {:induction false} AbsorbedMore(actions: seq<Resolved>, a: Resolved, t: CommitId)
    ensures AbsorbedInto(actions + [a], t) ==
            AbsorbedInto(actions, t) + if Absorbs(a.verb) && a.target == Some(t) then [a.commit] else []
  {
    assert (actions + [a])[..|actions|] == actions;
  }

  lemma {:induction false} InRangeOrderMore(changes: seq<PlanChange>, n: nat, byCommit: map<CommitId, Resolved>)
    requires n < |changes|
    ensures InRangeOrder(changes[..n + 1], byCommit) ==
            InRangeOrder(changes[..n], byCommit) + if changes[n].commit in byCommit then [byCommit[changes[n].commit]] else []
  {
    assert changes[..n + 1][..n] == changes[..n];
  }

  /** One more commit, later in the range than all so far. */
  lemma {:induction false} AscendsMore(changes: seq<PlanChange>, sofar: seq<CommitId>, n: nat, c: CommitId)
    requires Ascending(changes, sofar) && Order(changes, c) == Some(n)
    requires forall x <- sofar :: Order(changes, x).Some? && Order(changes, x).value < n
    ensures Ascending(changes, sofar + [c])
  {
    hide Order;
    var more := sofar + [c];
    forall i, j | 0 <= i < j < |more|
      ensures Order(changes, more[i]).Some? && Order(changes, more[j]).Some? && Order(changes, more[i]).value < Order(changes, more[j]).value
    {
      assert more[i] == sofar[i] && sofar[i] in sofar;
    }
  }

  ghost predicate AllBefore(changes: seq<PlanChange>, cs: seq<CommitId>, n: nat) {
    forall x <- cs :: Order(changes, x).Some? && Order(changes, x).value < n
  }

  lemma {:induction false} AbsorbedAscends(changes: seq<PlanChange>, n: nat, byCommit: map<CommitId, Resolved>, t: CommitId)
    requires DistinctChanges(changes) && n <= |changes| && forall c <- byCommit :: byCommit[c].commit == c
    ensures Ascending(changes, AbsorbedInto(InRangeOrder(changes[..n], byCommit), t))
    ensures AllBefore(changes, AbsorbedInto(InRangeOrder(changes[..n], byCommit), t), n)
  {
    if n == 0 {
      assert InRangeOrder(changes[..0], byCommit) == [];
    } else {
      AbsorbedAscends(changes, n - 1, byCommit, t);
      AscendStep(changes, n - 1, byCommit, t);
    }
  }

  lemma {:induction false} AscendStep(changes: seq<PlanChange>, n: nat, byCommit: map<CommitId, Resolved>, t: CommitId)
    requires DistinctChanges(changes) && n < |changes| && forall c <- byCommit :: byCommit[c].commit == c
    requires Ascending(changes, AbsorbedInto(InRangeOrder(changes[..n], byCommit), t))
    requires AllBefore(changes, AbsorbedInto(InRangeOrder(changes[..n], byCommit), t), n)
    ensures Ascending(changes, AbsorbedInto(InRangeOrder(changes[..n + 1], byCommit), t))
    ensures AllBefore(changes, AbsorbedInto(InRangeOrder(changes[..n + 1], byCommit), t), n + 1)
  {
    hide Order, AbsorbedInto, InRangeOrder, DistinctChanges, Ascending;
    OrderIs(changes, n);
    InRangeOrderMore(changes, n, byCommit);
    var before, c := InRangeOrder(changes[..n], byCommit), changes[n].commit;
    if c in byCommit {
      AbsorbedMore(before, byCommit[c], t);
      AscendsMore(changes, AbsorbedInto(before, t), n, c);
    } else {
      assert before + [] == before;
    }
    assert AbsorbedInto(before, t) + [] == AbsorbedInto(before, t);
  }

  /** One step for each commit of the range, and one for every change of the plan. */
  ghost predicate StepsFor(steps: seq<Step>, changes: seq<PlanChange>) {
    && (forall i, j :: 0 <= i < j < |steps| ==> steps[i].commit != steps[j].commit)
    && forall k :: 0 <= k < |changes| ==>
         exists i :: 0 <= i < |steps| && !steps[i].isMerge && steps[i].commit == changes[k].commit
  }

  /** Every change is in exactly one class: a survivor with its own pick; a commit
      in exactly one survivor's list, earlier than it in the range; or left out. */
  lemma {:induction false} EachAbsorbedOnce(steps: seq<Step>, changes: seq<PlanChange>, p: Program, c: CommitId)
    requires Accepted(changes, p) && c in p.byCommit && Absorbs(p.byCommit[c].verb)
    requires StepsFor(steps, changes)
    ensures var items, t := RebaseProgram(steps, changes, p), p.byCommit[c].target.value;
            && (exists i :: 0 <= i < |items| && items[i].Pick? && items[i].step.commit == t && c in items[i].absorbs)
            && (forall i :: 0 <= i < |items| && items[i].Pick? && c in items[i].absorbs ==> items[i].step.commit == t)
            && (forall i :: 0 <= i < |items| && items[i].Pick? ==> items[i].step.commit != c)
            && Order(changes, t).value < Order(changes, c).value
  {
    hide InRangeOrder, AbsorbedInto, Accepted, RebaseProgram;
    TakenInOnlyBy(changes, p, c);
    var items, t := RebaseProgram(steps, changes, p), p.byCommit[c].target.value;
    var kt, kc := TargetSurvives(changes, p, c);
    var i :| 0 <= i < |steps| && !steps[i].isMerge && steps[i].commit == changes[kt].commit;
    forall j | 0 <= j < |steps|
      ensures items[j].step == steps[j]
      ensures items[j].Pick? ==> items[j].absorbs == AbsorbedInto(p.actions, steps[j].commit) && steps[j].commit != c
      ensures j == i ==> items[j].Pick?
    {
      ItemAt(steps, changes, p, j);
    }
  }

  lemma {:induction false} ItemAt(steps: seq<Step>, changes: seq<PlanChange>, p: Program, j: nat)
    requires j < |steps|
    ensures var item := RebaseProgram(steps, changes, p)[j];
            && item.step == steps[j]
            && (item.Pick? <==> !steps[j].isMerge && SurvivorAt(changes, p.byCommit, steps[j].commit))
            && (item.Pick? ==> item.absorbs == AbsorbedInto(p.actions, steps[j].commit))
  {}

  lemma {:induction false} TakenInOnlyBy(changes: seq<PlanChange>, p: Program, c: CommitId)
    requires Accepted(changes, p) && c in p.byCommit && Absorbs(p.byCommit[c].verb)
    ensures p.byCommit[c].target.Some?
    ensures forall s: CommitId :: c in AbsorbedInto(p.actions, s) <==> p.byCommit[c].target == Some(s)
  {
    hide InRangeOrder, AbsorbedInto;
    var a := p.byCommit[c];
    InRangeOrderHolds(changes, p.byCommit);
    var kc :| 0 <= kc < |changes| && changes[kc] == PlanChange(c, Replayed);
    OrderIs(changes, kc);
    assert a in p.actions;
    forall s: CommitId ensures c in AbsorbedInto(p.actions, s) <==> a.target == Some(s) {
      AbsorbedIntoHolds(p.actions, s, c);
    }
  }

  lemma {:induction false} TargetSurvives(changes: seq<PlanChange>, p: Program, c: CommitId) returns (kt: nat, kc: nat)
    requires Accepted(changes, p) && c in p.byCommit && Absorbs(p.byCommit[c].verb)
    ensures p.byCommit[c].target.Some? && kt < kc < |changes|
    ensures changes[kt].commit == p.byCommit[c].target.value && changes[kc].commit == c
    ensures Order(changes, changes[kt].commit) == Some(kt) && Order(changes, c) == Some(kc)
    ensures SurvivorAt(changes, p.byCommit, changes[kt].commit) && !SurvivorAt(changes, p.byCommit, c)
  {
    hide InRangeOrder, AbsorbedInto;
    var t := p.byCommit[c].target.value;
    kt :| 0 <= kt < |changes| && changes[kt] == PlanChange(t, Replayed);
    kc :| 0 <= kc < |changes| && changes[kc] == PlanChange(c, Replayed);
    OrderIs(changes, kt);
    OrderIs(changes, kc);
  }

  /** Survivors are picked, joins are recreated and nothing else is replayed;
      what each survivor takes in is in range order. */
  lemma {:induction false} ExactlySurvivorsArePicked(steps: seq<Step>, changes: seq<PlanChange>, p: Program, i: nat)
    requires Accepted(changes, p) && i < |steps|
    ensures var item := RebaseProgram(steps, changes, p)[i];
            && item.step == steps[i]
            && (item.RecreateMerge? <==> steps[i].isMerge)
            && (item.Pick? <==> !steps[i].isMerge && exists k :: 0 <= k < |changes| && changes[k].commit == steps[i].commit && Survives(p.byCommit, changes[k]))
            && (item.Pick? ==> Ascending(changes, item.absorbs))
  {
    hide InRangeOrder, AbsorbedInto;
    AbsorbedAscends(changes, |changes|, p.byCommit, steps[i].commit);
    assert changes[..|changes|] == changes;
    if k :| 0 <= k < |changes| && changes[k].commit == steps[i].commit && Survives(p.byCommit, changes[k]) {
      OrderIs(changes, k);
    }
  }

  lemma {:induction false} AscendingIsDistinct(changes: seq<PlanChange>, cs: seq<CommitId>)
    requires Ascending(changes, cs)
    ensures forall i, j :: 0 <= i < j < |cs| ==> cs[i] != cs[j]
  {
    hide Order;
  }

  lemma {:induction false} OnceEach(cs: seq<CommitId>, c: CommitId)
    requires forall i, j :: 0 <= i < j < |cs| ==> cs[i] != cs[j]
    ensures multiset(cs)[c] == if c in cs then 1 else 0
  {
    if cs != [] {
      OnceEach(cs[..|cs| - 1], c);
      assert cs == cs[..|cs| - 1] + [cs[|cs| - 1]];
    }
  }

  /** Over a whole run of an accepted program, every change declared into a
      survivor is folded in exactly once when that survivor's own pick is clean,
      and not at all when it conflicts. */
  lemma {:induction false} DeclaredAbsorptionHappensIff(ctx: Context, steps: seq<Step>, changes: seq<PlanChange>, p: Program, c: CommitId)
    returns (i: nat)
    requires Accepted(changes, p) && c in p.byCommit && Absorbs(p.byCommit[c].verb)
    requires StepsFor(steps, changes)
    requires var items := RebaseProgram(steps, changes, p); WellFormedQueue(items) && FoldTo(ctx, items, |items|).Next?
    ensures var items := RebaseProgram(steps, changes, p);
            && i < |items| && items[i].Pick? && Some(items[i].step.commit) == p.byCommit[c].target
            && AbsorbedOnlyBy(items, i, c)
            && TimesAbsorbed(FoldTo(ctx, items, |items|).line.absorptions, c) == if PickedCleanly(ctx, items, i) then 1 else 0
  {
    hide FoldTo, PickedCleanly, TimesAbsorbed, RebaseProgram, Accepted, Ascending, AbsorbedInto, Order;
    var items := RebaseProgram(steps, changes, p);
    TakenInOnlyBy(changes, p, c);
    EachAbsorbedOnce(steps, changes, p, c);
    var k :| 0 <= k < |items| && items[k].Pick? && items[k].step.commit == p.byCommit[c].target.value && c in items[k].absorbs;
    i := k;
    OnlyOneSurvivor(steps, changes, p, c, i);
    AbsorbedOnceIffSurvivorClean(ctx, items, |items|, i, c);
  }

  lemma {:induction false} OnlyOneSurvivor(steps: seq<Step>, changes: seq<PlanChange>, p: Program, c: CommitId, i: nat)
    requires Accepted(changes, p)
    requires StepsFor(steps, changes)
    requires var items := RebaseProgram(steps, changes, p);
             && i < |items| && items[i].Pick? && c in items[i].absorbs
             && forall j :: 0 <= j < |items| && items[j].Pick? && c in items[j].absorbs ==> items[j].step.commit == items[i].step.commit
    ensures AbsorbedOnlyBy(RebaseProgram(steps, changes, p), i, c)
  {
    hide RebaseProgram, Accepted, Ascending;
    var items := RebaseProgram(steps, changes, p);
    ItemAt(steps, changes, p, i);
    ExactlySurvivorsArePicked(steps, changes, p, i);
    AscendingIsDistinct(changes, items[i].absorbs);
    OnceEach(items[i].absorbs, c);
    forall j | 0 <= j < |items| && j != i && items[j].Pick? ensures c !in items[j].absorbs {
      ItemAt(steps, changes, p, j);
    }
  }

  /** So the program of an accepted plan is one the engine's theorems speak of. */
  lemma {:induction false} AcceptedProgramIsAProgram(nodes: seq<Node>, changes: seq<PlanChange>, p: Program)
    requires forall i :: 0 <= i < |nodes| ==> |nodes[i].parents| <= 2
    ensures ProgramOf(nodes, RebaseProgram(StepsOf(nodes), changes, p))
  {}

  function StepsOf(nodes: seq<Node>): (r: seq<Step>)
    ensures |r| == |nodes|
  {
    seq(|nodes|, i requires 0 <= i < |nodes| => StepOf(nodes[i], Commits(nodes)))
  }
}
