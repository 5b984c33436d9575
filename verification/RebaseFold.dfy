/** What a rewrite program means: a fold of its steps over the mapping from
    original commits to the commits that replaced them.

    The journaled operation and both forecast engines are proved against this
    fold, so every theorem about it is a theorem about each of them. */
module RebaseFold {
  import opened Git
  import opened RebaseTopology

  datatype Action = Replay | Reword | Edit

  datatype Item =
    | Pick(step: Step, action: Action, absorbs: seq<CommitId>)
    | RecreateMerge(step: Step)
    | Omit(step: Step)

  datatype Relation = CausalRebase | ContextualRebase | ContextualFork

  datatype Application = Application(
    origin: CommitId, commit: Commit, beforeTree: TreeId, resultTree: TreeId, relation: Relation)
  datatype Join = Join(origin: CommitId, commit: Commit, cleanJoin: bool)
  datatype Absorption = Absorption(survivor: CommitId, absorbed: seq<CommitId>)
  datatype Amendment = Amendment(origin: CommitId, treeBefore: TreeId, treeAfter: TreeId)

  /** What a run has rewritten so far. */
  datatype Line = Line(
    rewritten: map<CommitId, Commit>,
    head: Commit,
    applied: seq<Application>,
    joins: seq<Join>,
    absorptions: seq<Absorption>,
    amendments: seq<Amendment>)

  /** What a person answers when a step waits for one: for a pick, the tree that
      settles it and whether any decision on it asked for a fork. `None` is nobody
      there, which is every forecast. */
  datatype Resolution = Resolution(tree: TreeId, fork: bool)
  datatype Answers = Answers(
    pick: CommitId -> Option<Resolution>,
    join: CommitId -> Option<TreeId>,
    absorb: CommitId -> Option<TreeId>,
    edit: CommitId -> Option<TreeId>)

  /** What settles the conflict of a step's own change: a person, the choices a
      reviewed forecast approved, or, while rehearsing one, the only recorded
      resolution of each path. */
  datatype Policy =
    | ByPerson
    | ByForecast(approved: map<CommitId, seq<ResolutionId>>)
    | Rehearsal

  datatype Context = Context(git: Git, onto: CommitId, policy: Policy, answers: Answers)

  datatype Why =
    | UnknownParent
    | NothingToJoin
    | NotApplied
    | Unanswered
    | EmptyResult

  datatype Outcome = Next(line: Line) | Stuck(why: Why)

  function Start(onto: CommitId): Line {
    Line(map[], Original(onto), [], [], [], [])
  }

  // ---------- Parents ----------

  predicate Known(parent: Parent, rewritten: map<CommitId, Commit>) {
    parent.InRange? ==> parent.origin in rewritten
  }

  predicate AllKnown(parents: seq<Parent>, rewritten: map<CommitId, Commit>) {
    forall i :: 0 <= i < |parents| ==> Known(parents[i], rewritten)
  }

  function ImageOf(parent: Parent, onto: CommitId, rewritten: map<CommitId, Commit>): Commit
    requires Known(parent, rewritten)
  {
    if parent.InRange? then rewritten[parent.origin] else Original(onto)
  }

  /** Every parent a step names, as the commit that replaced it; `None` is the
      invariant failure of a parent named before it was rewritten. */
  function ResolveStepParents(parents: seq<Parent>, onto: CommitId, rewritten: map<CommitId, Commit>): (r: Option<seq<Commit>>)
    ensures r.Some? <==> AllKnown(parents, rewritten)
    ensures r.Some? ==> |r.value| == |parents| && forall i :: 0 <= i < |parents| ==> r.value[i] == ImageOf(parents[i], onto, rewritten)
  {
    if AllKnown(parents, rewritten) then
      Some(seq(|parents|, i requires 0 <= i < |parents| && Known(parents[i], rewritten) => ImageOf(parents[i], onto, rewritten)))
    else None
  }

  // ---------- Steps ----------

  predicate Chosen(choices: seq<ResolutionId>, candidates: seq<seq<ResolutionId>>) {
    |choices| == |candidates| && forall i :: 0 <= i < |choices| ==> choices[i] in candidates[i]
  }

  /** The recorded resolutions a step's own conflict is settled with, when it is
      not left to a person. */
  function RecordedChoices(policy: Policy, change: CommitId, candidates: seq<seq<ResolutionId>>): Option<seq<ResolutionId>> {
    match policy
    case ByPerson => None
    case ByForecast(approved) =>
      if change in approved && Chosen(approved[change], candidates) then Some(approved[change]) else None
    case Rehearsal => if Exact(candidates) then Some(Choices(candidates)) else None
  }

  function SettledPick(ctx: Context, change: CommitId, before: TreeId, candidates: seq<seq<ResolutionId>>): Option<Resolution> {
    if ctx.policy.ByPerson? then ctx.answers.pick(change)
    else
      match RecordedChoices(ctx.policy, change, candidates)
      case None => None
      case Some(choices) => Some(Resolution(SettleChange(ctx.git, change, before, choices), false))
  }

  function SettledJoin(ctx: Context, change: CommitId, ours: Commit, theirs: Commit, candidates: seq<seq<ResolutionId>>): Option<TreeId> {
    if ctx.policy.ByPerson? then ctx.answers.join(change)
    else
      match RecordedChoices(ctx.policy, change, candidates)
      case None => None
      case Some(choices) => Some(ctx.git.settleJoin(ours, theirs, choices))
  }

  /** Melding one absorbed change into the staged tree. An exact resolution is
      reused with or without an approval. */
  function AbsorbOne(ctx: Context, change: CommitId, staged: TreeId): Option<TreeId> {
    match MergeChange(ctx.git, change, staged)
    case Clean(tree) => Some(tree)
    case Conflicted(candidates) =>
      if candidates == [] then None
      else if Exact(candidates) then Some(SettleChange(ctx.git, change, staged, Choices(candidates)))
      else ctx.answers.absorb(change)
  }

  function AbsorbAll(ctx: Context, changes: seq<CommitId>, staged: TreeId): Option<TreeId> {
    if changes == [] then Some(staged)
    else
      match AbsorbOne(ctx, changes[0], staged)
      case None => None
      case Some(tree) => AbsorbAll(ctx, changes[1..], tree)
  }

  lemma {:induction false} AbsorbAllConcat(ctx: Context, first: seq<CommitId>, rest: seq<CommitId>, staged: TreeId)
    ensures AbsorbAll(ctx, first + rest, staged) ==
              match AbsorbAll(ctx, first, staged)
              case None => None
              case Some(tree) => AbsorbAll(ctx, rest, tree)
    decreases |first|
  {
    if first == [] {
      assert first + rest == rest;
    } else {
      assert (first + rest)[1..] == first[1..] + rest;
      match AbsorbOne(ctx, first[0], staged) {
        case None =>
        case Some(tree) => AbsorbAllConcat(ctx, first[1..], rest, tree);
      }
    }
  }

  function RelationOf(fork: bool): Relation {
    if fork then ContextualFork else ContextualRebase
  }

  function AppendApplication(line: Line, change: CommitId, parent: Commit, before: TreeId, tree: TreeId, relation: Relation): Line {
    var commit := Rewritten(change, tree, [parent]);
    line.(rewritten := line.rewritten[change := commit],
          head := commit,
          applied := line.applied + [Application(change, commit, before, tree, relation)])
  }

  function RecordAbsorption(line: Line, change: CommitId, absorbs: seq<CommitId>): Line {
    if absorbs == [] then line
    else line.(absorptions := line.absorptions + [Absorption(change, absorbs)])
  }

  function RecordAmendment(line: Line, change: CommitId, before: TreeId, after: TreeId): Line {
    if before == after then line
    else line.(amendments := line.amendments + [Amendment(change, before, after)])
  }

  /** A pick that applied cleanly: fold in what it absorbs, then do what its own
      action asks for. */
  function SurvivingStep(ctx: Context, item: Item, parent: Commit, picked: TreeId, line: Line): Outcome
    requires item.Pick?
  {
    var change := item.step.commit;
    var before := Tree(ctx.git, parent);
    match AbsorbAll(ctx, item.absorbs, picked)
    case None => Stuck(Unanswered)
    case Some(tree) =>
      if item.absorbs != [] && tree == before then Stuck(EmptyResult)
      else
        var absorbed := RecordAbsorption(line, change, item.absorbs);
        if item.action.Edit? then
          match ctx.answers.edit(change)
          case None => Stuck(Unanswered)
          case Some(edited) =>
            Next(AppendApplication(RecordAmendment(absorbed, change, tree, edited), change, parent, before, edited, CausalRebase))
        else Next(AppendApplication(absorbed, change, parent, before, tree, CausalRebase))
  }

  function PickStep(ctx: Context, item: Item, parent: Commit, line: Line): Outcome
    requires item.Pick?
  {
    var change := item.step.commit;
    var before := Tree(ctx.git, parent);
    match PickChange(ctx.git, change, before)
    case Clean(tree) => SurvivingStep(ctx, item, parent, tree, line)
    case Conflicted(candidates) =>
      if candidates == [] then Stuck(NotApplied)
      else
        match SettledPick(ctx, change, before, candidates)
        case None => Stuck(Unanswered)
        case Some(settled) =>
          if settled.tree == before then Stuck(EmptyResult)
          else Next(AppendApplication(line, change, parent, before, settled.tree, RelationOf(settled.fork)))
  }

  function AppendJoin(line: Line, change: CommitId, parents: seq<Commit>, tree: TreeId, cleanJoin: bool): Line {
    var commit := Rewritten(change, tree, parents);
    line.(rewritten := line.rewritten[change := commit],
          head := commit,
          joins := line.joins + [Join(change, commit, cleanJoin)])
  }

  function JoinStep(ctx: Context, change: CommitId, ours: Commit, theirs: Commit, line: Line): Outcome {
    if !ctx.git.joins(ours, theirs) then Stuck(NothingToJoin)
    else
      match ctx.git.mergeCommits(ours, theirs)
      case Clean(tree) => Next(AppendJoin(line, change, [ours, theirs], tree, true))
      case Conflicted(candidates) =>
        if candidates == [] then Stuck(NotApplied)
        else
          match SettledJoin(ctx, change, ours, theirs, candidates)
          case None => Stuck(Unanswered)
          case Some(tree) => Next(AppendJoin(line, change, [ours, theirs], tree, false))
  }

  predicate WellFormed(item: Item) {
    |item.step.parents| == if item.RecreateMerge? then 2 else 1
  }

  function StepOn(ctx: Context, item: Item, line: Line): Outcome
    requires WellFormed(item)
  {
    match ResolveStepParents(item.step.parents, ctx.onto, line.rewritten)
    case None => Stuck(UnknownParent)
    case Some(parents) =>
      match item
      case Omit(step) => Next(line.(rewritten := line.rewritten[step.commit := parents[0]]))
      case RecreateMerge(step) => JoinStep(ctx, step.commit, parents[0], parents[1], line)
      case Pick(_, _, _) => PickStep(ctx, item, parents[0], line)
  }

  predicate WellFormedQueue(queue: seq<Item>) {
    forall i :: 0 <= i < |queue| ==> WellFormed(queue[i])
  }

  function FoldTo(ctx: Context, queue: seq<Item>, k: nat): Outcome
    requires WellFormedQueue(queue) && k <= |queue|
  {
    if k == 0 then Next(Start(ctx.onto))
    else
      match FoldTo(ctx, queue, k - 1)
      case Stuck(why) => Stuck(why)
      case Next(line) => StepOn(ctx, queue[k - 1], line)
  }

  lemma {:induction false} FoldToEarlier(ctx: Context, queue: seq<Item>, k: nat, i: nat)
    requires WellFormedQueue(queue) && i <= k <= |queue| && FoldTo(ctx, queue, k).Next?
    ensures FoldTo(ctx, queue, i).Next?
    decreases k
  {
    hide StepOn;
    if i < k { FoldToEarlier(ctx, queue, k - 1, i); }
  }

  // ---------- Programs ----------

  /** The program of a range: its commits in order, merges recreated, each step
      naming the parents the range gives it. Which picks are omitted, what they
      absorb and what they ask for is free. */
  ghost predicate ProgramOf(nodes: seq<Node>, queue: seq<Item>) {
    && |queue| == |nodes|
    && forall i :: 0 <= i < |nodes| ==>
         && queue[i].step == StepOf(nodes[i], Commits(nodes))
         && (queue[i].RecreateMerge? <==> |nodes[i].parents| > 1)
         && |nodes[i].parents| <= 2
  }

  lemma {:induction false} ProgramIsWellFormed(nodes: seq<Node>, queue: seq<Item>)
    requires ProgramOf(nodes, queue)
    ensures WellFormedQueue(queue)
  {
  }

  // ---------- The image of the range ----------

  /** How a step's commit was replaced: an omitted one by its parent's image,
      any other by a commit whose parents are, in order, its parents' images. */
  ghost predicate ImageHolds(item: Item, onto: CommitId, rewritten: map<CommitId, Commit>) {
    var c := item.step.commit;
    var ps := item.step.parents;
    && ps != []
    && c in rewritten
    && AllKnown(ps, rewritten)
    && if item.Omit? then rewritten[c] == ImageOf(ps[0], onto, rewritten)
       else
         && rewritten[c].Rewritten?
         && rewritten[c].origin == c
         && |rewritten[c].parents| == |ps|
         && forall j :: 0 <= j < |ps| ==> rewritten[c].parents[j] == ImageOf(ps[j], onto, rewritten)
  }

  ghost predicate AllImages(queue: seq<Item>, onto: CommitId, rewritten: map<CommitId, Commit>) {
    forall i :: 0 <= i < |queue| ==> ImageHolds(queue[i], onto, rewritten)
  }

  ghost predicate ImageTo(queue: seq<Item>, k: nat, onto: CommitId, rewritten: map<CommitId, Commit>)
    requires k <= |queue|
  {
    && (forall i :: 0 <= i < k ==> ImageHolds(queue[i], onto, rewritten))
    && forall c :: c in rewritten <==> exists i :: 0 <= i < k && queue[i].step.commit == c
  }

  lemma {:induction false} StepAddsOne(ctx: Context, item: Item, line: Line)
    requires WellFormed(item) && StepOn(ctx, item, line).Next?
    requires item.step.commit !in line.rewritten
    ensures var after := StepOn(ctx, item, line).line;
            && after.rewritten == line.rewritten[item.step.commit := after.rewritten[item.step.commit]]
            && ImageHolds(item, ctx.onto, after.rewritten)
            && (item.Omit? ==> after.head == line.head)
            && (!item.Omit? ==> after.head == after.rewritten[item.step.commit])
  {
    var ps := item.step.parents;
    var after := StepOn(ctx, item, line).line.rewritten;
    forall i | 0 <= i < |ps| ensures Known(ps[i], after) && ImageOf(ps[i], ctx.onto, after) == ImageOf(ps[i], ctx.onto, line.rewritten) {
      assert Known(ps[i], line.rewritten);
    }
  }

  lemma {:induction false} KnownParentsResolve(ctx: Context, item: Item, line: Line)
    requires WellFormed(item) && AllKnown(item.step.parents, line.rewritten)
    ensures StepOn(ctx, item, line) != Stuck(UnknownParent)
  {
  }

  lemma {:induction false} ParentsAreEarlier(nodes: seq<Node>, queue: seq<Item>, k: nat, p: Parent)
    requires Rooted(nodes) && ProgramOf(nodes, queue) && k < |queue|
    requires p in queue[k].step.parents && p.InRange?
    ensures exists i :: 0 <= i < k && queue[i].step.commit == p.origin
  {
    assert p.origin in Commits(nodes);
    var j :| 0 <= j < |nodes| && nodes[j].commit == p.origin;
    assert IsParent(nodes, j, k);
    assert queue[j].step.commit == p.origin;
  }

  lemma {:induction false} CommitsDiffer(nodes: seq<Node>, queue: seq<Item>, k: nat)
    requires Rooted(nodes) && ProgramOf(nodes, queue) && k < |queue|
    ensures forall i :: 0 <= i < k ==> queue[i].step.commit != queue[k].step.commit
  {
    forall i | 0 <= i < k ensures queue[i].step.commit != queue[k].step.commit {
      assert nodes[i].commit != nodes[k].commit;
    }
  }

  lemma {:induction false} ImageSurvives(item: Item, onto: CommitId, rewritten: map<CommitId, Commit>, c: CommitId, commit: Commit)
    requires ImageHolds(item, onto, rewritten) && c !in rewritten
    ensures ImageHolds(item, onto, rewritten[c := commit])
  {
    var ps := item.step.parents;
    var after := rewritten[c := commit];
    forall i | 0 <= i < |ps| ensures Known(ps[i], after) && ImageOf(ps[i], onto, after) == ImageOf(ps[i], onto, rewritten) {
      assert Known(ps[i], rewritten);
    }
  }

  /** A supported program never names a parent before it was rewritten, and what
      it has rewritten is a parent-preserving image of the range. */
  lemma {:induction false} ProgramImage(ctx: Context, nodes: seq<Node>, queue: seq<Item>, k: nat)
    requires Rooted(nodes) && ProgramOf(nodes, queue) && WellFormedQueue(queue) && k <= |queue|
    ensures FoldTo(ctx, queue, k) != Stuck(UnknownParent)
    ensures FoldTo(ctx, queue, k).Next? ==> ImageTo(queue, k, ctx.onto, FoldTo(ctx, queue, k).line.rewritten)
  {
    hide StepOn;
    if k > 0 {
      ProgramImage(ctx, nodes, queue, k - 1);
      if FoldTo(ctx, queue, k - 1).Next? {
        var line := FoldTo(ctx, queue, k - 1).line;
        var item := queue[k - 1];
        forall i | 0 <= i < |item.step.parents| ensures Known(item.step.parents[i], line.rewritten) {
          if item.step.parents[i].InRange? { ParentsAreEarlier(nodes, queue, k - 1, item.step.parents[i]); }
        }
        KnownParentsResolve(ctx, item, line);
        if FoldTo(ctx, queue, k).Next? {
          ImageStep(ctx, nodes, queue, k);
        }
      }
    }
  }

  /** What a rewrite makes of a range, commit by commit. A commit that was not
      omitted has, in order, what its own parents became, and the new base for a
      parent that is not listed or not there; an omitted one is what its first
      parent became. No step names a parent before that was rewritten. */
  lemma {:induction false} RangeImage(ctx: Context, nodes: seq<Node>, queue: seq<Item>, k: nat, i: nat)
    requires Rooted(nodes) && ProgramOf(nodes, queue) && WellFormedQueue(queue) && i < k <= |queue|
    ensures FoldTo(ctx, queue, k) != Stuck(UnknownParent)
    ensures FoldTo(ctx, queue, k).Next? ==>
              var n, rewritten := nodes[i], FoldTo(ctx, queue, k).line.rewritten;
              && n.commit in rewritten
              && (forall j :: 0 <= j < |n.parents| ==> (exists m :: 0 <= m < |nodes| && nodes[m].commit == n.parents[j]) ==> n.parents[j] in rewritten)
              && (!queue[i].Omit? ==>
                    && rewritten[n.commit].Rewritten? && rewritten[n.commit].origin == n.commit
                    && (n.parents == [] ==> rewritten[n.commit].parents == [Original(ctx.onto)])
                    && (n.parents != [] ==> |rewritten[n.commit].parents| == |n.parents|)
                    && forall j :: 0 <= j < |n.parents| ==>
                         rewritten[n.commit].parents[j] ==
                           if exists m :: 0 <= m < |nodes| && nodes[m].commit == n.parents[j] then rewritten[n.parents[j]] else Original(ctx.onto))
              && (queue[i].Omit? ==>
                    rewritten[n.commit] ==
                      if n.parents != [] && exists m :: 0 <= m < |nodes| && nodes[m].commit == n.parents[0] then rewritten[n.parents[0]]
                      else Original(ctx.onto))
  {
    hide StepOn, FoldTo, Rooted;
    ProgramImage(ctx, nodes, queue, k);
    CommitsAre(nodes);
    if FoldTo(ctx, queue, k).Next? {
      var n, rewritten, step := nodes[i], FoldTo(ctx, queue, k).line.rewritten, queue[i].step;
      assert ImageHolds(queue[i], ctx.onto, rewritten);
      ParentsInOrder(n, Commits(nodes));
      forall j | 0 <= j < |n.parents|
        ensures step.parents[j] == ParentOrigin(n.parents[j], Commits(nodes)) && Known(step.parents[j], rewritten)
      {}
    }
  }

  lemma {:induction false} ImageStep(ctx: Context, nodes: seq<Node>, queue: seq<Item>, k: nat)
    requires Rooted(nodes) && ProgramOf(nodes, queue) && WellFormedQueue(queue) && 0 < k <= |queue|
    requires FoldTo(ctx, queue, k).Next?
    requires ImageTo(queue, k - 1, ctx.onto, FoldTo(ctx, queue, k - 1).line.rewritten)
    ensures ImageTo(queue, k, ctx.onto, FoldTo(ctx, queue, k).line.rewritten)
  {
    hide StepOn, ImageHolds, ProgramOf, Rooted;
    var line := FoldTo(ctx, queue, k - 1).line;
    var item := queue[k - 1];
    var c := item.step.commit;
    assert FoldTo(ctx, queue, k) == StepOn(ctx, item, line);
    hide FoldTo;
    CommitsDiffer(nodes, queue, k - 1);
    StepAddsOne(ctx, item, line);
    var after := FoldTo(ctx, queue, k).line.rewritten;
    forall i | 0 <= i < k ensures ImageHolds(queue[i], ctx.onto, after) {
      if i < k - 1 { ImageSurvives(queue[i], ctx.onto, line.rewritten, c, after[c]); }
    }
  }

  /** What was applied has been rewritten. */
  lemma {:induction false} AppliedAreRewritten(ctx: Context, queue: seq<Item>, k: nat)
    requires WellFormedQueue(queue) && k <= |queue| && FoldTo(ctx, queue, k).Next?
    ensures var line := FoldTo(ctx, queue, k).line;
            forall i :: 0 <= i < |line.applied| ==> line.applied[i].origin in line.rewritten
  {
    hide StepOn;
    if k > 0 {
      AppliedAreRewritten(ctx, queue, k - 1);
      AppliesOne(ctx, queue[k - 1], FoldTo(ctx, queue, k - 1).line);
    }
  }

  lemma {:induction false} AppliesOne(ctx: Context, item: Item, line: Line)
    requires WellFormed(item) && StepOn(ctx, item, line).Next?
    requires forall i :: 0 <= i < |line.applied| ==> line.applied[i].origin in line.rewritten
    ensures var after := StepOn(ctx, item, line).line;
            forall i :: 0 <= i < |after.applied| ==> after.applied[i].origin in after.rewritten
  {
    hide AbsorbAll, SettledPick, SettledJoin, PickChange;
  }

  // ---------- Where HEAD ends ----------

  ghost predicate OmittedAfter(queue: seq<Item>, m: nat) {
    forall i :: m <= i < |queue| ==> queue[i].Omit?
  }

  /** Omitted steps move nothing, so HEAD stays where the last step that ran
      left it. */
  lemma {:induction false} OmitsKeepHead(ctx: Context, queue: seq<Item>, m: nat, k: nat)
    requires WellFormedQueue(queue) && m <= k <= |queue| && OmittedAfter(queue, m)
    requires FoldTo(ctx, queue, k).Next?
    ensures FoldTo(ctx, queue, m).Next? && FoldTo(ctx, queue, k).line.head == FoldTo(ctx, queue, m).line.head
    decreases k
  {
    if k > m { OmitsKeepHead(ctx, queue, m, k - 1); }
  }

  lemma {:induction false} LastExecuted(queue: seq<Item>) returns (m: nat)
    ensures m <= |queue| && OmittedAfter(queue, m)
    ensures m > 0 ==> !queue[m - 1].Omit?
  {
    m := |queue|;
    while m > 0 && queue[m - 1].Omit?
      invariant m <= |queue| && OmittedAfter(queue, m)
    {
      m := m - 1;
    }
  }

  /** When the program is exhausted HEAD is the image of the range's tip, however
      often the steps jumped between lines and however many final steps were
      omitted. */
  lemma {:induction false} HeadIsImageOfTip(ctx: Context, nodes: seq<Node>, queue: seq<Item>)
    requires Rooted(nodes) && ProgramOf(nodes, queue) && WellFormedQueue(queue) && nodes != []
    requires FoldTo(ctx, queue, |queue|).Next?
    ensures var line := FoldTo(ctx, queue, |queue|).line;
            var tip := nodes[|nodes| - 1].commit;
            tip in line.rewritten && line.head == line.rewritten[tip]
  {
    hide StepOn, FoldTo;
    var m := LastExecuted(queue);
    ProgramImage(ctx, nodes, queue, |queue|);
    if m == 0 {
      TipWhenAllOmitted(ctx, nodes, queue);
    } else {
      TipAfterStep(ctx, nodes, queue, m);
    }
  }

  lemma {:induction false} TipWhenAllOmitted(ctx: Context, nodes: seq<Node>, queue: seq<Item>)
    requires Rooted(nodes) && ProgramOf(nodes, queue) && WellFormedQueue(queue) && nodes != []
    requires FoldTo(ctx, queue, |queue|).Next? && OmittedAfter(queue, 0)
    requires AllImages(queue, ctx.onto, FoldTo(ctx, queue, |queue|).line.rewritten)
    ensures var line := FoldTo(ctx, queue, |queue|).line;
            var tip := nodes[|nodes| - 1].commit;
            tip in line.rewritten && line.head == line.rewritten[tip]
  {
    hide StepOn;
    var line := FoldTo(ctx, queue, |queue|).line;
    OmitsKeepHead(ctx, queue, 0, |queue|);
    TailIsChain(nodes, 0);
    ImageAlongChain(ctx, nodes, queue, line, 0, |queue| - 1);
    FirstHasNoParentInRange(nodes, queue);
    assert ImageHolds(queue[0], ctx.onto, line.rewritten);
    assert queue[0].step.parents[0] in queue[0].step.parents;
  }

  lemma {:induction false} TipAfterStep(ctx: Context, nodes: seq<Node>, queue: seq<Item>, m: nat)
    requires Rooted(nodes) && ProgramOf(nodes, queue) && WellFormedQueue(queue)
    requires FoldTo(ctx, queue, |queue|).Next?
    requires 0 < m <= |queue| && OmittedAfter(queue, m) && !queue[m - 1].Omit?
    requires AllImages(queue, ctx.onto, FoldTo(ctx, queue, |queue|).line.rewritten)
    ensures var line := FoldTo(ctx, queue, |queue|).line;
            var tip := nodes[|nodes| - 1].commit;
            tip in line.rewritten && line.head == line.rewritten[tip]
  {
    hide StepOn, FoldTo;
    OmitsKeepHead(ctx, queue, m, |queue|);
    TailIsChain(nodes, m - 1);
    ImageAlongChain(ctx, nodes, queue, FoldTo(ctx, queue, |queue|).line, m - 1, |queue| - 1);
    var tip := nodes[|nodes| - 1].commit;
    assert queue[|queue| - 1].step.commit == tip;
    HeadAfterStep(ctx, nodes, queue, m);
    KeptImage(ctx, nodes, queue, m, |queue|);
  }

  lemma {:induction false} FirstHasNoParentInRange(nodes: seq<Node>, queue: seq<Item>)
    requires Rooted(nodes) && ProgramOf(nodes, queue) && nodes != []
    ensures forall p <- queue[0].step.parents :: !p.InRange?
  {
    forall p | p in queue[0].step.parents ensures !p.InRange? {
      if p.InRange? { ParentsAreEarlier(nodes, queue, 0, p); }
    }
  }

  lemma {:induction false} HeadAfterStep(ctx: Context, nodes: seq<Node>, queue: seq<Item>, m: nat)
    requires Rooted(nodes) && ProgramOf(nodes, queue) && WellFormedQueue(queue)
    requires 0 < m <= |queue| && !queue[m - 1].Omit? && FoldTo(ctx, queue, m).Next?
    ensures var line := FoldTo(ctx, queue, m).line;
            queue[m - 1].step.commit in line.rewritten && line.head == line.rewritten[queue[m - 1].step.commit]
  {
    assert StepOn(ctx, queue[m - 1], FoldTo(ctx, queue, m - 1).line).Next?;
  }

  /** Once rewritten, a commit keeps its image. */
  lemma {:induction false} KeptImage(ctx: Context, nodes: seq<Node>, queue: seq<Item>, m: nat, k: nat)
    requires Rooted(nodes) && ProgramOf(nodes, queue) && WellFormedQueue(queue)
    requires m <= k <= |queue| && FoldTo(ctx, queue, k).Next?
    ensures FoldTo(ctx, queue, m).Next?
    ensures forall c :: c in FoldTo(ctx, queue, m).line.rewritten ==>
              && c in FoldTo(ctx, queue, k).line.rewritten
              && FoldTo(ctx, queue, k).line.rewritten[c] == FoldTo(ctx, queue, m).line.rewritten[c]
    decreases k
  {
    hide StepOn;
    if k > m {
      KeptImage(ctx, nodes, queue, m, k - 1);
      NotYetRewritten(ctx, nodes, queue, k - 1);
      StepAddsOne(ctx, queue[k - 1], FoldTo(ctx, queue, k - 1).line);
    }
  }

  lemma {:induction false} NotYetRewritten(ctx: Context, nodes: seq<Node>, queue: seq<Item>, k: nat)
    requires Rooted(nodes) && ProgramOf(nodes, queue) && WellFormedQueue(queue) && k < |queue|
    requires FoldTo(ctx, queue, k).Next?
    ensures queue[k].step.commit !in FoldTo(ctx, queue, k).line.rewritten
  {
    hide StepOn, FoldTo;
    ProgramImage(ctx, nodes, queue, k);
    CommitsDiffer(nodes, queue, k);
  }

  lemma {:induction false} ImageAlongChain(ctx: Context, nodes: seq<Node>, queue: seq<Item>, line: Line, m: nat, i: nat)
    requires ProgramOf(nodes, queue) && m <= i < |queue|
    requires AllImages(queue, ctx.onto, line.rewritten)
    requires ChainFrom(nodes, m) && OmittedAfter(queue, m + 1)
    ensures queue[i].step.commit in line.rewritten && queue[m].step.commit in line.rewritten
    ensures line.rewritten[queue[i].step.commit] == line.rewritten[queue[m].step.commit]
    decreases i
  {
    assert ImageHolds(queue[i], ctx.onto, line.rewritten);
    if i > m {
      ImageAlongChain(ctx, nodes, queue, line, m, i - 1);
      assert FollowsPrevious(nodes, i);
      OmittedFollowsPrevious(ctx, nodes, queue, line, i);
    }
  }

  lemma {:induction false} OmittedFollowsPrevious(ctx: Context, nodes: seq<Node>, queue: seq<Item>, line: Line, i: nat)
    requires ProgramOf(nodes, queue) && 0 < i < |queue|
    requires ImageHolds(queue[i], ctx.onto, line.rewritten)
    requires queue[i].Omit? && FollowsPrevious(nodes, i)
    requires queue[i - 1].step.commit in line.rewritten
    ensures line.rewritten[queue[i].step.commit] == line.rewritten[queue[i - 1].step.commit]
  {
    var before := nodes[i - 1];
    assert before in nodes;
    assert nodes[i].parents[0] == before.commit;
    assert queue[i].step.parents[0] == InRange(before.commit);
    assert Known(queue[i].step.parents[0], line.rewritten);
  }

  // ---------- Counting ----------

  function Executed(queue: seq<Item>, k: nat): nat
    requires k <= |queue|
  {
    if k == 0 then 0 else Executed(queue, k - 1) + if queue[k - 1].Omit? then 0 else 1
  }

  lemma {:induction false} StepRecords(ctx: Context, item: Item, line: Line)
    requires WellFormed(item) && StepOn(ctx, item, line).Next?
    ensures var after := StepOn(ctx, item, line).line;
            |after.applied| + |after.joins| == |line.applied| + |line.joins| + if item.Omit? then 0 else 1
  {
    hide AbsorbAll, SettledPick, SettledJoin, PickChange;
  }

  /** Every step that ran is recorded exactly once, as an application or as a
      join. */
  lemma {:induction false} ExecutedAreRecorded(ctx: Context, queue: seq<Item>, k: nat)
    requires WellFormedQueue(queue) && k <= |queue| && FoldTo(ctx, queue, k).Next?
    ensures var line := FoldTo(ctx, queue, k).line; |line.applied| + |line.joins| == Executed(queue, k)
  {
    hide StepOn;
    if k > 0 {
      ExecutedAreRecorded(ctx, queue, k - 1);
      StepRecords(ctx, queue[k - 1], FoldTo(ctx, queue, k - 1).line);
    }
  }

  // ---------- Reports ----------

  datatype StepOutcome = CleanStep | ExactStep
  datatype Report = Report(source: CommitId, outcome: StepOutcome, beforeTree: TreeId, resultTree: TreeId)

  function OutcomeOf(clean: bool): StepOutcome {
    if clean then CleanStep else ExactStep
  }

  /** What a step that ran says of itself, read off the records it left. */
  function ReportOf(g: Git, before: Line, after: Line): Report
    requires |after.applied| > |before.applied| || |after.joins| > |before.joins|
    requires forall j <- after.joins :: j.commit.Rewritten? && j.commit.parents != []
  {
    if |after.applied| > |before.applied| then
      var a := after.applied[|after.applied| - 1];
      Report(a.origin, OutcomeOf(a.relation.CausalRebase?), a.beforeTree, a.resultTree)
    else
      var j := after.joins[|after.joins| - 1];
      Report(j.origin, OutcomeOf(j.cleanJoin), Tree(g, j.commit.parents[0]), Tree(g, j.commit))
  }

  lemma {:induction false} JoinsHaveParents(ctx: Context, queue: seq<Item>, k: nat)
    requires WellFormedQueue(queue) && k <= |queue| && FoldTo(ctx, queue, k).Next?
    ensures forall j <- FoldTo(ctx, queue, k).line.joins :: j.commit.Rewritten? && j.commit.parents != []
  {
    if k > 0 {
      JoinsHaveParents(ctx, queue, k - 1);
      assert StepOn(ctx, queue[k - 1], FoldTo(ctx, queue, k - 1).line).Next?;
    }
  }

  ghost function ReportAt(ctx: Context, queue: seq<Item>, k: nat): Report
    requires WellFormedQueue(queue) && k < |queue| && FoldTo(ctx, queue, k + 1).Next? && !queue[k].Omit?
  {
    JoinsHaveParents(ctx, queue, k + 1);
    assert StepOn(ctx, queue[k], FoldTo(ctx, queue, k).line).Next?;
    ReportOf(ctx.git, FoldTo(ctx, queue, k).line, FoldTo(ctx, queue, k + 1).line)
  }

  /** One report per step that ran, in order. */
  ghost function Reports(ctx: Context, queue: seq<Item>, k: nat): (r: seq<Report>)
    requires WellFormedQueue(queue) && k <= |queue| && FoldTo(ctx, queue, k).Next?
    ensures |r| == Executed(queue, k)
  {
    if k == 0 then []
    else Reports(ctx, queue, k - 1) + if queue[k - 1].Omit? then [] else [ReportAt(ctx, queue, k - 1)]
  }

  lemma {:induction false} ReportIndex(ctx: Context, queue: seq<Item>, n: nat, k: nat)
    requires WellFormedQueue(queue) && k < n <= |queue| && FoldTo(ctx, queue, n).Next? && !queue[k].Omit?
    ensures FoldTo(ctx, queue, k + 1).Next?
    ensures Executed(queue, k) < |Reports(ctx, queue, n)|
    ensures Reports(ctx, queue, n)[Executed(queue, k)] == ReportAt(ctx, queue, k)
    decreases n
  {
    hide StepOn;
    if k < n - 1 { ReportIndex(ctx, queue, n - 1, k); }
  }

  /** A report names the step's own commit, the tree of the parent it was
      positioned on, the tree it made, and whether its own merge was clean. */
  lemma {:induction false} ReportFacts(ctx: Context, queue: seq<Item>, k: nat)
    requires WellFormedQueue(queue) && k < |queue| && FoldTo(ctx, queue, k + 1).Next? && !queue[k].Omit?
    ensures FoldTo(ctx, queue, k).Next?
    ensures var report := ReportAt(ctx, queue, k);
            var parents := ResolveStepParents(queue[k].step.parents, ctx.onto, FoldTo(ctx, queue, k).line.rewritten);
            && parents.Some?
            && |parents.value| == |queue[k].step.parents|
            && report.source == queue[k].step.commit
            && report.beforeTree == Tree(ctx.git, parents.value[0])
            && report.resultTree == Tree(ctx.git, FoldTo(ctx, queue, k + 1).line.head)
            && report.outcome == OutcomeOf(
                 if queue[k].RecreateMerge? then ctx.git.mergeCommits(parents.value[0], parents.value[1]).Clean?
                 else PickChange(ctx.git, queue[k].step.commit, report.beforeTree).Clean?)
  {
    assert WellFormed(queue[k]);
    assert StepOn(ctx, queue[k], FoldTo(ctx, queue, k).line).Next?;
  }

  // ---------- Absorption ----------

  function TimesAbsorbed(log: seq<Absorption>, x: CommitId): nat {
    if log == [] then 0
    else TimesAbsorbed(log[..|log| - 1], x) + multiset(log[|log| - 1].absorbed)[x]
  }

  /** Whether the change of step `i` applied without a conflict of its own. */
  ghost predicate PickedCleanly(ctx: Context, queue: seq<Item>, i: nat)
    requires WellFormedQueue(queue) && i < |queue|
  {
    && FoldTo(ctx, queue, i).Next?
    && var parents := ResolveStepParents(queue[i].step.parents, ctx.onto, FoldTo(ctx, queue, i).line.rewritten);
       parents.Some? && |parents.value| > 0 && PickChange(ctx.git, queue[i].step.commit, Tree(ctx.git, parents.value[0])).Clean?
  }

  ghost predicate AppliedAs(applied: seq<Application>, origin: CommitId, clean: bool) {
    exists i :: 0 <= i < |applied| && applied[i].origin == origin && (applied[i].relation == CausalRebase <==> clean)
  }

  /** A pick that ran was applied, as itself when it was clean and in context
      when its conflict was settled. */
  lemma {:induction false} PickIsApplied(ctx: Context, queue: seq<Item>, k: nat, j: nat)
    requires WellFormedQueue(queue) && j < k <= |queue| && FoldTo(ctx, queue, k).Next? && queue[j].Pick?
    ensures AppliedAs(FoldTo(ctx, queue, k).line.applied, queue[j].step.commit, PickedCleanly(ctx, queue, j))
  {
    hide StepOn, PickedCleanly;
    var before, after := FoldTo(ctx, queue, k - 1).line.applied, FoldTo(ctx, queue, k).line.applied;
    if j < k - 1 {
      PickIsApplied(ctx, queue, k - 1, j);
      AppliedGrows(ctx, queue[k - 1], FoldTo(ctx, queue, k - 1).line);
      var i :| 0 <= i < |before| && before[i].origin == queue[j].step.commit
               && (before[i].relation == CausalRebase <==> PickedCleanly(ctx, queue, j));
      assert after[i] == before[i];
    } else {
      PickApplies(ctx, queue, j);
    }
  }

  lemma {:induction false} AppliedGrows(ctx: Context, item: Item, line: Line)
    requires WellFormed(item) && StepOn(ctx, item, line).Next?
    ensures line.applied <= StepOn(ctx, item, line).line.applied
  {
    hide AbsorbAll, SettledPick, SettledJoin, PickChange;
  }

  lemma {:induction false} PickApplies(ctx: Context, queue: seq<Item>, j: nat)
    requires WellFormedQueue(queue) && j < |queue| && FoldTo(ctx, queue, j + 1).Next? && queue[j].Pick?
    ensures AppliedAs(FoldTo(ctx, queue, j + 1).line.applied, queue[j].step.commit, PickedCleanly(ctx, queue, j))
  {
    hide AbsorbAll, SettledPick, PickChange;
    var before, after := FoldTo(ctx, queue, j).line.applied, FoldTo(ctx, queue, j + 1).line.applied;
    assert StepOn(ctx, queue[j], FoldTo(ctx, queue, j).line).Next?;
    assert |after| == |before| + 1 && after[|before|].origin == queue[j].step.commit;
    assert after[|before|].relation == CausalRebase <==> PickedCleanly(ctx, queue, j);
  }

  /** Whether step `i` waited for a message or an edit before it was recorded. */
  ghost predicate PausesForAction(ctx: Context, queue: seq<Item>, i: nat)
    requires WellFormedQueue(queue) && i < |queue|
  {
    queue[i].Pick? && !queue[i].action.Replay? && PickedCleanly(ctx, queue, i)
  }

  ghost predicate AbsorbedOnlyBy(queue: seq<Item>, i: nat, x: CommitId) {
    && i < |queue|
    && queue[i].Pick?
    && multiset(queue[i].absorbs)[x] == 1
    && forall j :: 0 <= j < |queue| && j != i && queue[j].Pick? ==> x !in queue[j].absorbs
  }

  lemma {:induction false} StepAbsorbs(ctx: Context, queue: seq<Item>, k: nat, x: CommitId)
    requires WellFormedQueue(queue) && k < |queue| && FoldTo(ctx, queue, k + 1).Next?
    ensures FoldTo(ctx, queue, k).Next?
    ensures var before := FoldTo(ctx, queue, k).line.absorptions;
            var after := FoldTo(ctx, queue, k + 1).line.absorptions;
            after == if queue[k].Pick? && queue[k].absorbs != [] && PickedCleanly(ctx, queue, k)
                     then before + [Absorption(queue[k].step.commit, queue[k].absorbs)]
                     else before
  {
    assert StepOn(ctx, queue[k], FoldTo(ctx, queue, k).line).Next?;
  }

  /** A change declared into a survivor is folded in exactly once when the
      survivor's own pick is clean, and not at all when that pick conflicts: a
      conflicted survivor is recorded without ever running its absorption. */
  lemma {:induction false} AbsorbedOnceIffSurvivorClean(ctx: Context, queue: seq<Item>, k: nat, i: nat, x: CommitId)
    requires WellFormedQueue(queue) && k <= |queue| && FoldTo(ctx, queue, k).Next?
    requires AbsorbedOnlyBy(queue, i, x)
    ensures TimesAbsorbed(FoldTo(ctx, queue, k).line.absorptions, x) == if i < k && PickedCleanly(ctx, queue, i) then 1 else 0
  {
    hide StepOn;
    if k > 0 {
      AbsorbedOnceIffSurvivorClean(ctx, queue, k - 1, i, x);
      StepAbsorbs(ctx, queue, k - 1, x);
      var before := FoldTo(ctx, queue, k - 1).line.absorptions;
      var after := FoldTo(ctx, queue, k).line.absorptions;
      if after != before {
        assert after[..|after| - 1] == before;
        assert multiset(queue[k - 1].absorbs)[x] == if k - 1 == i then 1 else 0;
      }
    }
  }
}
