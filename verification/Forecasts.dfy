/** Rehearsing a rebase: the worktree simulator, the merge-tree engine that
    stands in for it, and why an approved forecast binds the real run. */
module Forecasts {
  import opened Git
  import opened RebaseTopology
  import opened RebaseFold
  import opened RebaseOperations

  datatype Status = Complete | PausesForContent | BlockedForecast

  /** Nobody answers a forecast. */
  function Nobody(): Answers {
    Answers(_ => None, _ => None, _ => None, _ => None)
  }

  function Rehearse(g: Git, onto: CommitId): Context {
    Context(g, onto, Rehearsal, Nobody())
  }

  /** Each choice is the one candidate its path has. */
  predicate Settles(choices: seq<ResolutionId>, candidates: seq<seq<ResolutionId>>) {
    |choices| == |candidates| && forall i :: 0 <= i < |candidates| ==> candidates[i] == [choices[i]]
  }

  lemma {:induction false} SettlesIff(choices: seq<ResolutionId>, candidates: seq<seq<ResolutionId>>)
    ensures Settles(choices, candidates) <==> Exact(candidates) && choices == Choices(candidates)
  {
    if Exact(candidates) && choices == Choices(candidates) {
      forall i | 0 <= i < |candidates| ensures candidates[i] == [choices[i]] {}
    }
  }

  // ---------- One simulated step ----------

  datatype Simulated = Simulated(tree: TreeId, outcome: StepOutcome, choices: Option<seq<ResolutionId>>)

  method AbsorbChanges(g: Git, ghost onto: CommitId, absorbs: seq<CommitId>, picked: TreeId) returns (r: Option<TreeId>)
    ensures r == AbsorbAll(Rehearse(g, onto), absorbs, picked)
  {
    var staged := picked;
    for i := 0 to |absorbs|
      invariant AbsorbAll(Rehearse(g, onto), absorbs, picked) == AbsorbAll(Rehearse(g, onto), absorbs[i..], staged)
    {
      var item := absorbs[i];
      assert absorbs[i..][0] == item && absorbs[i..][1..] == absorbs[i + 1..];
      match MergeChange(g, item, staged) {
        case Clean(tree) => staged := tree;
        case Conflicted(candidates) =>
          if candidates == [] || !Exact(candidates) { return None; }
          staged := SettleChange(g, item, staged, Choices(candidates));
      }
    }
    r := Some(staged);
  }

  method SimulatePick(g: Git, ghost onto: CommitId, item: Item, head: Commit, ghost line: Line) returns (r: Option<Simulated>)
    requires item.Pick? && !item.action.Edit?
    ensures r.Some? <==> PickStep(Rehearse(g, onto), item, head, line).Next?
    ensures r.Some? ==>
              var after := PickStep(Rehearse(g, onto), item, head, line).line;
              var merged := PickChange(g, item.step.commit, Tree(g, head));
              && after.head == Rewritten(item.step.commit, r.value.tree, [head])
              && after.rewritten == line.rewritten[item.step.commit := after.head]
              && r.value.outcome == OutcomeOf(merged.Clean?)
              && match merged
                 case Clean(_) => r.value.choices == None
                 case Conflicted(candidates) => r.value.choices.Some? && Settles(r.value.choices.value, candidates)
  {
    var change := item.step.commit;
    var before := Tree(g, head);
    match PickChange(g, change, before) {
      case Clean(tree) =>
        var staged := AbsorbChanges(g, onto, item.absorbs, tree);
        if staged == None || (item.absorbs != [] && staged.value == before) { return None; }
        r := Some(Simulated(staged.value, CleanStep, None));
      case Conflicted(candidates) =>
        if candidates == [] || !Exact(candidates) { return None; }
        var choices := Choices(candidates);
        SettlesIff(choices, candidates);
        var settled := SettleChange(g, change, before, choices);
        if settled == before { return None; }
        r := Some(Simulated(settled, ExactStep, Some(choices)));
    }
  }

  method SimulateJoin(g: Git, ghost onto: CommitId, change: CommitId, head: Commit, theirs: Commit, ghost line: Line) returns (r: Option<Simulated>)
    ensures r.Some? <==> JoinStep(Rehearse(g, onto), change, head, theirs, line).Next?
    ensures r.Some? ==>
              var after := JoinStep(Rehearse(g, onto), change, head, theirs, line).line;
              var merged := g.mergeCommits(head, theirs);
              && after.head == Rewritten(change, r.value.tree, [head, theirs])
              && after.rewritten == line.rewritten[change := after.head]
              && r.value.outcome == OutcomeOf(merged.Clean?)
              && match merged
                 case Clean(_) => r.value.choices == None
                 case Conflicted(candidates) => r.value.choices.Some? && Settles(r.value.choices.value, candidates)
  {
    if !g.joins(head, theirs) { return None; }
    match g.mergeCommits(head, theirs) {
      case Clean(tree) =>
        r := Some(Simulated(tree, CleanStep, None));
      case Conflicted(candidates) =>
        if candidates == [] || !Exact(candidates) { return None; }
        var choices := Choices(candidates);
        SettlesIff(choices, candidates);
        r := Some(Simulated(g.settleJoin(head, theirs, choices), ExactStep, Some(choices)));
    }
  }

  // ---------- The worktree simulator ----------

  /** The merge of step `k`'s own change in a rehearsal. */
  ghost function MergeAt(g: Git, item: Item, parents: seq<Commit>): Merged
    requires |parents| == if item.RecreateMerge? then 2 else 1
  {
    if item.RecreateMerge? then g.mergeCommits(parents[0], parents[1])
    else PickChange(g, item.step.commit, Tree(g, parents[0]))
  }

  /** `choices` holds what settles step `k`, if its own change conflicts. */
  ghost predicate ChoicesAt(ctx: Context, queue: seq<Item>, k: nat, choices: map<CommitId, seq<ResolutionId>>)
    requires WellFormedQueue(queue) && k < |queue|
  {
    && FoldTo(ctx, queue, k).Next?
    && var parents := ResolveStepParents(queue[k].step.parents, ctx.onto, FoldTo(ctx, queue, k).line.rewritten);
       && parents.Some?
       && |parents.value| == |queue[k].step.parents|
       && var merged := MergeAt(ctx.git, queue[k], parents.value);
          merged.Conflicted? && !queue[k].Omit? ==>
            && queue[k].step.commit in choices
            && Settles(choices[queue[k].step.commit], merged.candidates)
  }

  datatype Forecast = Forecast(
    status: Status,
    steps: seq<Report>,
    choices: map<CommitId, seq<ResolutionId>>,
    predictedTree: Option<TreeId>)

  /** A forecast that completed tells the whole rehearsal: one report per step
      that runs, the choices its conflicts take, the tree it ends in. */
  ghost predicate Tells(f: Forecast, ctx: Context, queue: seq<Item>)
    requires WellFormedQueue(queue)
  {
    && FoldTo(ctx, queue, |queue|).Next?
    && f.steps == Reports(ctx, queue, |queue|)
    && f.predictedTree == Some(Tree(ctx.git, FoldTo(ctx, queue, |queue|).line.head))
    && forall k :: 0 <= k < |queue| ==> ChoicesAt(ctx, queue, k, f.choices)
  }

  /** What a rehearsal has in hand after `i` steps. */
  ghost predicate Rehearsed(ctx: Context, queue: seq<Item>, i: nat, head: Commit, rewritten: map<CommitId, Commit>, steps: seq<Report>, choices: map<CommitId, seq<ResolutionId>>)
    requires WellFormedQueue(queue) && i <= |queue|
  {
    && FoldTo(ctx, queue, i).Next?
    && rewritten == FoldTo(ctx, queue, i).line.rewritten
    && head == FoldTo(ctx, queue, i).line.head
    && steps == Reports(ctx, queue, i)
    && forall k :: 0 <= k < i ==> ChoicesAt(ctx, queue, k, choices)
  }

  function Noted(choices: map<CommitId, seq<ResolutionId>>, change: CommitId, chosen: Option<seq<ResolutionId>>): map<CommitId, seq<ResolutionId>> {
    if chosen.Some? then choices[change := chosen.value] else choices
  }

  lemma {:induction false} ChoicesSurvive(ctx: Context, nodes: seq<Node>, queue: seq<Item>, k: nat, choices: map<CommitId, seq<ResolutionId>>, chosen: Option<seq<ResolutionId>>)
    requires Rooted(nodes) && ProgramOf(nodes, queue) && WellFormedQueue(queue) && k < |queue|
    requires forall i :: 0 <= i < k ==> ChoicesAt(ctx, queue, i, choices)
    ensures forall i :: 0 <= i < k ==> ChoicesAt(ctx, queue, i, Noted(choices, queue[k].step.commit, chosen))
  {
    hide StepOn, FoldTo, MergeAt;
    CommitsDiffer(nodes, queue, k);
    var noted := Noted(choices, queue[k].step.commit, chosen);
    forall i | 0 <= i < k ensures ChoicesAt(ctx, queue, i, noted) {
      assert ChoicesAt(ctx, queue, i, choices);
    }
  }

  predicate IsEdit(item: Item) {
    item.Pick? && item.action.Edit?
  }

  predicate DeclaresEdit(queue: seq<Item>) {
    exists k :: 0 <= k < |queue| && IsEdit(queue[k])
  }

  /** Run one step, positioned on its own parent, and say what it did. */
  method SimulateStep(g: Git, onto: CommitId, queue: seq<Item>, i: nat, parents: seq<Commit>, ghost nodes: seq<Node>)
    returns (r: Option<Simulated>, head: Commit)
    requires Rooted(nodes) && ProgramOf(nodes, queue) && WellFormedQueue(queue) && i < |queue|
    requires FoldTo(Rehearse(g, onto), queue, i).Next? && !queue[i].Omit? && !IsEdit(queue[i])
    requires ResolveStepParents(queue[i].step.parents, onto, FoldTo(Rehearse(g, onto), queue, i).line.rewritten) == Some(parents)
    requires |parents| == if queue[i].RecreateMerge? then 2 else 1
    ensures var ctx := Rehearse(g, onto);
            && (r.Some? <==> FoldTo(ctx, queue, i + 1).Next?)
            && (r.Some? ==>
                  && FoldTo(ctx, queue, i + 1).line.head == head
                  && FoldTo(ctx, queue, i + 1).line.rewritten == FoldTo(ctx, queue, i).line.rewritten[queue[i].step.commit := head]
                  && ReportAt(ctx, queue, i) == Report(queue[i].step.commit, r.value.outcome, Tree(g, parents[0]), r.value.tree)
                  && forall choices :: ChoicesAt(ctx, queue, i, Noted(choices, queue[i].step.commit, r.value.choices)))
  {
    hide StepOn, FoldTo;
    var item := queue[i];
    var change := item.step.commit;
    ghost var ctx := Rehearse(g, onto);
    ghost var line := FoldTo(ctx, queue, i).line;
    UnfoldStep(ctx, queue, i);
    if item.RecreateMerge? {
      r := SimulateJoin(g, onto, change, parents[0], parents[1], line);
      head := Rewritten(change, if r.Some? then r.value.tree else 0, [parents[0], parents[1]]);
    } else {
      r := SimulatePick(g, onto, item, parents[0], line);
      head := Rewritten(change, if r.Some? then r.value.tree else 0, [parents[0]]);
    }
    if r.Some? {
      ReportFacts(ctx, queue, i);
    }
  }

  /** Simulate a program that states its parents in a scratch worktree. */
  method SimulatePlan(g: Git, onto: CommitId, queue: seq<Item>, ghost nodes: seq<Node>) returns (f: Forecast)
    requires Rooted(nodes) && ProgramOf(nodes, queue) && WellFormedQueue(queue)
    ensures f.status == Complete <==> !DeclaresEdit(queue) && FoldTo(Rehearse(g, onto), queue, |queue|).Next?
    ensures f.status == Complete ==> Tells(f, Rehearse(g, onto), queue)
    ensures f.status != Complete ==> f.predictedTree == None
  {
    hide StepOn, FoldTo, ChoicesAt, Reports, ReportAt, ResolveStepParents, StepOf, Tells;
    ghost var ctx := Rehearse(g, onto);
    var head: Commit := Original(onto);
    var rewritten: map<CommitId, Commit> := map[];
    var steps: seq<Report>, choices: map<CommitId, seq<ResolutionId>> := [], map[];
    RehearsalStarts(ctx, queue);
    for i := 0 to |queue|
      invariant Rehearsed(ctx, queue, i, head, rewritten, steps, choices)
      invariant forall k :: 0 <= k < i ==> !IsEdit(queue[k])
    {
      var item := queue[i];
      ResolvesAt(ctx, nodes, queue, i);
      var parents := ResolveStepParents(item.step.parents, onto, rewritten).value;
      if item.Omit? {
        OmitAdvances(ctx, queue, i, head, rewritten, steps, choices);
        rewritten := rewritten[item.step.commit := parents[0]];
        continue;
      }
      if IsEdit(item) {
        return Forecast(PausesForContent, steps, choices, None);
      }
      if head != parents[0] {
        head := parents[0];
      }
      var before := Tree(g, head);
      var simulated, commit := SimulateStep(g, onto, queue, i, parents, nodes);
      if simulated == None {
        StuckStops(ctx, queue, i);
        return Forecast(BlockedForecast, steps, choices, None);
      }
      StepAdvances(ctx, nodes, queue, i, rewritten, steps, choices, simulated.value, before, commit);
      steps := steps + [Report(item.step.commit, simulated.value.outcome, before, simulated.value.tree)];
      choices := Noted(choices, item.step.commit, simulated.value.choices);
      head := commit;
      rewritten := rewritten[item.step.commit := head];
    }
    f := Forecast(Complete, steps, choices, Some(Tree(g, head)));
    RehearsalTells(ctx, queue, head, rewritten, f);
  }

  lemma {:induction false} RehearsalStarts(ctx: Context, queue: seq<Item>)
    requires WellFormedQueue(queue)
    ensures Rehearsed(ctx, queue, 0, Original(ctx.onto), map[], [], map[])
    ensures FoldTo(ctx, queue, 0).line.rewritten == map[]
  {
  }

  lemma {:induction false} RehearsalTells(ctx: Context, queue: seq<Item>, head: Commit, rewritten: map<CommitId, Commit>, f: Forecast)
    requires WellFormedQueue(queue) && Rehearsed(ctx, queue, |queue|, head, rewritten, f.steps, f.choices)
    requires f.predictedTree == Some(Tree(ctx.git, head))
    ensures Tells(f, ctx, queue)
  {
  }

  lemma {:induction false} OmitAdvances(ctx: Context, queue: seq<Item>, i: nat, head: Commit, rewritten: map<CommitId, Commit>, steps: seq<Report>, choices: map<CommitId, seq<ResolutionId>>)
    requires WellFormedQueue(queue) && i < |queue| && queue[i].Omit?
    requires Rehearsed(ctx, queue, i, head, rewritten, steps, choices)
    requires ResolveStepParents(queue[i].step.parents, ctx.onto, rewritten).Some?
    ensures Rehearsed(ctx, queue, i + 1, head,
              rewritten[queue[i].step.commit := ResolveStepParents(queue[i].step.parents, ctx.onto, rewritten).value[0]], steps, choices)
  {
    hide StepOn, FoldTo;
    UnfoldStep(ctx, queue, i);
    assert ChoicesAt(ctx, queue, i, choices);
  }

  lemma {:induction false} StepAdvances(ctx: Context, nodes: seq<Node>, queue: seq<Item>, i: nat, rewritten: map<CommitId, Commit>, steps: seq<Report>, choices: map<CommitId, seq<ResolutionId>>, made: Simulated, before: TreeId, head: Commit)
    requires Rooted(nodes) && ProgramOf(nodes, queue) && WellFormedQueue(queue) && i < |queue| && !queue[i].Omit?
    requires FoldTo(ctx, queue, i).Next? && Rehearsed(ctx, queue, i, FoldTo(ctx, queue, i).line.head, rewritten, steps, choices)
    requires FoldTo(ctx, queue, i + 1).Next? && FoldTo(ctx, queue, i + 1).line.head == head
    requires FoldTo(ctx, queue, i + 1).line.rewritten == rewritten[queue[i].step.commit := head]
    requires ReportAt(ctx, queue, i) == Report(queue[i].step.commit, made.outcome, before, made.tree)
    requires forall chosen :: ChoicesAt(ctx, queue, i, Noted(chosen, queue[i].step.commit, made.choices))
    ensures Rehearsed(ctx, queue, i + 1, head, rewritten[queue[i].step.commit := head],
              steps + [Report(queue[i].step.commit, made.outcome, before, made.tree)],
              Noted(choices, queue[i].step.commit, made.choices))
  {
    hide StepOn, FoldTo, ChoicesAt, ReportAt;
    ChoicesSurvive(ctx, nodes, queue, i, choices, made.choices);
  }

  lemma {:induction false} ResolvesAt(ctx: Context, nodes: seq<Node>, queue: seq<Item>, k: nat)
    requires Rooted(nodes) && ProgramOf(nodes, queue) && WellFormedQueue(queue) && k < |queue|
    requires FoldTo(ctx, queue, k).Next?
    ensures var parents := ResolveStepParents(queue[k].step.parents, ctx.onto, FoldTo(ctx, queue, k).line.rewritten);
            && parents.Some?
            && |parents.value| == |queue[k].step.parents| == if queue[k].RecreateMerge? then 2 else 1
  {
    hide StepOn, FoldTo;
    assert WellFormed(queue[k]);
    ProgramImage(ctx, nodes, queue, k);
    forall i | 0 <= i < |queue[k].step.parents|
      ensures Known(queue[k].step.parents[i], FoldTo(ctx, queue, k).line.rewritten)
    {
      if queue[k].step.parents[i].InRange? { ParentsAreEarlier(nodes, queue, k, queue[k].step.parents[i]); }
    }
  }

  /** What the next step of a fold is, by kind. */
  lemma {:induction false} UnfoldStep(ctx: Context, queue: seq<Item>, k: nat)
    requires WellFormedQueue(queue) && k < |queue| && FoldTo(ctx, queue, k).Next?
    requires ResolveStepParents(queue[k].step.parents, ctx.onto, FoldTo(ctx, queue, k).line.rewritten).Some?
    ensures var line := FoldTo(ctx, queue, k).line;
            var parents := ResolveStepParents(queue[k].step.parents, ctx.onto, line.rewritten).value;
            && |parents| == (if queue[k].RecreateMerge? then 2 else 1)
            && FoldTo(ctx, queue, k + 1) ==
                 match queue[k]
                 case Omit(step) => Next(line.(rewritten := line.rewritten[step.commit := parents[0]]))
                 case RecreateMerge(step) => JoinStep(ctx, step.commit, parents[0], parents[1], line)
                 case Pick(_, _, _) => PickStep(ctx, queue[k], parents[0], line)
  {
    assert WellFormed(queue[k]);
  }

  lemma {:induction false} StuckStops(ctx: Context, queue: seq<Item>, k: nat)
    requires WellFormedQueue(queue) && k < |queue| && FoldTo(ctx, queue, k + 1).Stuck?
    ensures FoldTo(ctx, queue, |queue|).Stuck?
  {
    hide StepOn, FoldTo;
    if FoldTo(ctx, queue, |queue|).Next? { FoldToEarlier(ctx, queue, |queue|, k + 1); }
  }

  // ---------- A plain queue on a linear range ----------

  /** A linear program that only replays or omits. */
  ghost predicate Plain(nodes: seq<Node>, program: seq<Item>) {
    && Rooted(nodes)
    && ProgramOf(nodes, program)
    && WellFormedQueue(program)
    && (forall n <- nodes :: |n.parents| <= 1)
    && forall i :: 0 <= i < |program| ==> program[i].Omit? || (program[i].Pick? && program[i].action.Replay? && program[i].absorbs == [])
  }

  /** The commits a program replays, in order: the queue a linear plan hands its
      forecast instead of the program. */
  function Replayed(program: seq<Item>, k: nat): (r: seq<CommitId>)
    requires k <= |program|
    ensures |r| == Executed(program, k)
  {
    if k == 0 then []
    else Replayed(program, k - 1) + if program[k - 1].Omit? then [] else [program[k - 1].step.commit]
  }

  lemma {:induction false} ReplayedIndex(program: seq<Item>, n: nat, k: nat)
    requires k < n <= |program| && !program[k].Omit?
    ensures Executed(program, k) < |Replayed(program, n)| && Replayed(program, n)[Executed(program, k)] == program[k].step.commit
    decreases n
  {
    if k < n - 1 { ReplayedIndex(program, n - 1, k); }
  }

  /** On a linear range HEAD is already the parent of the next step. */
  lemma {:induction false} LinearHead(ctx: Context, nodes: seq<Node>, program: seq<Item>, k: nat)
    requires Plain(nodes, program) && k < |program| && FoldTo(ctx, program, k).Next?
    ensures ResolveStepParents(program[k].step.parents, ctx.onto, FoldTo(ctx, program, k).line.rewritten)
         == Some([FoldTo(ctx, program, k).line.head])
    decreases k, 1
  {
    hide StepOn;
    ResolvesAt(ctx, nodes, program, k);
    NoMerges(nodes, program, k);
    if k == 0 {
      FirstHasNoParentInRange(nodes, program);
      var ps := program[0].step.parents;
      assert ps[0] in ps;
      assert ResolveStepParents(ps, ctx.onto, FoldTo(ctx, program, 0).line.rewritten).value == [Original(ctx.onto)];
    } else {
      HeadIsLastImage(ctx, nodes, program, k);
      TailIsChain(nodes, 0);
      assert FollowsPrevious(nodes, k);
      assert nodes[k - 1] in nodes;
      assert nodes[k].parents[0] == nodes[k - 1].commit;
      var ps := program[k].step.parents;
      assert ps[0] == InRange(nodes[k - 1].commit);
      var line := FoldTo(ctx, program, k).line;
      assert ResolveStepParents(ps, ctx.onto, line.rewritten).value == [line.head];
    }
  }

  lemma {:induction false} NoMerges(nodes: seq<Node>, program: seq<Item>, k: nat)
    requires Plain(nodes, program) && k < |program|
    ensures |program[k].step.parents| == 1 && !program[k].RecreateMerge?
  {
    assert nodes[k] in nodes;
  }

  lemma {:induction false} HeadIsLastImage(ctx: Context, nodes: seq<Node>, program: seq<Item>, k: nat)
    requires Plain(nodes, program) && 0 < k <= |program| && FoldTo(ctx, program, k).Next?
    ensures var line := FoldTo(ctx, program, k).line;
            program[k - 1].step.commit in line.rewritten && line.head == line.rewritten[program[k - 1].step.commit]
    decreases k, 0
  {
    hide StepOn;
    ResolvesAt(ctx, nodes, program, k - 1);
    UnfoldStep(ctx, program, k - 1);
    if program[k - 1].Omit? {
      LinearHead(ctx, nodes, program, k - 1);
    } else {
      HeadAfterStep(ctx, nodes, program, k);
    }
  }

  /** What running a clean pick onto HEAD makes of the fold of the program. */
  lemma {:induction false} PlainStep(ctx: Context, nodes: seq<Node>, program: seq<Item>, k: nat)
    requires Plain(nodes, program) && k < |program| && FoldTo(ctx, program, k).Next? && !program[k].Omit?
    ensures var head := FoldTo(ctx, program, k).line.head;
            var merged := PickChange(ctx.git, program[k].step.commit, Tree(ctx.git, head));
            merged.Clean? ==>
              && FoldTo(ctx, program, k + 1).Next?
              && FoldTo(ctx, program, k + 1).line.head == Rewritten(program[k].step.commit, merged.tree, [head])
              && ReportAt(ctx, program, k) == Report(program[k].step.commit, CleanStep, Tree(ctx.git, head), merged.tree)
              && ChoicesAt(ctx, program, k, map[])
  {
    hide StepOn, FoldTo;
    LinearHead(ctx, nodes, program, k);
    UnfoldStep(ctx, program, k);
    var head := FoldTo(ctx, program, k).line.head;
    if PickChange(ctx.git, program[k].step.commit, Tree(ctx.git, head)).Clean? {
      ReportFacts(ctx, program, k);
    }
  }

  /** Simulate the bare replay queue of a linear plan. No item states a parent,
      so HEAD never moves between steps; it tells the fold of the full program
      with its omitted commits all the same. */
  method SimulateQueue(g: Git, onto: CommitId, queue: seq<CommitId>, ghost nodes: seq<Node>, ghost program: seq<Item>) returns (f: Forecast)
    requires Plain(nodes, program) && queue == Replayed(program, |program|)
    ensures f.status == Complete <==> FoldTo(Rehearse(g, onto), program, |program|).Next?
    ensures f.status == Complete ==> Tells(f, Rehearse(g, onto), program)
    ensures f.status != Complete ==> f.predictedTree == None
  {
    hide StepOn, FoldTo, ChoicesAt, Reports, ReportAt, ResolveStepParents, StepOf, Tells;
    ghost var ctx := Rehearse(g, onto);
    var head: Commit := Original(onto);
    var steps: seq<Report>, choices: map<CommitId, seq<ResolutionId>> := [], map[];
    ghost var k := 0;
    RehearsalStarts(ctx, program);
    for i := 0 to |queue|
      invariant k <= |program| && Executed(program, k) == i
      invariant FoldTo(ctx, program, k).Next?
      invariant Rehearsed(ctx, program, k, head, FoldTo(ctx, program, k).line.rewritten, steps, choices)
    {
      k := NextReplayed(ctx, nodes, program, k, head, steps, choices);
      LinearHead(ctx, nodes, program, k);
      NoMerges(nodes, program, k);
      ReplayedIndex(program, |program|, k);
      var change := queue[i];
      var before := Tree(g, head);
      var simulated, commit := SimulatePlain(g, onto, change, head, nodes, program, k);
      if simulated == None {
        StuckStops(ctx, program, k);
        return Forecast(BlockedForecast, steps, choices, None);
      }
      StepAdvances(ctx, nodes, program, k, FoldTo(ctx, program, k).line.rewritten, steps, choices, simulated.value, before, commit);
      steps := steps + [Report(change, simulated.value.outcome, before, simulated.value.tree)];
      choices := Noted(choices, change, simulated.value.choices);
      head := commit;
      k := k + 1;
    }
    RestIsOmitted(ctx, nodes, program, k, head, steps, choices);
    f := Forecast(Complete, steps, choices, Some(Tree(g, head)));
    RehearsalTells(ctx, program, head, FoldTo(ctx, program, |program|).line.rewritten, f);
  }

  method SimulatePlain(g: Git, onto: CommitId, change: CommitId, head: Commit, ghost nodes: seq<Node>, ghost program: seq<Item>, ghost k: nat)
    returns (r: Option<Simulated>, commit: Commit)
    requires Plain(nodes, program) && k < |program| && !program[k].Omit? && program[k].step.commit == change
    requires FoldTo(Rehearse(g, onto), program, k).Next? && FoldTo(Rehearse(g, onto), program, k).line.head == head
    ensures var ctx := Rehearse(g, onto);
            && (r.Some? <==> FoldTo(ctx, program, k + 1).Next?)
            && (r.Some? ==>
                  && FoldTo(ctx, program, k + 1).line.head == commit
                  && FoldTo(ctx, program, k + 1).line.rewritten == FoldTo(ctx, program, k).line.rewritten[change := commit]
                  && ReportAt(ctx, program, k) == Report(change, r.value.outcome, Tree(g, head), r.value.tree)
                  && forall choices :: ChoicesAt(ctx, program, k, Noted(choices, change, r.value.choices)))
  {
    hide StepOn, FoldTo;
    ghost var ctx := Rehearse(g, onto);
    ghost var line := FoldTo(ctx, program, k).line;
    LinearHead(ctx, nodes, program, k);
    NoMerges(nodes, program, k);
    UnfoldStep(ctx, program, k);
    r := SimulatePick(g, onto, Pick(Step(false, change, []), Replay, []), head, line);
    SameStep(ctx, Pick(Step(false, change, []), Replay, []), program[k], head, line);
    commit := Rewritten(change, if r.Some? then r.value.tree else 0, [head]);
    if r.Some? {
      ReportFacts(ctx, program, k);
    }
  }

  /** Picking reads nothing of a step but its commit. */
  lemma {:induction false} SameStep(ctx: Context, a: Item, b: Item, head: Commit, line: Line)
    requires a.Pick? && b.Pick? && a.step.commit == b.step.commit && a.action == b.action && a.absorbs == b.absorbs
    ensures PickStep(ctx, a, head, line) == PickStep(ctx, b, head, line)
  {
  }

  /** Omitted steps need nothing: skip to the next one that runs. */
  lemma {:induction false} SkipRehearsed(ctx: Context, nodes: seq<Node>, program: seq<Item>, k: nat, head: Commit, steps: seq<Report>, choices: map<CommitId, seq<ResolutionId>>) returns (m: nat)
    requires Plain(nodes, program) && k <= |program| && FoldTo(ctx, program, k).Next?
    requires Rehearsed(ctx, program, k, head, FoldTo(ctx, program, k).line.rewritten, steps, choices)
    ensures k <= m <= |program| && (m < |program| ==> !program[m].Omit?)
    ensures FoldTo(ctx, program, m).Next? && Executed(program, m) == Executed(program, k)
    ensures Rehearsed(ctx, program, m, head, FoldTo(ctx, program, m).line.rewritten, steps, choices)
    decreases |program| - k
  {
    hide StepOn, FoldTo;
    if k == |program| || !program[k].Omit? { return k; }
    ResolvesAt(ctx, nodes, program, k);
    UnfoldStep(ctx, program, k);
    OmitAdvances(ctx, program, k, head, FoldTo(ctx, program, k).line.rewritten, steps, choices);
    m := SkipRehearsed(ctx, nodes, program, k + 1, head, steps, choices);
  }

  lemma {:induction false} NextReplayed(ctx: Context, nodes: seq<Node>, program: seq<Item>, k: nat, head: Commit, steps: seq<Report>, choices: map<CommitId, seq<ResolutionId>>) returns (m: nat)
    requires Plain(nodes, program) && k <= |program| && FoldTo(ctx, program, k).Next?
    requires Rehearsed(ctx, program, k, head, FoldTo(ctx, program, k).line.rewritten, steps, choices)
    requires Executed(program, k) < |Replayed(program, |program|)|
    ensures k <= m < |program| && !program[m].Omit?
    ensures FoldTo(ctx, program, m).Next? && Executed(program, m) == Executed(program, k)
    ensures Rehearsed(ctx, program, m, head, FoldTo(ctx, program, m).line.rewritten, steps, choices)
  {
    hide StepOn, FoldTo;
    m := SkipRehearsed(ctx, nodes, program, k, head, steps, choices);
  }

  lemma {:induction false} RestIsOmitted(ctx: Context, nodes: seq<Node>, program: seq<Item>, k: nat, head: Commit, steps: seq<Report>, choices: map<CommitId, seq<ResolutionId>>)
    requires Plain(nodes, program) && k <= |program| && FoldTo(ctx, program, k).Next?
    requires Rehearsed(ctx, program, k, head, FoldTo(ctx, program, k).line.rewritten, steps, choices)
    requires Executed(program, k) == |Replayed(program, |program|)|
    ensures FoldTo(ctx, program, |program|).Next?
    ensures Rehearsed(ctx, program, |program|, head, FoldTo(ctx, program, |program|).line.rewritten, steps, choices)
  {
    hide StepOn, FoldTo;
    var m := SkipRehearsed(ctx, nodes, program, k, head, steps, choices);
    if m < |program| { ReplayedIndex(program, |program|, m); }
  }

  // ---------- The merge-tree engine ----------

  datatype Change = Change(commit: CommitId, secondParent: bool, isRoot: bool, touchesAttributes: bool)

  datatype Fallback =
    | MergeCommit(step: nat)
    | RootCommit(step: nat)
    | AttributesChanged(step: nat)
    | Unavailable(step: nat)
    | ConflictedStep(step: nat)
    | EmptyStep(step: nat)

  datatype Attempt = Result(steps: seq<Report>, tree: TreeId) | FellBack(why: Fallback)

  /** A clean pick leaves the attributes alone unless its change touches one of
      their files. */
  ghost predicate AttributesFollow(g: Git, queue: seq<Change>) {
    forall i, t, r :: 0 <= i < |queue| && !queue[i].touchesAttributes && MergeChange(g, queue[i].commit, t) == Clean(r)
      ==> g.attributes(r) == g.attributes(t)
  }

  /** An ordinary commit; only the last may change the attributes, since nothing
      is merged after it. */
  ghost predicate Mergeable(queue: seq<Change>, i: nat)
    requires i < |queue|
  {
    !queue[i].secondParent && !queue[i].isRoot && (queue[i].touchesAttributes ==> i == |queue| - 1)
  }

  /** What keeps the engine from answering before it merges anything. */
  method CheckInputs(queue: seq<Change>) returns (r: Option<Fallback>)
    ensures r == None <==> forall i :: 0 <= i < |queue| ==> Mergeable(queue, i)
    ensures r.Some? ==>
              && !r.value.Unavailable? && !r.value.ConflictedStep? && !r.value.EmptyStep?
              && r.value.step < |queue| && !Mergeable(queue, r.value.step)
              && forall i :: 0 <= i < r.value.step ==> Mergeable(queue, i)
    ensures r.Some? && r.value.MergeCommit? ==> queue[r.value.step].secondParent
    ensures r.Some? && r.value.RootCommit? ==> queue[r.value.step].isRoot
    ensures r.Some? && r.value.AttributesChanged? ==> queue[r.value.step].touchesAttributes && r.value.step < |queue| - 1
  {
    for i := 0 to |queue|
      invariant forall j :: 0 <= j < i ==> Mergeable(queue, j)
    {
      assert Mergeable(queue, i) <==>
          !queue[i].secondParent && !queue[i].isRoot && (queue[i].touchesAttributes ==> i == |queue| - 1);
      if queue[i].secondParent { return Some(MergeCommit(i)); }
      if queue[i].isRoot { return Some(RootCommit(i)); }
      if i < |queue| - 1 && queue[i].touchesAttributes { return Some(AttributesChanged(i)); }
    }
    return None;
  }

  lemma {:induction false} PlainIsWellFormed(nodes: seq<Node>, program: seq<Item>)
    requires Plain(nodes, program)
    ensures WellFormedQueue(program)
  {}

  /** Simulate a queue by merging trees, with the attributes fixed from the
      original target. `answers` is whether the merge session replies. When it
      gives a result, that is what the worktree simulator would have said. */
  method SimulateWithMergeTree(g: Git, onto: CommitId, queue: seq<Change>, answers: nat -> bool, ghost nodes: seq<Node>, ghost program: seq<Item>)
    returns (attempt: Attempt)
    requires Plain(nodes, program) && AttributesFollow(g, queue)
    requires |queue| == |Replayed(program, |program|)|
    requires forall i :: 0 <= i < |queue| ==> queue[i].commit == Replayed(program, |program|)[i]
    ensures attempt.Result? ==>
              Tells(Forecast(Complete, attempt.steps, map[], Some(attempt.tree)), Rehearse(g, onto), program)
  {
    hide StepOn, FoldTo, ChoicesAt, Reports, ReportAt, ResolveStepParents, StepOf, Tells, Rehearsed, Plain, Replayed, WellFormedQueue;
    PlainIsWellFormed(nodes, program);
    var refused := CheckInputs(queue);
    if refused.Some? { return FellBack(refused.value); }
    forall i | 0 <= i < |queue| - 1 ensures !queue[i].touchesAttributes { assert Mergeable(queue, i); }
    ghost var ctx := Rehearse(g, onto);
    var accumulated := g.treeOf(onto);
    var source := g.attributes(accumulated);
    var steps: seq<Report> := [];
    ghost var k := 0;
    ghost var head: Commit := Original(onto);
    RehearsalStarts(ctx, program);
    for i := 0 to |queue|
      invariant k <= |program| && Executed(program, k) == i
      invariant FoldTo(ctx, program, k).Next?
      invariant Rehearsed(ctx, program, k, head, FoldTo(ctx, program, k).line.rewritten, steps, map[])
      invariant accumulated == Tree(g, head)
      invariant i < |queue| ==> g.attributes(accumulated) == source
    {
      k := NextReplayed(ctx, nodes, program, k, head, steps, map[]);
      ReplayedIndex(program, |program|, k);
      var change := queue[i].commit;
      if !answers(i) { return FellBack(Unavailable(i)); }
      var merged := g.merge3(source, g.baseTree(change), accumulated, g.treeOf(change));
      assert merged == MergeChange(g, change, accumulated);
      if merged.Conflicted? { return FellBack(ConflictedStep(i)); }
      if merged.tree == accumulated { return FellBack(EmptyStep(i)); }
      MergeTreeAdvances(ctx, nodes, program, k, head, steps);
      steps := steps + [Report(change, CleanStep, accumulated, merged.tree)];
      accumulated := merged.tree;
      head := FoldTo(ctx, program, k + 1).line.head;
      k := k + 1;
    }
    RestIsOmitted(ctx, nodes, program, k, head, steps, map[]);
    RehearsalTells(ctx, program, head, FoldTo(ctx, program, |program|).line.rewritten, Forecast(Complete, steps, map[], Some(accumulated)));
    attempt := Result(steps, accumulated);
  }

  lemma {:induction false} MergeTreeAdvances(ctx: Context, nodes: seq<Node>, program: seq<Item>, k: nat, head: Commit, steps: seq<Report>)
    requires Plain(nodes, program) && k < |program| && !program[k].Omit? && FoldTo(ctx, program, k).Next?
    requires Rehearsed(ctx, program, k, head, FoldTo(ctx, program, k).line.rewritten, steps, map[])
    requires PickChange(ctx.git, program[k].step.commit, Tree(ctx.git, head)).Clean?
    ensures var merged := PickChange(ctx.git, program[k].step.commit, Tree(ctx.git, head));
            && FoldTo(ctx, program, k + 1).Next?
            && var after := FoldTo(ctx, program, k + 1).line;
               && Tree(ctx.git, after.head) == merged.tree
               && Rehearsed(ctx, program, k + 1, after.head, after.rewritten,
                    steps + [Report(program[k].step.commit, CleanStep, Tree(ctx.git, head), merged.tree)], map[])
  {
    hide StepOn, FoldTo, ChoicesAt, ReportAt;
    PlainStep(ctx, nodes, program, k);
  }

  // ---------- An approved forecast binds the run ----------

  lemma {:induction false} AbsorbAllAgrees(rehearsed: Context, ctx: Context, changes: seq<CommitId>, staged: TreeId)
    requires ctx.git == rehearsed.git && rehearsed.answers == Nobody()
    requires AbsorbAll(rehearsed, changes, staged).Some?
    ensures AbsorbAll(ctx, changes, staged) == AbsorbAll(rehearsed, changes, staged)
    decreases |changes|
  {
    if changes != [] {
      AbsorbAllAgrees(rehearsed, ctx, changes[1..], AbsorbOne(rehearsed, changes[0], staged).value);
    }
  }

  lemma {:induction false} StepAgrees(g: Git, onto: CommitId, queue: seq<Item>, k: nat, choices: map<CommitId, seq<ResolutionId>>, answers: Answers)
    requires WellFormedQueue(queue) && k < |queue| && !IsEdit(queue[k])
    requires FoldTo(Rehearse(g, onto), queue, k + 1).Next?
    requires ChoicesAt(Rehearse(g, onto), queue, k, choices)
    requires FoldTo(Context(g, onto, ByForecast(choices), answers), queue, k) == FoldTo(Rehearse(g, onto), queue, k)
    ensures FoldTo(Context(g, onto, ByForecast(choices), answers), queue, k + 1) == FoldTo(Rehearse(g, onto), queue, k + 1)
  {
    hide StepOn, FoldTo;
    var rehearsed, ctx := Rehearse(g, onto), Context(g, onto, ByForecast(choices), answers);
    UnfoldStep(rehearsed, queue, k);
    UnfoldStep(ctx, queue, k);
    var line := FoldTo(ctx, queue, k).line;
    var parents := ResolveStepParents(queue[k].step.parents, onto, line.rewritten).value;
    if !queue[k].Omit? {
      var merged := MergeAt(g, queue[k], parents);
      if merged.Conflicted? {
        SettlesIff(choices[queue[k].step.commit], merged.candidates);
      } else if queue[k].Pick? {
        assert SurvivingStep(rehearsed, queue[k], parents[0], merged.tree, line).Next?;
        AbsorbAllAgrees(rehearsed, ctx, queue[k].absorbs, merged.tree);
      }
    }
  }

  /** The run an approval governs folds to what was rehearsed, whoever answers
      its pauses. */
  lemma {:induction false} ApprovedFoldAgrees(g: Git, onto: CommitId, queue: seq<Item>, f: Forecast, answers: Answers, k: nat)
    requires WellFormedQueue(queue) && k <= |queue| && Tells(f, Rehearse(g, onto), queue) && !DeclaresEdit(queue)
    ensures FoldTo(Context(g, onto, ByForecast(f.choices), answers), queue, k) == FoldTo(Rehearse(g, onto), queue, k)
    ensures FoldTo(Rehearse(g, onto), queue, k).Next?
    ensures Reports(Context(g, onto, ByForecast(f.choices), answers), queue, k) == Reports(Rehearse(g, onto), queue, k)
  {
    hide StepOn;
    FoldToEarlier(Rehearse(g, onto), queue, |queue|, k);
    if k > 0 {
      ApprovedFoldAgrees(g, onto, queue, f, answers, k - 1);
      assert ChoicesAt(Rehearse(g, onto), queue, k - 1, f.choices);
      assert !IsEdit(queue[k - 1]);
      StepAgrees(g, onto, queue, k - 1, f.choices, answers);
    }
  }

  /** An operation started under a complete forecast of its own program never
      finds a step that differs from it, and ends in the predicted tree. */
  lemma {:induction false} ApprovedRunMatchesForecast(op: RebaseOperation, f: Forecast)
    requires op.Coherent() && op.approval.Some? && !op.tampered
    requires f.status == Complete && !DeclaresEdit(op.queue) && Tells(f, Rehearse(op.git, op.onto), op.queue)
    requires op.approval.value == Approval(f.steps, f.choices, f.predictedTree.value)
    ensures op.Faithful()
    ensures op.state == Running || op.state == AwaitingMessage
    ensures op.state == Running && op.nextIndex == |op.queue| ==> Tree(op.git, op.head) == f.predictedTree.value
  {
    hide StepOn, FoldTo, Reports;
    ApprovedFoldAgrees(op.git, op.onto, op.queue, f, op.answers, |op.queue|);
    op.OnlyStuckWhenFoldIs();
    if op.state == AwaitingContent { PausedForEdit(op); }
    if op.state == AwaitingAbsorption {
      AbsorptionNeedsNobody(op, f);
    }
  }

  lemma {:induction false} PausedForEdit(op: RebaseOperation)
    requires op.Coherent() && op.state == AwaitingContent
    ensures DeclaresEdit(op.queue)
  {
    hide FoldTo, StepOn;
    assert IsEdit(op.queue[op.nextIndex]);
  }

  /** A rehearsed absorption met no conflict a recorded resolution does not
      settle, so the run meets none either. */
  lemma {:induction false} AbsorptionNeedsNobody(op: RebaseOperation, f: Forecast)
    requires op.Coherent() && op.approval.Some?
    requires f.status == Complete && !DeclaresEdit(op.queue) && Tells(f, Rehearse(op.git, op.onto), op.queue)
    requires op.approval.value == Approval(f.steps, f.choices, f.predictedTree.value)
    ensures op.state != AwaitingAbsorption
  {
    hide FoldTo, StepOn, Reports, Tells, AbsorbAll;
    if op.state == AwaitingAbsorption {
      var rehearsed, k := Rehearse(op.git, op.onto), op.nextIndex;
      ApprovedFoldAgrees(op.git, op.onto, op.queue, f, op.answers, k);
      ApprovedFoldAgrees(op.git, op.onto, op.queue, f, op.answers, k + 1);
      var cursor := op.current.value.absorption.value;
      var picked := PickChange(op.git, op.Change(), op.current.value.before).tree;
      AbsorbedInRehearsal(rehearsed, op.queue, k);
      ExactWhereRehearsed(rehearsed, op.Ctx(), cursor.items, cursor.next, picked, op.staged);
    }
  }

  lemma {:induction false} AbsorbedInRehearsal(ctx: Context, queue: seq<Item>, k: nat)
    requires WellFormedQueue(queue) && k < |queue| && queue[k].Pick? && FoldTo(ctx, queue, k + 1).Next?
    ensures FoldTo(ctx, queue, k).Next?
    ensures var parents := ResolveStepParents(queue[k].step.parents, ctx.onto, FoldTo(ctx, queue, k).line.rewritten);
            && parents.Some?
            && |parents.value| == 1
            && var picked := PickChange(ctx.git, queue[k].step.commit, Tree(ctx.git, parents.value[0]));
               picked.Clean? ==> AbsorbAll(ctx, queue[k].absorbs, picked.tree).Some?
  {
    hide StepOn, FoldTo;
    FoldToEarlier(ctx, queue, k + 1, k);
    StepResolved(ctx, queue, k);
    UnfoldStep(ctx, queue, k);
  }

  lemma {:induction false} StepResolved(ctx: Context, queue: seq<Item>, k: nat)
    requires WellFormedQueue(queue) && k < |queue| && FoldTo(ctx, queue, k + 1).Next? && FoldTo(ctx, queue, k).Next?
    ensures ResolveStepParents(queue[k].step.parents, ctx.onto, FoldTo(ctx, queue, k).line.rewritten).Some?
  {
    assert WellFormed(queue[k]);
  }

  lemma {:induction false} ExactWhereRehearsed(rehearsed: Context, ctx: Context, items: seq<CommitId>, next: nat, picked: TreeId, staged: TreeId)
    requires ctx.git == rehearsed.git && rehearsed.answers == Nobody()
    requires next < |items| && AbsorbAll(rehearsed, items, picked).Some?
    requires AbsorbAll(ctx, items[..next], picked) == Some(staged)
    ensures AbsorbOne(rehearsed, items[next], staged).Some?
  {
    assert items == items[..next] + items[next..];
    AbsorbAllConcat(rehearsed, items[..next], items[next..], picked);
    AbsorbAllAgrees(rehearsed, ctx, items[..next], picked);
  }
}
