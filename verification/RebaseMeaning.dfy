/** What the steps of a rewrite do, said of the merges, the candidates and the
    answers themselves: the fold's own vocabulary is not used here, so what it
    stands for cannot drift. */
module RebaseMeaning {
  import opened Git
  import opened RebaseTopology
  import opened RebaseFold

  /** A pick that ran put one commit on its parent, and recorded it. */
  lemma {:induction false} PickRecords(ctx: Context, item: Item, line: Line, parent: Commit)
    requires item.Pick? && PickStep(ctx, item, parent, line).Next?
    ensures var after, c, before := PickStep(ctx, item, parent, line).line, item.step.commit, TreeOf(ctx.git, parent);
            && after.applied[..|after.applied| - 1] == line.applied
            && var a := after.applied[|after.applied| - 1];
               && a.origin == c && a.beforeTree == before && a.commit == Rewritten(c, a.resultTree, [parent])
               && after.head == a.commit && after.rewritten == line.rewritten[c := a.commit] && after.joins == line.joins
               && (a.relation == CausalRebase <==> Picked(ctx.git, c, before).Clean?)
  {
    hide AbsorbAll, SettledPick, SettleChange;
  }

  function TreeOf(g: Git, c: Commit): TreeId {
    match c
    case Original(id) => g.treeOf(id)
    case Rewritten(_, tree, _) => tree
  }

  /** The three-way merge of a change against its own parent, onto a tree whose
      attributes steer it. */
  function Picked(g: Git, change: CommitId, onto: TreeId): Merged {
    g.merge3(g.attributes(onto), g.baseTree(change), onto, g.treeOf(change))
  }

  /** A clean pick runs exactly when it changes its parent's tree, what it absorbs
      folds in and leaves a change, and an edit it asks for is answered. */
  lemma {:induction false} CleanPickRunsIff(ctx: Context, item: Item, line: Line, parent: Commit)
    requires item.Pick? && Picked(ctx.git, item.step.commit, TreeOf(ctx.git, parent)).Clean?
    ensures var c, before := item.step.commit, TreeOf(ctx.git, parent);
            var merged := Picked(ctx.git, c, before).tree;
            var folded := AbsorbAll(ctx, item.absorbs, merged);
            PickStep(ctx, item, parent, line).Next? <==>
              && merged != before && folded.Some? && (item.absorbs != [] ==> folded.value != before)
              && (item.action.Edit? ==> ctx.answers.edit(c).Some?)
  {
    hide AbsorbAll;
  }

  /** It has the tree of the merge with every absorbed change folded in, one after
      another, unless a person edited it; an edit that moved that tree is recorded
      as an amendment of it, and nothing else is. */
  lemma {:induction false} CleanPick(ctx: Context, item: Item, line: Line, parent: Commit)
    requires item.Pick? && PickStep(ctx, item, parent, line).Next?
    requires Picked(ctx.git, item.step.commit, TreeOf(ctx.git, parent)).Clean?
    ensures var after, c, before := PickStep(ctx, item, parent, line).line, item.step.commit, TreeOf(ctx.git, parent);
            var folded, a := AbsorbAll(ctx, item.absorbs, Picked(ctx.git, c, before).tree), after.applied[|after.applied| - 1];
            && folded.Some?
            && after.absorptions == line.absorptions + (if item.absorbs == [] then [] else [Absorption(c, item.absorbs)])
            && (item.absorbs == [] ==> folded == Some(Picked(ctx.git, c, before).tree))
            && if item.action.Edit?
               then
                 && ctx.answers.edit(c) == Some(a.resultTree)
                 && after.amendments == line.amendments + (if a.resultTree == folded.value then [] else [Amendment(c, folded.value, a.resultTree)])
               else a.resultTree == folded.value && after.amendments == line.amendments
  {
    hide SettledPick, SettleChange, AbsorbOne;
  }

  /** A conflicting pick runs exactly when its conflict has paths and is settled to
      another tree: by the person's answer, by approved choices of which each is a
      candidate of its own path, or, rehearsed, by the only candidate of each. */
  lemma {:induction false} ConflictingPickRunsIff(ctx: Context, item: Item, line: Line, parent: Commit)
    requires item.Pick? && Picked(ctx.git, item.step.commit, TreeOf(ctx.git, parent)).Conflicted?
    ensures var g, c, before := ctx.git, item.step.commit, TreeOf(ctx.git, parent);
            var candidates := Picked(g, c, before).candidates;
            PickStep(ctx, item, parent, line).Next? <==>
              candidates != [] &&
              match ctx.policy
              case ByPerson => ctx.answers.pick(c).Some? && ctx.answers.pick(c).value.tree != before
              case ByForecast(approved) =>
                && c in approved && |approved[c]| == |candidates|
                && (forall i :: 0 <= i < |candidates| ==> approved[c][i] in candidates[i])
                && g.settle(g.baseTree(c), before, g.treeOf(c), approved[c]) != before
              case Rehearsal =>
                && (forall i :: 0 <= i < |candidates| ==> |candidates[i]| == 1)
                && g.settle(g.baseTree(c), before, g.treeOf(c), Only(candidates)) != before
  {
    if Exact(Picked(ctx.git, item.step.commit, TreeOf(ctx.git, parent)).candidates) {
      OnlyChoices(Picked(ctx.git, item.step.commit, TreeOf(ctx.git, parent)).candidates);
    }
  }

  /** The only candidate of each path, as long as there is one. */
  function Only(candidates: seq<seq<ResolutionId>>): (r: seq<ResolutionId>)
    ensures (forall i :: 0 <= i < |candidates| ==> |candidates[i]| == 1) ==>
              |r| == |candidates| && forall i :: 0 <= i < |candidates| ==> candidates[i] == [r[i]]
  {
    if candidates == [] || candidates[|candidates| - 1] == [] then []
    else Only(candidates[..|candidates| - 1]) + [candidates[|candidates| - 1][0]]
  }

  lemma {:induction false} OnlyChoices(candidates: seq<seq<ResolutionId>>)
    requires Exact(candidates)
    ensures Choices(candidates) == Only(candidates)
  {
    var only := Only(candidates);
    assert forall i :: 0 <= i < |candidates| ==> candidates[i] == [only[i]] && Choices(candidates)[i] == candidates[i][0];
  }

  /** What a settled conflict is recorded as: without absorption or amendment, with
      the tree it was settled to, and a fork only by a person's answer. */
  lemma {:induction false} ConflictingPick(ctx: Context, item: Item, line: Line, parent: Commit)
    requires item.Pick? && PickStep(ctx, item, parent, line).Next?
    requires Picked(ctx.git, item.step.commit, TreeOf(ctx.git, parent)).Conflicted?
    ensures var g, after, c, before := ctx.git, PickStep(ctx, item, parent, line).line, item.step.commit, TreeOf(ctx.git, parent);
            var candidates, a := Picked(g, c, before).candidates, after.applied[|after.applied| - 1];
            && after.absorptions == line.absorptions && after.amendments == line.amendments && a.resultTree != before
            && match ctx.policy
               case ByPerson =>
                 && ctx.answers.pick(c).Some? && a.resultTree == ctx.answers.pick(c).value.tree
                 && (a.relation == ContextualFork <==> ctx.answers.pick(c).value.fork)
               case ByForecast(approved) =>
                 c in approved && a.resultTree == g.settle(g.baseTree(c), before, g.treeOf(c), approved[c]) && a.relation == ContextualRebase
               case Rehearsal =>
                 a.resultTree == g.settle(g.baseTree(c), before, g.treeOf(c), Only(candidates)) && a.relation == ContextualRebase
  {
    ConflictingPickRunsIff(ctx, item, line, parent);
    if Exact(Picked(ctx.git, item.step.commit, TreeOf(ctx.git, parent)).candidates) {
      OnlyChoices(Picked(ctx.git, item.step.commit, TreeOf(ctx.git, parent)).candidates);
    }
  }

  /** A join runs exactly when there is something to join and its merge is clean or
      settled, and then joins its two parents, in order, to that tree. */
  lemma {:induction false} JoinRunsIff(ctx: Context, change: CommitId, ours: Commit, theirs: Commit, line: Line)
    ensures var g, m := ctx.git, ctx.git.mergeCommits(ours, theirs);
            JoinStep(ctx, change, ours, theirs, line).Next? <==>
              && g.joins(ours, theirs)
              && (m.Conflicted? ==>
                    m.candidates != [] &&
                    match ctx.policy
                    case ByPerson => ctx.answers.join(change).Some?
                    case ByForecast(approved) =>
                      && change in approved && |approved[change]| == |m.candidates|
                      && forall i :: 0 <= i < |m.candidates| ==> approved[change][i] in m.candidates[i]
                    case Rehearsal => forall i :: 0 <= i < |m.candidates| ==> |m.candidates[i]| == 1)
    ensures JoinStep(ctx, change, ours, theirs, line).Next? ==>
              var g, m, after := ctx.git, ctx.git.mergeCommits(ours, theirs), JoinStep(ctx, change, ours, theirs, line).line;
              var tree := match m
                          case Clean(t) => t
                          case Conflicted(candidates) =>
                            match ctx.policy
                            case ByPerson => ctx.answers.join(change).value
                            case ByForecast(approved) => g.settleJoin(ours, theirs, approved[change])
                            case Rehearsal => g.settleJoin(ours, theirs, Only(candidates));
              var commit := Rewritten(change, tree, [ours, theirs]);
              after == line.(rewritten := line.rewritten[change := commit], head := commit, joins := line.joins + [Join(change, commit, m.Clean?)])
  {
    var m := ctx.git.mergeCommits(ours, theirs);
    if m.Conflicted? && Exact(m.candidates) { OnlyChoices(m.candidates); }
  }

  /** Folding one absorbed change in: a clean merge stands, the only candidate of
      every path settles a conflict, a person anything else, and a conflict without
      a path stops. */
  lemma {:induction false} AbsorbsOne(ctx: Context, change: CommitId, staged: TreeId)
    ensures var g, m := ctx.git, Picked(ctx.git, change, staged);
            AbsorbAll(ctx, [change], staged) ==
              match m
              case Clean(tree) => Some(tree)
              case Conflicted(candidates) =>
                if candidates == [] then None
                else if exists i :: 0 <= i < |candidates| && |candidates[i]| != 1 then ctx.answers.absorb(change)
                else Some(g.settle(g.baseTree(change), staged, g.treeOf(change), Only(candidates)))
  {
    assert [change][1..] == [];
    var m := Picked(ctx.git, change, staged);
    if m.Conflicted? && Exact(m.candidates) { OnlyChoices(m.candidates); }
    assert AbsorbAll(ctx, [change], staged) == AbsorbOne(ctx, change, staged);
  }

  /** A rehearsal decides no ambiguity: a path without a candidate, or with more
      than one, leaves a pick and a join stuck. */
  lemma {:induction false} AmbiguityIsNotRehearsed(ctx: Context, item: Item, line: Line, ours: Commit, theirs: Commit, i: nat)
    requires ctx.policy.Rehearsal?
    ensures var m := ctx.git.mergeCommits(ours, theirs);
            m.Conflicted? && i < |m.candidates| && |m.candidates[i]| != 1 ==> JoinStep(ctx, item.step.commit, ours, theirs, line).Stuck?
    ensures var m := Picked(ctx.git, item.step.commit, TreeOf(ctx.git, ours));
            item.Pick? && m.Conflicted? && i < |m.candidates| && |m.candidates[i]| != 1 ==> PickStep(ctx, item, ours, line).Stuck?
  {
    hide PickStep, JoinStep;
    JoinRunsIff(ctx, item.step.commit, ours, theirs, line);
    if item.Pick? && Picked(ctx.git, item.step.commit, TreeOf(ctx.git, ours)).Conflicted? {
      ConflictingPickRunsIff(ctx, item, line, ours);
    }
  }
}
