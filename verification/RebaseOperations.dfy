/** The journaled rebase: an operation that runs its queue, stops for a person,
    and continues where it stopped. */
module RebaseOperations {
  import opened Git
  import opened RebaseTopology
  import opened RebaseFold

  datatype State =
    | Running
    | Applying
    | AwaitingResolution
    | AwaitingAbsorption
    | AwaitingMessage
    | AwaitingContent
    | Blocked
    | ForecastMismatch

  /** What a reviewed forecast authorizes. */
  datatype Approval = Approval(steps: seq<Report>, choices: map<CommitId, seq<ResolutionId>>, predictedTree: TreeId)

  datatype Cursor = Cursor(items: seq<CommitId>, next: nat)

  /** The step in flight. `forked` stays once a decision on its conflict asked
      for a fork, whether or not Git could use that decision. */
  datatype Current = Current(
    before: TreeId,
    theirs: Option<Commit>,
    absorption: Option<Cursor>,
    treeBeforeEdit: TreeId,
    forked: bool)

  /** What a person brings back: the staged tree, and whether they asked for a
      fork or gave a message. */
  datatype Decision = Decision(tree: TreeId, fork: bool, message: bool)

  /** A decision given while the conflict of a change's own pick waited. */
  datatype Given = Given(change: CommitId, decision: Decision)

  ghost predicate Asked(given: seq<Given>, change: CommitId) {
    exists g <- given :: g.change == change && g.decision.fork
  }

  lemma {:induction false} AskedMore(given: seq<Given>, last: Given, change: CommitId)
    ensures Asked(given + [last], change) <==> Asked(given, change) || (last.change == change && last.decision.fork)
  {
    if last.change == change && last.decision.fork { assert last in given + [last]; }
    if Asked(given, change) {
      var g :| g in given && g.change == change && g.decision.fork;
      assert g in given + [last];
    }
  }

  ghost predicate ForksAreAsked(applied: seq<Application>, given: seq<Given>) {
    forall i :: 0 <= i < |applied| ==> (applied[i].relation == ContextualFork <==> Asked(given, applied[i].origin))
  }

  lemma {:induction false} ForksMore(applied: seq<Application>, last: Application, given: seq<Given>)
    requires ForksAreAsked(applied, given) && (last.relation == ContextualFork <==> Asked(given, last.origin))
    ensures ForksAreAsked(applied + [last], given)
  {}

  lemma {:induction false} AskedElsewhere(applied: seq<Application>, given: seq<Given>, last: Given)
    requires ForksAreAsked(applied, given) && forall i :: 0 <= i < |applied| ==> applied[i].origin != last.change
    ensures ForksAreAsked(applied, given + [last])
  {
    hide Asked;
    forall i | 0 <= i < |applied| ensures applied[i].relation == ContextualFork <==> Asked(given + [last], applied[i].origin) {
      AskedMore(given, last, applied[i].origin);
    }
  }

  datatype Exit = Exhausted | Stopped | Refused

  function AbsorptionOf(current: Current, change: CommitId): seq<Absorption> {
    if current.absorption.None? then [] else [Absorption(change, current.absorption.value.items)]
  }

  class RebaseOperation {
    const git: Git
    const onto: CommitId
    const queue: seq<Item>
    const approval: Option<Approval>
    ghost const nodes: seq<Node>
    ghost const answers: Answers

    var state: State
    var nextIndex: nat
    var executedCount: nat
    var rewritten: map<CommitId, Commit>
    var applied: seq<Application>
    var joins: seq<Join>
    var absorptions: seq<Absorption>
    var amendments: seq<Amendment>
    var current: Option<Current>
    var head: Commit
    var staged: TreeId
    ghost var tampered: bool
    ghost var given: seq<Given>

    ghost function Ctx(): Context {
      Context(git, onto, if approval.Some? then ByForecast(approval.value.choices) else ByPerson, answers)
    }

    ghost predicate WellDefined() {
      Rooted(nodes) && ProgramOf(nodes, queue) && WellFormedQueue(queue)
    }

    /** The approval describes this very program: it completes, and its steps are
        the ones the approval lists. */
    ghost predicate Faithful()
      requires WellDefined()
    {
      && approval.Some?
      && FoldTo(Ctx(), queue, |queue|).Next?
      && approval.value.steps == Reports(Ctx(), queue, |queue|)
    }

    ghost predicate Records(line: Line)
      reads `executedCount, `rewritten, `applied, `joins, `absorptions, `amendments
    {
      && rewritten == line.rewritten
      && applied == line.applied
      && joins == line.joins
      && absorptions == line.absorptions
      && amendments == line.amendments
      && executedCount == |applied| + |joins|
    }

    ghost function Now(): Line
      reads `nextIndex
      requires WellDefined() && nextIndex <= |queue| && FoldTo(Ctx(), queue, nextIndex).Next?
    {
      FoldTo(Ctx(), queue, nextIndex).line
    }

    /** Between steps the journal is exactly the fold of the steps behind it. */
    ghost predicate Journaled()
      reads `nextIndex, `executedCount, `rewritten, `applied, `joins, `absorptions, `amendments, `given
    {
      && WellDefined()
      && nextIndex <= |queue|
      && FoldTo(Ctx(), queue, nextIndex).Next?
      && Records(Now())
      && Guarded(nextIndex)
      && Remembered()
    }

    /** An application is a fork exactly when some decision given on its change
        asked for one, and only what is behind the cursor or next was decided. */
    ghost predicate Remembered()
      reads `nextIndex, `rewritten, `applied, `given
    {
      && ForksAreAsked(applied, given)
      && forall g <- given :: g.change in rewritten || (nextIndex < |queue| && g.change == Change())
    }

    ghost predicate AllBehind()
      reads `rewritten, `given
    {
      forall g <- given :: g.change in rewritten
    }

    /** Whether an approval lists what step `i` did. The result of a survivor
        that paused for a message or an edit is not compared step by step. */
    ghost predicate CheckedAt(i: nat)
      requires WellDefined() && i < |queue| && !queue[i].Omit? && FoldTo(Ctx(), queue, i + 1).Next?
    {
      approval.Some? ==>
        && Executed(queue, i) < |approval.value.steps|
        && var listed, done := approval.value.steps[Executed(queue, i)], ReportAt(Ctx(), queue, i);
           && listed.source == done.source && listed.beforeTree == done.beforeTree
           && (!PausesForAction(Ctx(), queue, i) ==> listed == done)
    }

    /** Every step behind the cursor was compared with the approval. */
    ghost predicate Guarded(k: nat)
      requires WellDefined() && k <= |queue| && FoldTo(Ctx(), queue, k).Next?
    {
      k == 0 || (Guarded(k - 1) && (queue[k - 1].Omit? || CheckedAt(k - 1)))
    }

    /** The step in flight is the next one, positioned on its own parent. */
    ghost predicate Positioned()
      reads `nextIndex, `executedCount, `rewritten, `applied, `joins, `absorptions, `amendments, `given, `current
    {
      && Journaled()
      && nextIndex < |queue|
      && !queue[nextIndex].Omit?
      && current.Some?
      && Parents().Some?
      && current.value.before == Tree(git, Parents().value[0])
      && (queue[nextIndex].RecreateMerge? ==> current.value.theirs == Some(Parents().value[1]))
      && (current.value.forked <==> Asked(given, Change()))
    }

    /** It is the step the approval, if any, lists next. */
    ghost predicate InStep()
      reads `nextIndex, `executedCount, `rewritten, `applied, `joins, `absorptions, `amendments, `given, `current
    {
      Positioned() && ForecastBefore(Change(), current.value.before)
    }

    ghost function Parents(): (r: Option<seq<Commit>>)
      reads `nextIndex, `executedCount, `rewritten, `applied, `joins, `absorptions, `amendments, `given
      requires Journaled() && nextIndex < |queue|
      ensures r.Some? ==> |r.value| == |queue[nextIndex].step.parents|
      ensures r.Some? ==> |r.value| == if queue[nextIndex].RecreateMerge? then 2 else 1
    {
      assert WellFormed(queue[nextIndex]);
      ResolveStepParents(queue[nextIndex].step.parents, onto, rewritten)
    }

    ghost function Change(): CommitId
      reads `nextIndex
      requires nextIndex < |queue|
    {
      queue[nextIndex].step.commit
    }

    /** The step's own conflict is waiting for its answer. */
    ghost predicate AtConflict()
      reads `nextIndex, `executedCount, `rewritten, `applied, `joins, `absorptions, `amendments, `given, `current, `head
    {
      && InStep()
      && approval.None?
      && head == Parents().value[0]
      && current.value.absorption.None?
      && if queue[nextIndex].RecreateMerge? then
           && !current.value.forked
           && git.joins(head, Parents().value[1])
           && var m := git.mergeCommits(head, Parents().value[1]);
              m.Conflicted? && m.candidates != []
         else
           && var m := PickChange(git, Change(), current.value.before);
              m.Conflicted? && m.candidates != []
    }

    /** The pick applied cleanly and `staged` is what folding the absorbed
        changes before the cursor made of it. */
    ghost predicate Absorbing(cursor: Cursor)
      reads `nextIndex, `executedCount, `rewritten, `applied, `joins, `absorptions, `amendments, `given, `current, `head, `staged
    {
      && InStep()
      && queue[nextIndex].Pick? && !current.value.forked
      && cursor.items == queue[nextIndex].absorbs
      && cursor.next <= |cursor.items|
      && current.value.absorption == (if cursor.items == [] then None else Some(cursor))
      && var picked := PickChange(git, Change(), current.value.before);
         && picked.Clean?
         && head == Rewritten(Change(), picked.tree, [Parents().value[0]])
         && AbsorbAll(Ctx(), cursor.items[..cursor.next], picked.tree) == Some(staged)
    }

    /** Everything is folded in and committed; only the step's own action is
        left. */
    ghost predicate Survived()
      reads `nextIndex, `executedCount, `rewritten, `applied, `joins, `absorptions, `amendments, `given, `current, `head, `staged
    {
      && InStep()
      && queue[nextIndex].Pick? && !current.value.forked
      && var absorbs := queue[nextIndex].absorbs;
         var picked := PickChange(git, Change(), current.value.before);
         && picked.Clean?
         && AbsorbAll(Ctx(), absorbs, picked.tree) == Some(staged)
         && !(absorbs != [] && staged == current.value.before)
         && head == Rewritten(Change(), staged, [Parents().value[0]])
         && current.value.absorption == (if absorbs == [] then None else Some(Cursor(absorbs, |absorbs|)))
    }

    /** What every state promises. */
    ghost predicate Coherent()
      reads this
    {
      && Journaled()
      && match state
         case Running => current == None && head == Now().head && AllBehind()
         case AwaitingResolution => AtConflict()
         case AwaitingAbsorption =>
           && InStep()
           && current.value.absorption.Some?
           && var cursor := current.value.absorption.value;
              && Absorbing(cursor)
              && cursor.next < |cursor.items|
              && var m := MergeChange(git, cursor.items[cursor.next], staged);
                 m.Conflicted? && m.candidates != [] && exists i :: 0 <= i < |m.candidates| && |m.candidates[i]| != 1
         case AwaitingMessage =>
           Survived() && queue[nextIndex].action.Reword? && current.value.treeBeforeEdit == staged
         case AwaitingContent =>
           Survived() && queue[nextIndex].action.Edit? && current.value.treeBeforeEdit == staged
         case Applying => Cancelled() && StepIsStuck()
         case Blocked => (tampered && !Uncommitted()) || (CannotApply() && StepIsStuck())
         case ForecastMismatch => approval.Some? && !Faithful() && !Uncommitted()
    }

    /** What was absorbed cancels the survivor's own change, so there is nothing
        left to commit. */
    ghost predicate Cancelled()
      reads `nextIndex, `executedCount, `rewritten, `applied, `joins, `absorptions, `amendments, `given, `current, `head, `staged
    {
      && InStep()
      && queue[nextIndex].Pick?
      && queue[nextIndex].absorbs != []
      && Absorbing(Cursor(queue[nextIndex].absorbs, |queue[nextIndex].absorbs|))
      && staged == current.value.before
    }

    /** Git refuses what comes next, and no path is left for a person to settle. */
    ghost predicate CannotApply()
      reads `nextIndex, `executedCount, `rewritten, `applied, `joins, `absorptions, `amendments, `given, `current, `head, `staged
    {
      && InStep()
      && if current.value.absorption.Some? then
           var cursor := current.value.absorption.value;
           && Absorbing(cursor)
           && cursor.next < |cursor.items|
           && MergeChange(git, cursor.items[cursor.next], staged) == Conflicted([])
         else if queue[nextIndex].RecreateMerge? then
           !git.joins(Parents().value[0], Parents().value[1]) ||
           git.mergeCommits(Parents().value[0], Parents().value[1]) == Conflicted([])
         else PickChange(git, Change(), current.value.before) == Conflicted([])
    }

    /** What folding has staged, and HEAD does not hold. */
    ghost predicate Uncommitted()
      reads `current, `head, `staged
    {
      current.Some? && current.value.absorption.Some? && staged != Tree(git, head)
    }

    ghost predicate StepIsStuck()
      reads `nextIndex, `executedCount, `rewritten, `applied, `joins, `absorptions, `amendments, `given
      requires Journaled()
    {
      nextIndex < |queue| && FoldTo(Ctx(), queue, nextIndex + 1).Stuck?
    }

    constructor (git: Git, onto: CommitId, queue: seq<Item>, approval: Option<Approval>, ghost nodes: seq<Node>, ghost answers: Answers)
      requires Rooted(nodes) && ProgramOf(nodes, queue)
      ensures Coherent() && state == Running && nextIndex == 0 && !tampered && given == []
      ensures this.git == git && this.onto == onto && this.queue == queue && this.approval == approval
      ensures this.nodes == nodes && this.answers == answers
    {
      this.git, this.onto, this.queue, this.approval := git, onto, queue, approval;
      this.nodes, this.answers := nodes, answers;
      state, nextIndex, executedCount := Running, 0, 0;
      rewritten, applied, joins, absorptions, amendments := map[], [], [], [], [];
      current, head, staged, tampered := None, Original(onto), git.treeOf(onto), false;
      given := [];
      new;
      ProgramIsWellFormed(nodes, queue);
    }

    /** Whether the forecast's next step is this change on this tree. */
    predicate ForecastBefore(change: CommitId, before: TreeId)
      reads `executedCount
    {
      approval.Some? ==>
        && executedCount < |approval.value.steps|
        && approval.value.steps[executedCount].source == change
        && approval.value.steps[executedCount].beforeTree == before
    }

    predicate ForecastAfter(change: CommitId, result: TreeId, outcome: StepOutcome)
      reads `executedCount
    {
      approval.Some? ==>
        && executedCount < |approval.value.steps|
        && approval.value.steps[executedCount].source == change
        && approval.value.steps[executedCount].resultTree == result
        && approval.value.steps[executedCount].outcome == outcome
    }

    lemma {:induction false} GuardedNext(k: nat)
      requires WellDefined() && k < |queue| && FoldTo(Ctx(), queue, k).Next? && FoldTo(Ctx(), queue, k + 1).Next?
      requires Guarded(k) && (queue[k].Omit? || CheckedAt(k))
      ensures Guarded(k + 1)
    {
      hide StepOn, FoldTo, CheckedAt;
    }

    /** Journal the commit at HEAD as what replaced this step's change. */
    method RecordSuccessfulApplication(relation: Relation, ghost line: Line)
      requires WellDefined() && nextIndex < |queue| && !queue[nextIndex].Omit?
      requires FoldTo(Ctx(), queue, nextIndex).Next? && FoldTo(Ctx(), queue, nextIndex + 1) == Next(line)
      requires current.Some? && head.Rewritten? && line.head == head && executedCount == |applied| + |joins|
      requires line.rewritten == rewritten[Change() := head]
      requires line.applied == applied + [Application(Change(), head, current.value.before, head.tree, relation)]
      requires line.absorptions == absorptions + AbsorptionOf(current.value, Change())
      requires line.joins == joins && line.amendments == amendments
      requires Remembered() && (relation == ContextualFork <==> Asked(given, Change()))
      requires Guarded(nextIndex) && CheckedAt(nextIndex)
      modifies this
      ensures Coherent() && state == Running && tampered == old(tampered) && given == old(given)
      ensures nextIndex == old(nextIndex) + 1
    {
      hide StepOn, FoldTo, Guarded, CheckedAt, Asked, ForksAreAsked;
      GuardedNext(nextIndex);
      var change := queue[nextIndex].step.commit;
      ForksMore(applied, Application(change, head, current.value.before, head.tree, relation), given);
      applied := applied + [Application(change, head, current.value.before, head.tree, relation)];
      absorptions := absorptions + AbsorptionOf(current.value, change);
      rewritten := rewritten[change := head];
      nextIndex, executedCount := nextIndex + 1, executedCount + 1;
      current, state := None, Running;
    }

    /** Journal the join at HEAD: a join, never an application. */
    method RecordRecreatedMerge(cleanJoin: bool, ghost line: Line)
      requires WellDefined() && nextIndex < |queue| && !queue[nextIndex].Omit?
      requires FoldTo(Ctx(), queue, nextIndex).Next? && FoldTo(Ctx(), queue, nextIndex + 1) == Next(line)
      requires line.head == head && executedCount == |applied| + |joins|
      requires line.rewritten == rewritten[Change() := head]
      requires line.joins == joins + [Join(Change(), head, cleanJoin)]
      requires line.applied == applied && line.absorptions == absorptions && line.amendments == amendments
      requires Remembered() && Guarded(nextIndex) && CheckedAt(nextIndex)
      modifies this
      ensures Coherent() && state == Running && tampered == old(tampered) && given == old(given)
      ensures nextIndex == old(nextIndex) + 1
    {
      hide StepOn, FoldTo, Guarded, CheckedAt, Asked, ForksAreAsked;
      GuardedNext(nextIndex);
      var change := queue[nextIndex].step.commit;
      joins := joins + [Join(change, head, cleanJoin)];
      rewritten := rewritten[change := head];
      nextIndex, executedCount := nextIndex + 1, executedCount + 1;
      current, state := None, Running;
    }

    /** Fold absorbed changes into the staged tree from the cursor on, stopping
        at one that needs a person or that Git cannot apply. */
    method MeldOutstanding() returns (next: nat)
      requires state == Applying && current.Some? && current.value.absorption.Some?
      requires current.value.absorption.value.next <= |current.value.absorption.value.items|
      modifies `state, `current, `staged
      ensures var cursor := old(current).value.absorption.value;
              && next <= |cursor.items|
              && current == Some(old(current).value.(absorption := Some(cursor.(next := next))))
              && cursor.next <= next
              && AbsorbAll(Ctx(), cursor.items[cursor.next..next], old(staged)) == Some(staged)
              && (state == Applying <==> next == |cursor.items|)
              && (next < |cursor.items| ==>
                    && MergeChange(git, cursor.items[next], staged).Conflicted?
                    && var candidates := MergeChange(git, cursor.items[next], staged).candidates;
                       && state == (if candidates == [] then Blocked else AwaitingAbsorption)
                       && (candidates != [] ==> exists i :: 0 <= i < |candidates| && |candidates[i]| != 1))
    {
      ghost var began := current.value.absorption.value;
      var cursor := current.value.absorption.value;
      while cursor.next < |cursor.items|
        invariant state == Applying && cursor.items == began.items && began.next <= cursor.next <= |cursor.items|
        invariant current == Some(old(current).value.(absorption := Some(cursor)))
        invariant AbsorbAll(Ctx(), cursor.items[began.next..cursor.next], old(staged)) == Some(staged)
        decreases |cursor.items| - cursor.next
      {
        var item := cursor.items[cursor.next];
        FoldOneMore(cursor.items, began.next, cursor.next, old(staged), staged);
        match MergeChange(git, item, staged) {
          case Clean(tree) =>
            staged := tree;
          case Conflicted(candidates) =>
            if candidates == [] || !Exact(candidates) {
              state := if candidates == [] then Blocked else AwaitingAbsorption;
              return cursor.next;
            }
            staged := SettleChange(git, item, staged, Choices(candidates));
        }
        cursor := cursor.(next := cursor.next + 1);
        current := Some(current.value.(absorption := Some(cursor)));
      }
      next := cursor.next;
    }

    /** One more absorbed change folded onto what those before it made. */
    lemma {:induction false} FoldOneMore(items: seq<CommitId>, from: nat, next: nat, began: TreeId, folded: TreeId)
      requires from <= next < |items| && AbsorbAll(Ctx(), items[from..next], began) == Some(folded)
      ensures AbsorbAll(Ctx(), items[from..next + 1], began) == AbsorbOne(Ctx(), items[next], folded)
    {
      assert items[from..next + 1] == items[from..next] + [items[next]];
      AbsorbAllConcat(Ctx(), items[from..next], [items[next]], began);
      assert [items[next]][1..] == [];
    }

    /** A change that cannot be folded leaves the whole absorption unfolded. */
    lemma {:induction false} FoldFails(items: seq<CommitId>, next: nat, picked: TreeId)
      requires next < |items| && AbsorbAll(Ctx(), items[..next], picked) == Some(staged)
      requires AbsorbOne(Ctx(), items[next], staged) == None
      ensures AbsorbAll(Ctx(), items, picked) == None
    {
      assert items == items[..next] + items[next..];
      AbsorbAllConcat(Ctx(), items[..next], items[next..], picked);
    }

    lemma {:induction false} FoldFurther(items: seq<CommitId>, from: nat, next: nat, picked: TreeId, began: TreeId)
      requires from <= next <= |items| && AbsorbAll(Ctx(), items[..from], picked) == Some(began)
      requires AbsorbAll(Ctx(), items[from..next], began) == Some(staged)
      ensures AbsorbAll(Ctx(), items[..next], picked) == Some(staged)
    {
      assert items[..next] == items[..from] + items[from..next];
      AbsorbAllConcat(Ctx(), items[..from], items[from..next], picked);
    }

    /** Meld every absorbed change still outstanding into the commit at HEAD. */
    method AbsorbOutstanding() returns (folded: bool)
      requires state == Applying && InStep() && current.value.absorption.Some? && Absorbing(current.value.absorption.value)
      modifies `state, `current, `staged, `head
      ensures folded ==> Survived() && state == Applying
      ensures !folded ==> Coherent() && state != Running
    {
      hide StepOn, FoldTo, Guarded, CheckedAt, Remembered;
      ghost var began, from := staged, current.value.absorption.value.next;
      ghost var picked := PickChange(git, Change(), current.value.before).tree;
      var next := MeldOutstanding();
      var items := current.value.absorption.value.items;
      FoldFurther(items, from, next, picked, began);
      assert InStep() && Absorbing(current.value.absorption.value);
      if next < |items| {
        if state == Blocked { CannotFold(); }
        return false;
      }
      assert items[..next] == items;
      if staged == current.value.before {
        AmendIsStuck();
        return false;
      }
      head := head.(tree := staged);
      assert InStep();
      folded := true;
    }

    lemma {:induction false} AbsorptionIsStuck()
      requires InStep() && queue[nextIndex].Pick?
      requires PickChange(git, Change(), current.value.before).Clean?
      requires AbsorbAll(Ctx(), queue[nextIndex].absorbs, PickChange(git, Change(), current.value.before).tree) == None
      ensures StepIsStuck()
    {
      assert WellFormed(queue[nextIndex]);
    }

    /** A change that Git cannot fold leaves the step stuck. */
    lemma {:induction false} CannotFold()
      requires InStep() && current.value.absorption.Some? && Absorbing(current.value.absorption.value)
      requires var cursor := current.value.absorption.value;
               cursor.next < |cursor.items| && MergeChange(git, cursor.items[cursor.next], staged) == Conflicted([])
      ensures CannotApply() && StepIsStuck()
    {
      hide StepOn, FoldTo, Guarded, CheckedAt, Remembered;
      var cursor := current.value.absorption.value;
      FoldFails(cursor.items, cursor.next, PickChange(git, Change(), current.value.before).tree);
      AbsorptionIsStuck();
    }

    lemma {:induction false} AmendIsStuck()
      requires Cancelled()
      ensures StepIsStuck()
    {
      var absorbs := queue[nextIndex].absorbs;
      assert absorbs[..|absorbs|] == absorbs;
      assert WellFormed(queue[nextIndex]);
    }

    // ---------- What a mismatch means ----------

    /** A faithful approval's next step is this step: it starts on this parent's
        tree and does not get stuck. */
    lemma {:induction false} FaithfulStep()
      requires Positioned() && Faithful()
      ensures FoldTo(Ctx(), queue, nextIndex + 1).Next?
      ensures ForecastBefore(Change(), current.value.before)
      ensures approval.value.steps[executedCount] == ReportAt(Ctx(), queue, nextIndex)
    {
      hide StepOn, Guarded, CheckedAt, Remembered, Asked, Rooted, ProgramOf;
      FoldToEarlier(Ctx(), queue, |queue|, nextIndex + 1);
      ExecutedAreRecorded(Ctx(), queue, nextIndex);
      ReportIndex(Ctx(), queue, |queue|, nextIndex);
      ReportFacts(Ctx(), queue, nextIndex);
    }

    lemma {:induction false} BeforeMismatch()
      requires Positioned() && !ForecastBefore(Change(), current.value.before)
      ensures approval.Some? && !Faithful()
    {
      hide StepOn, FoldTo, Guarded, CheckedAt, Remembered;
      if Faithful() { FaithfulStep(); }
    }

    lemma {:induction false} AfterMismatch(result: TreeId, clean: bool)
      requires InStep() && FoldTo(Ctx(), queue, nextIndex + 1).Next?
      requires result == Tree(git, FoldTo(Ctx(), queue, nextIndex + 1).line.head)
      requires clean == if queue[nextIndex].RecreateMerge?
                        then git.mergeCommits(Parents().value[0], Parents().value[1]).Clean?
                        else PickChange(git, Change(), current.value.before).Clean?
      requires !ForecastAfter(Change(), result, OutcomeOf(clean))
      ensures approval.Some? && !Faithful()
    {
      hide StepOn, FoldTo, Guarded, CheckedAt, Remembered;
      if Faithful() {
        FaithfulStep();
        ReportFacts(Ctx(), queue, nextIndex);
      }
    }

    /** A step that passed both comparisons did what the approval lists. */
    lemma {:induction false} AfterMatch(result: TreeId, clean: bool)
      requires InStep() && FoldTo(Ctx(), queue, nextIndex + 1).Next?
      requires result == Tree(git, FoldTo(Ctx(), queue, nextIndex + 1).line.head)
      requires clean == if queue[nextIndex].RecreateMerge?
                        then git.mergeCommits(Parents().value[0], Parents().value[1]).Clean?
                        else PickChange(git, Change(), current.value.before).Clean?
      requires ForecastAfter(Change(), result, OutcomeOf(clean))
      ensures CheckedAt(nextIndex)
    {
      hide StepOn, FoldTo, Guarded, Remembered;
      ExecutedAreRecorded(Ctx(), queue, nextIndex);
      ReportFacts(Ctx(), queue, nextIndex);
    }

    /** A step that paused for its action was compared before it ran. */
    lemma {:induction false} PausedMatch()
      requires InStep() && FoldTo(Ctx(), queue, nextIndex + 1).Next?
      requires queue[nextIndex].Pick? && !queue[nextIndex].action.Replay?
      requires PickChange(git, Change(), current.value.before).Clean?
      ensures CheckedAt(nextIndex)
    {
      hide StepOn, FoldTo, Guarded, Remembered;
      ExecutedAreRecorded(Ctx(), queue, nextIndex);
      ReportFacts(Ctx(), queue, nextIndex);
    }

    lemma {:induction false} StuckIsUnfaithful()
      requires InStep() && approval.Some? && FoldTo(Ctx(), queue, nextIndex + 1).Stuck?
      ensures !Faithful()
    {
      hide StepOn, FoldTo, Guarded, CheckedAt, Remembered;
      if Faithful() { FaithfulStep(); }
    }

    // ---------- Finishing a step ----------

    ghost function SurvivorLine(relation: Relation, tree: TreeId, amended: Line): Line
      reads this
      requires InStep()
    {
      AppendApplication(amended, Change(), Parents().value[0], current.value.before, tree, relation)
    }

    lemma {:induction false} SurvivedStep() returns (line: Line)
      requires Survived() && !queue[nextIndex].action.Edit?
      ensures line == SurvivorLine(CausalRebase, staged, RecordAbsorption(Now(), Change(), queue[nextIndex].absorbs))
      ensures FoldTo(Ctx(), queue, nextIndex + 1) == Next(line)
    {
      assert WellFormed(queue[nextIndex]);
      line := FoldTo(Ctx(), queue, nextIndex + 1).line;
    }

    lemma {:induction false} EditedStep(edited: TreeId) returns (line: Line)
      requires Survived() && queue[nextIndex].action.Edit? && answers.edit(Change()) == Some(edited)
      ensures line == SurvivorLine(CausalRebase, edited,
                RecordAmendment(RecordAbsorption(Now(), Change(), queue[nextIndex].absorbs), Change(), staged, edited))
      ensures FoldTo(Ctx(), queue, nextIndex + 1) == Next(line)
    {
      assert WellFormed(queue[nextIndex]);
      line := FoldTo(Ctx(), queue, nextIndex + 1).line;
    }

    /** A conflict of the step's own change, settled to a tree. */
    lemma {:induction false} SettledStep(tree: TreeId, fork: bool, candidates: seq<seq<ResolutionId>>) returns (line: Line)
      requires InStep() && queue[nextIndex].Pick? && candidates != [] && tree != current.value.before
      requires PickChange(git, Change(), current.value.before) == Conflicted(candidates)
      requires SettledPick(Ctx(), Change(), current.value.before, candidates) == Some(Resolution(tree, fork))
      ensures line == SurvivorLine(RelationOf(fork), tree, Now())
      ensures FoldTo(Ctx(), queue, nextIndex + 1) == Next(line)
    {
      assert WellFormed(queue[nextIndex]);
      line := FoldTo(Ctx(), queue, nextIndex + 1).line;
    }

    lemma {:induction false} JoinedStep(tree: TreeId, cleanJoin: bool) returns (line: Line)
      requires InStep() && queue[nextIndex].RecreateMerge? && git.joins(Parents().value[0], Parents().value[1])
      requires var m := git.mergeCommits(Parents().value[0], Parents().value[1]);
               if cleanJoin then m == Clean(tree)
               else
                 && m.Conflicted? && m.candidates != []
                 && SettledJoin(Ctx(), Change(), Parents().value[0], Parents().value[1], m.candidates) == Some(tree)
      ensures line == AppendJoin(Now(), Change(), Parents().value, tree, cleanJoin)
      ensures FoldTo(Ctx(), queue, nextIndex + 1) == Next(line)
    {
      assert WellFormed(queue[nextIndex]);
      assert Parents().value == [Parents().value[0], Parents().value[1]];
      line := FoldTo(Ctx(), queue, nextIndex + 1).line;
    }

    /** Record a survivor that nobody edited. */
    method RecordSurvivor()
      requires Survived() && !queue[nextIndex].action.Edit? && FoldTo(Ctx(), queue, nextIndex + 1).Next? && CheckedAt(nextIndex)
      modifies this
      ensures Coherent() && state == Running && tampered == old(tampered) && given == old(given)
      ensures nextIndex == old(nextIndex) + 1
    {
      hide StepOn, FoldTo, Guarded, CheckedAt, Remembered, AbsorbAll, PickChange, Asked;
      ghost var line := SurvivedStep();
      RecordSuccessfulApplication(CausalRebase, line);
    }

    /** Record the survivor, or pause for what its action asks for. */
    method FinishSurvivingStep() returns (recorded: bool)
      requires state == Applying && Survived()
      modifies this
      ensures Coherent() && tampered == old(tampered) && given == old(given)
      ensures recorded <==> state == Running
      ensures recorded ==> nextIndex == old(nextIndex) + 1
    {
      hide StepOn, FoldTo, Guarded, CheckedAt, Remembered;
      var item := queue[nextIndex];
      if item.action.Reword? || item.action.Edit? {
        current := Some(current.value.(treeBeforeEdit := staged));
        state := if item.action.Reword? then AwaitingMessage else AwaitingContent;
        return false;
      }
      ghost var line := SurvivedStep();
      if !ForecastAfter(item.step.commit, staged, CleanStep) {
        AfterMismatch(staged, true);
        state := ForecastMismatch;
        return false;
      }
      AfterMatch(staged, true);
      RecordSurvivor();
      recorded := true;
    }

    ghost predicate ConflictOf(candidates: seq<seq<ResolutionId>>)
      reads this
    {
      && InStep()
      && head == Parents().value[0]
      && current.value.absorption.None? && !current.value.forked
      && if queue[nextIndex].RecreateMerge? then
           git.joins(head, Parents().value[1]) && git.mergeCommits(head, Parents().value[1]) == Conflicted(candidates)
         else PickChange(git, Change(), current.value.before) == Conflicted(candidates)
    }

    lemma {:induction false} UnsettledIsStuck(candidates: seq<seq<ResolutionId>>)
      requires ConflictOf(candidates)
      requires
        || candidates == []
        || (approval.Some? && RecordedChoices(Ctx().policy, Change(), candidates) == None)
        || (queue[nextIndex].Pick? && approval.Some?
            && SettledPick(Ctx(), Change(), current.value.before, candidates) == Some(Resolution(current.value.before, false)))
      ensures StepIsStuck()
    {
      assert WellFormed(queue[nextIndex]);
    }

    /** Settle a step's own conflict with the choices its forecast approved. */
    method ApplyForecastResolutions(candidates: seq<seq<ResolutionId>>) returns (recorded: bool)
      requires state == Applying && ConflictOf(candidates) && approval.Some? && candidates != []
      modifies this
      ensures Coherent() && tampered == old(tampered) && given == old(given)
      ensures recorded <==> state == Running
      ensures !recorded ==> state == ForecastMismatch
      ensures recorded ==> nextIndex == old(nextIndex) + 1
    {
      hide StepOn, FoldTo, Guarded, CheckedAt, Remembered;
      var item := queue[nextIndex];
      var change := item.step.commit;
      if change !in approval.value.choices || !Chosen(approval.value.choices[change], candidates) {
        UnsettledIsStuck(candidates);
        StuckIsUnfaithful();
        state := ForecastMismatch;
        return false;
      }
      var choices := approval.value.choices[change];
      if item.RecreateMerge? {
        recorded := CommitSettledJoin(git.settleJoin(head, current.value.theirs.value, choices));
      } else {
        recorded := CommitSettledPick(SettleChange(git, change, current.value.before, choices), candidates);
      }
    }

    method CommitSettledJoin(tree: TreeId) returns (recorded: bool)
      requires state == Applying && approval.Some?
      requires InStep() && queue[nextIndex].RecreateMerge? && head == Parents().value[0] && git.joins(head, Parents().value[1])
      requires var m := git.mergeCommits(head, Parents().value[1]);
               && m.Conflicted? && m.candidates != []
               && SettledJoin(Ctx(), Change(), head, Parents().value[1], m.candidates) == Some(tree)
      requires current.value.absorption.None? && !current.value.forked
      modifies this
      ensures Coherent() && tampered == old(tampered) && given == old(given)
      ensures recorded <==> state == Running
      ensures !recorded ==> state == ForecastMismatch
      ensures recorded ==> nextIndex == old(nextIndex) + 1
    {
      hide StepOn, FoldTo, Guarded, CheckedAt, Remembered;
      var change := queue[nextIndex].step.commit;
      ghost var line := JoinedStep(tree, false);
      head := Rewritten(change, tree, [head, current.value.theirs.value]);
      if !ForecastAfter(change, tree, ExactStep) {
        AfterMismatch(tree, false);
        state := ForecastMismatch;
        return false;
      }
      AfterMatch(tree, false);
      RecordRecreatedMerge(false, line);
      recorded := true;
    }

    method CommitSettledPick(tree: TreeId, ghost candidates: seq<seq<ResolutionId>>) returns (recorded: bool)
      requires state == Applying && approval.Some? && candidates != []
      requires ConflictOf(candidates) && queue[nextIndex].Pick?
      requires SettledPick(Ctx(), Change(), current.value.before, candidates) == Some(Resolution(tree, false))
      modifies this
      ensures Coherent() && tampered == old(tampered) && given == old(given)
      ensures recorded <==> state == Running
      ensures !recorded ==> state == ForecastMismatch
      ensures recorded ==> nextIndex == old(nextIndex) + 1
    {
      hide StepOn, FoldTo, Guarded, CheckedAt, Remembered;
      var change := queue[nextIndex].step.commit;
      if tree == current.value.before {
        UnsettledIsStuck(candidates);
        StuckIsUnfaithful();
        state := ForecastMismatch;
        return false;
      }
      ghost var line := SettledStep(tree, false, candidates);
      head := Rewritten(change, tree, [head]);
      if !ForecastAfter(change, tree, ExactStep) {
        AfterMismatch(tree, false);
        state := ForecastMismatch;
        return false;
      }
      AfterMatch(tree, false);
      RecordSuccessfulApplication(ContextualRebase, line);
      recorded := true;
    }

    // ---------- Running ----------

    /** Leave a conflict for a person, unless a forecast decides it. */
    method HandleConflict(candidates: seq<seq<ResolutionId>>) returns (recorded: bool)
      requires state == Applying && ConflictOf(candidates)
      modifies this
      ensures Coherent() && tampered == old(tampered) && given == old(given)
      ensures recorded <==> state == Running
      ensures approval.Some? && !recorded ==> state == ForecastMismatch
      ensures approval.None? ==> state == if candidates == [] then Blocked else AwaitingResolution
      ensures recorded ==> nextIndex == old(nextIndex) + 1
    {
      hide StepOn, FoldTo, Guarded, CheckedAt, Remembered;
      if candidates != [] && approval.Some? {
        recorded := ApplyForecastResolutions(candidates);
        return;
      }
      if candidates == [] { UnsettledIsStuck(candidates); }
      if approval.Some? {
        StuckIsUnfaithful();
        state := ForecastMismatch;
      } else {
        state := if candidates == [] then Blocked else AwaitingResolution;
      }
      recorded := false;
    }

    lemma {:induction false} NothingToJoinIsStuck()
      requires InStep() && queue[nextIndex].RecreateMerge? && !git.joins(Parents().value[0], Parents().value[1])
      ensures StepIsStuck()
    {
      assert WellFormed(queue[nextIndex]);
    }

    method RunJoin() returns (recorded: bool)
      requires state == Applying && InStep() && queue[nextIndex].RecreateMerge?
      requires head == Parents().value[0] && current.value.absorption.None? && !current.value.forked
      modifies this
      ensures Coherent() && tampered == old(tampered) && given == old(given)
      ensures recorded <==> state == Running
      ensures recorded ==> nextIndex == old(nextIndex) + 1
    {
      hide StepOn, FoldTo, Guarded, CheckedAt, Remembered;
      var change, theirs := queue[nextIndex].step.commit, current.value.theirs.value;
      if !git.joins(head, theirs) {
        NothingToJoinIsStuck();
        state := Blocked;
        return false;
      }
      match git.mergeCommits(head, theirs) {
        case Conflicted(candidates) =>
          recorded := HandleConflict(candidates);
        case Clean(tree) =>
          recorded := CommitCleanJoin(tree);
      }
    }

    method CommitCleanJoin(tree: TreeId) returns (recorded: bool)
      requires state == Applying && InStep() && queue[nextIndex].RecreateMerge?
      requires head == Parents().value[0] && git.joins(head, Parents().value[1])
      requires git.mergeCommits(head, Parents().value[1]) == Clean(tree)
      requires current.value.absorption.None? && !current.value.forked
      modifies this
      ensures Coherent() && tampered == old(tampered) && given == old(given)
      ensures recorded <==> state == Running
      ensures recorded ==> nextIndex == old(nextIndex) + 1
    {
      hide StepOn, FoldTo, Guarded, CheckedAt, Remembered;
      var change := queue[nextIndex].step.commit;
      ghost var line := JoinedStep(tree, true);
      head := Rewritten(change, tree, [head, current.value.theirs.value]);
      if !ForecastAfter(change, tree, CleanStep) {
        AfterMismatch(tree, true);
        state := ForecastMismatch;
        return false;
      }
      AfterMatch(tree, true);
      RecordRecreatedMerge(true, line);
      recorded := true;
    }

    method RunPick() returns (recorded: bool)
      requires state == Applying && InStep() && queue[nextIndex].Pick?
      requires head == Parents().value[0] && current.value.absorption.None? && !current.value.forked
      modifies this
      ensures Coherent() && tampered == old(tampered) && given == old(given)
      ensures recorded <==> state == Running
      ensures recorded ==> nextIndex == old(nextIndex) + 1
    {
      hide StepOn, FoldTo, Guarded, CheckedAt, Remembered, WellDefined;
      var item := queue[nextIndex];
      match PickChange(git, item.step.commit, current.value.before) {
        case Conflicted(candidates) =>
          recorded := HandleConflict(candidates);
        case Clean(tree) =>
          head, staged := Rewritten(item.step.commit, tree, [head]), tree;
          if item.absorbs != [] {
            current := Some(current.value.(absorption := Some(Cursor(item.absorbs, 0))));
            var folded := AbsorbOutstanding();
            if !folded { return false; }
          }
          recorded := FinishSurvivingStep();
      }
    }

    lemma {:induction false} OmittedStep(parents: seq<Commit>)
      requires Journaled() && nextIndex < |queue| && queue[nextIndex].Omit? && Parents() == Some(parents)
      ensures FoldTo(Ctx(), queue, nextIndex + 1) == Next(Now().(rewritten := rewritten[Change() := parents[0]]))
    {
      hide Guarded;
      assert WellFormed(queue[nextIndex]);
    }

    /** An omitted commit collapses out of the line: nothing runs, and its image
        is its parent's. */
    method OmitStep(parents: seq<Commit>)
      requires Coherent() && state == Running && nextIndex < |queue| && queue[nextIndex].Omit?
      requires Parents() == Some(parents)
      modifies this
      ensures Coherent() && state == Running && tampered == old(tampered) && given == old(given)
      ensures nextIndex == old(nextIndex) + 1
    {
      hide StepOn, FoldTo, Guarded, CheckedAt, Asked, ForksAreAsked;
      OmittedStep(parents);
      GuardedNext(nextIndex);
      rewritten := rewritten[queue[nextIndex].step.commit := parents[0]];
      nextIndex := nextIndex + 1;
    }

    lemma {:induction false} ChangeIsAhead()
      requires Journaled() && nextIndex < |queue|
      ensures Change() !in rewritten
    {
      hide StepOn, FoldTo, Guarded, CheckedAt, Remembered;
      ProgramImage(Ctx(), nodes, queue, nextIndex);
      CommitsDiffer(nodes, queue, nextIndex);
    }

    lemma {:induction false} NotAskedYet()
      requires Journaled() && nextIndex < |queue| && AllBehind()
      ensures !Asked(given, Change())
    {
      hide Journaled;
      ChangeIsAhead();
    }

    /** Put HEAD on the parent this step states. */
    method BeginStep(parents: seq<Commit>)
      requires Coherent() && state == Running && nextIndex < |queue| && !queue[nextIndex].Omit?
      requires Parents() == Some(parents)
      modifies `state, `current, `head
      ensures state == Applying && Positioned() && head == parents[0] && current.value.absorption.None? && !current.value.forked
    {
      hide StepOn, FoldTo, Guarded, CheckedAt, Remembered;
      NotAskedYet();
      if head != parents[0] {
        head := parents[0];
      }
      var before := Tree(git, head);
      var theirs := if queue[nextIndex].RecreateMerge? then Some(parents[1]) else None;
      current := Some(Current(before, theirs, None, before, false));
      state := Applying;
    }

    method RunStep(parents: seq<Commit>) returns (recorded: bool)
      requires Coherent() && state == Running && nextIndex < |queue| && !queue[nextIndex].Omit?
      requires Parents() == Some(parents)
      modifies this
      ensures Coherent() && tampered == old(tampered) && given == old(given)
      ensures recorded <==> state == Running
      ensures recorded ==> nextIndex == old(nextIndex) + 1
    {
      hide StepOn, FoldTo, Guarded, CheckedAt, Remembered;
      BeginStep(parents);
      if !ForecastBefore(queue[nextIndex].step.commit, current.value.before) {
        BeforeMismatch();
        state := ForecastMismatch;
        return false;
      }
      if queue[nextIndex].RecreateMerge? {
        recorded := RunJoin();
      } else {
        recorded := RunPick();
      }
    }

    /** Run every step that needs nobody. A rooted program never meets a parent
        it has not rewritten. */
    method RunRebaseQueue() returns (exit: Exit)
      requires Coherent() && state == Running
      modifies this
      ensures Coherent() && tampered == old(tampered) && given == old(given)
      ensures exit == Exhausted <==> state == Running
      ensures exit == Exhausted ==> nextIndex == |queue|
      ensures old(nextIndex) == |queue| ==> exit == Exhausted
      ensures exit != Refused
    {
      hide StepOn, FoldTo, Guarded, CheckedAt, Remembered;
      while nextIndex < |queue|
        invariant Coherent() && state == Running && tampered == old(tampered) && given == old(given)
        invariant old(nextIndex) <= nextIndex
        decreases |queue| - nextIndex
      {
        ParentsAreKnown();
        var parents := ResolveStepParents(queue[nextIndex].step.parents, onto, rewritten).value;
        if queue[nextIndex].Omit? {
          OmitStep(parents);
        } else {
          var recorded := RunStep(parents);
          if !recorded { return Stopped; }
        }
      }
      exit := Exhausted;
    }

    lemma {:induction false} ParentsAreKnown()
      requires Journaled() && nextIndex < |queue|
      ensures Parents().Some?
    {
      ProgramImage(Ctx(), nodes, queue, nextIndex);
      forall i | 0 <= i < |queue[nextIndex].step.parents|
        ensures Known(queue[nextIndex].step.parents[i], rewritten)
      {
        if queue[nextIndex].step.parents[i].InRange? {
          ParentsAreEarlier(nodes, queue, nextIndex, queue[nextIndex].step.parents[i]);
        }
      }
    }

    // ---------- Continuing ----------

    /** What the operation can use now: a message for a reword, and nothing that
        would leave a commit empty or fork a join. */
    ghost predicate Accepts(d: Decision)
      reads this
      requires Coherent()
    {
      match state
      case AwaitingResolution => if queue[nextIndex].RecreateMerge? then !d.fork else d.tree != current.value.before
      case AwaitingAbsorption => true
      case AwaitingMessage => d.message && d.tree != current.value.before
      case AwaitingContent => !d.message
      case _ => false
    }

    /** A decision that is used is the one `answers` holds for what the operation
        waits on, a fork asked for by an earlier one included. One that is refused
        may be anything. */
    ghost predicate Answered(d: Decision)
      reads this
      requires Coherent()
    {
      Accepts(d) ==>
        match state
        case AwaitingResolution =>
          if queue[nextIndex].RecreateMerge? then answers.join(Change()) == Some(d.tree)
          else answers.pick(Change()) == Some(Resolution(d.tree, current.value.forked || d.fork))
        case AwaitingAbsorption =>
          var cursor := current.value.absorption.value;
          answers.absorb(cursor.items[cursor.next]) == Some(d.tree)
        case AwaitingContent => answers.edit(Change()) == Some(d.tree)
        case _ => true
    }

    lemma {:induction false} AnswerFolds(tree: TreeId)
      requires Coherent() && state == AwaitingAbsorption
      requires var cursor := current.value.absorption.value; answers.absorb(cursor.items[cursor.next]) == Some(tree)
      ensures var cursor := current.value.absorption.value;
              var picked := PickChange(git, Change(), current.value.before);
              picked.Clean? && AbsorbAll(Ctx(), cursor.items[..cursor.next + 1], picked.tree) == Some(tree)
    {
      hide FoldTo, StepOn;
      var cursor := current.value.absorption.value;
      var picked := PickChange(git, Change(), current.value.before).tree;
      assert cursor.items[0..cursor.next] == cursor.items[..cursor.next];
      FoldOneMore(cursor.items, 0, cursor.next, picked, staged);
      assert cursor.items[0..cursor.next + 1] == cursor.items[..cursor.next + 1];
    }

    /** The answered change is folded in, and the cursor passes it. */
    method FoldAnswered(d: Decision)
      requires Coherent() && state == AwaitingAbsorption && Answered(d)
      modifies `state, `staged, `current
      ensures state == Applying && InStep() && current.value.absorption.Some? && Absorbing(current.value.absorption.value)
      ensures staged == d.tree && current.value.absorption.value.next == old(current).value.absorption.value.next + 1
    {
      hide StepOn, FoldTo, Guarded, CheckedAt, Remembered, AbsorbAll, PickChange, MergeChange;
      AnswerFolds(d.tree);
      var cursor := current.value.absorption.value;
      staged := d.tree;
      current := Some(current.value.(absorption := Some(cursor.(next := cursor.next + 1))));
      state := Applying;
      assert InStep();
    }

    method CompleteAbsorption(d: Decision) returns (recorded: bool)
      requires Coherent() && state == AwaitingAbsorption && Answered(d)
      modifies this
      ensures Coherent() && tampered == old(tampered) && given == old(given)
      ensures recorded <==> state == Running
      ensures recorded ==> nextIndex == old(nextIndex) + 1
    {
      hide StepOn, FoldTo, Guarded, CheckedAt, Remembered, AbsorbAll, PickChange, MergeChange, Journaled, InStep, Absorbing, Survived;
      FoldAnswered(d);
      var folded := AbsorbOutstanding();
      if folded {
        recorded := FinishSurvivingStep();
      } else {
        recorded := false;
      }
    }

    /** A reword changes a message and nothing else: a tree that moved blocks the
        operation. */
    method CompleteReword(d: Decision) returns (recorded: bool)
      requires Coherent() && state == AwaitingMessage
      modifies this
      ensures Coherent() && given == old(given)
      ensures recorded <==> d.tree == old(current).value.treeBeforeEdit
      ensures recorded ==> state == Running && nextIndex == old(nextIndex) + 1 && tampered == old(tampered)
      ensures !recorded ==> state == Blocked && tampered && head == Rewritten(old(Change()), d.tree, old(head).parents)
    {
      hide StepOn, FoldTo, Guarded, CheckedAt, Remembered, AbsorbAll, PickChange, MergeChange;
      if d.tree != current.value.treeBeforeEdit {
        head, staged := head.(tree := d.tree), d.tree;
        state, tampered := Blocked, true;
        return false;
      }
      // A commit is its tree and its parents here, so the amended one is this one.
      ghost var line := SurvivedStep();
      PausedMatch();
      RecordSurvivor();
      recorded := true;
    }

    /** An edit keeps whatever was staged, and says so when it moved the tree. */
    method CompleteEdit(d: Decision)
      requires Coherent() && state == AwaitingContent && Accepts(d) && Answered(d)
      modifies this
      ensures Coherent() && state == Running && nextIndex == old(nextIndex) + 1 && tampered == old(tampered) && given == old(given)
      ensures amendments == old(amendments) +
                if d.tree == old(current).value.treeBeforeEdit then []
                else [Amendment(old(Change()), old(current).value.treeBeforeEdit, d.tree)]
    {
      hide StepOn, FoldTo, Guarded, CheckedAt, Remembered, AbsorbAll, PickChange;
      ghost var line := EditedStep(d.tree);
      PausedMatch();
      head := head.(tree := d.tree);
      var before := current.value.treeBeforeEdit;
      if d.tree != before {
        amendments := amendments + [Amendment(queue[nextIndex].step.commit, before, d.tree)];
      }
      ghost var told := amendments;
      RecordSuccessfulApplication(CausalRebase, line);
      assert amendments == told;
    }

    /** Whether the conflict of a pick is what the operation waits on. */
    ghost predicate AtOwnPick()
      reads `state, `nextIndex
    {
      state == AwaitingResolution && nextIndex < |queue| && queue[nextIndex].Pick?
    }

    /** What a decision leaves of the step in flight when it is refused: the fork
        it asked for. */
    ghost function Refusing(d: Decision): Option<Current>
      reads `state, `nextIndex, `current
    {
      if AtOwnPick() && current.Some? then Some(current.value.(forked := current.value.forked || d.fork)) else current
    }

    ghost function Giving(d: Decision): seq<Given>
      reads `state, `nextIndex, `given
    {
      if AtOwnPick() then given + [Given(Change(), d)] else given
    }

    lemma {:induction false} OriginsAreBehind()
      requires Journaled()
      ensures forall i :: 0 <= i < |applied| ==> applied[i].origin in rewritten
    {
      hide FoldTo;
      AppliedAreRewritten(Ctx(), queue, nextIndex);
    }

    /** A fork asked for is written into the step in flight, before Git says
        whether the decision can be used. */
    method AskForFork(d: Decision)
      requires Coherent() && AtOwnPick()
      modifies `current, `given
      ensures Coherent() && current == old(Refusing(d)) && given == old(Giving(d))
    {
      hide StepOn, FoldTo, Guarded, CheckedAt, Asked, ForksAreAsked;
      ChangeIsAhead();
      OriginsAreBehind();
      AskedMore(given, Given(Change(), d), Change());
      AskedElsewhere(applied, given, Given(Change(), d));
      given := given + [Given(queue[nextIndex].step.commit, d)];
      current := Some(current.value.(forked := current.value.forked || d.fork));
      assert Remembered();
    }

    method ResolvePick(d: Decision) returns (recorded: bool)
      requires Coherent() && AtOwnPick() && Answered(d)
      modifies this
      ensures Coherent() && tampered == old(tampered) && given == old(Giving(d))
      ensures recorded ==> state == Running && nextIndex == old(nextIndex) + 1
      ensures recorded == old(Accepts(d))
      ensures !recorded ==> current == old(Refusing(d)) && Unmoved()
    {
      hide StepOn, FoldTo, Guarded, Remembered, Asked;
      AskForFork(d);
      if d.tree == current.value.before { return false; }
      var change, forked := queue[nextIndex].step.commit, current.value.forked;
      ghost var line := SettledStep(d.tree, forked, PickChange(git, change, current.value.before).candidates);
      head := Rewritten(change, d.tree, [head]);
      RecordSuccessfulApplication(RelationOf(forked), line);
      recorded := true;
    }

    /** The conflict of the step's own change, answered. A conflicted survivor
        is recorded here, without its absorption or its action ever running. */
    method CompleteResolution(d: Decision) returns (recorded: bool)
      requires Coherent() && state == AwaitingResolution && Answered(d)
      modifies this
      ensures Coherent() && tampered == old(tampered) && given == old(Giving(d))
      ensures recorded ==> state == Running && nextIndex == old(nextIndex) + 1
      ensures recorded == old(Accepts(d))
      ensures !recorded ==> current == old(Refusing(d)) && Unmoved()
    {
      hide StepOn, FoldTo, Guarded, Remembered, Asked;
      if queue[nextIndex].Pick? {
        recorded := ResolvePick(d);
      } else {
        if d.fork { return false; }
        ghost var line := JoinedStep(d.tree, false);
        head := Rewritten(queue[nextIndex].step.commit, d.tree, [head, current.value.theirs.value]);
        RecordRecreatedMerge(false, line);
        recorded := true;
      }
    }

    /** Everything but the step in flight is as it was. */
    twostate predicate Unmoved()
      reads this
    {
      unchanged(`state, `nextIndex, `executedCount, `rewritten, `applied, `joins, `absorptions, `amendments, `head, `staged, `tampered)
    }

    /** Finish the step in flight, from whatever it waits for. */
    method CompleteStep(d: Decision) returns (exit: Exit)
      requires Coherent() && Answered(d)
      modifies this
      ensures Coherent() && given == old(Giving(d))
      ensures exit == Exhausted ==> state == Running && nextIndex == old(nextIndex) + 1
      ensures exit == Stopped ==> state != Running && old(state) != AwaitingResolution
      ensures exit == Refused <==> !old(Accepts(d))
      ensures exit == Refused ==> current == old(Refusing(d)) && Unmoved()
      ensures tampered && !old(tampered) ==> old(state) == AwaitingMessage && old(current).Some? && d.tree != old(current).value.treeBeforeEdit
    {
      hide StepOn, FoldTo, Guarded, CheckedAt, Remembered, Asked;
      var recorded := true;
      match state {
        case AwaitingMessage =>
          if !d.message || d.tree == current.value.before { return Refused; }
          recorded := CompleteReword(d);
        case AwaitingContent =>
          if d.message { return Refused; }
          CompleteEdit(d);
        case AwaitingAbsorption =>
          recorded := CompleteAbsorption(d);
        case AwaitingResolution =>
          recorded := CompleteResolution(d);
          if !recorded { return Refused; }
        case _ => return Refused;
      }
      exit := if recorded then Exhausted else Stopped;
    }

    /** Continue from any state. What cannot continue is refused, and nothing
        stays of it but the fork it asked for at the conflict of a pick. */
    method ContinueRebase(d: Decision) returns (exit: Exit)
      requires Coherent() && Answered(d)
      modifies this
      ensures Coherent() && given == old(Giving(d))
      ensures exit == Exhausted ==> state == Running && nextIndex == |queue|
      ensures old(state) == AwaitingResolution && old(nextIndex) + 1 == |queue| ==> exit != Stopped
      ensures exit == Refused <==> !old(Accepts(d))
      ensures exit == Refused ==> current == old(Refusing(d)) && Unmoved()
      ensures tampered && !old(tampered) ==> old(state) == AwaitingMessage && old(current).Some? && d.tree != old(current).value.treeBeforeEdit
    {
      exit := CompleteStep(d);
      if exit == Exhausted {
        exit := RunRebaseQueue();
      }
    }

    // ---------- Whole runs ----------

    /** An operation that reaches the end of its queue has exactly the records of
        the uninterrupted fold, and HEAD on the image of the tip, whatever it
        paused for on the way. */
    lemma {:induction false} ExhaustedIsTheFold()
      requires Coherent() && state == Running && nextIndex == |queue| && nodes != []
      ensures FoldTo(Ctx(), queue, |queue|).Next? && Records(FoldTo(Ctx(), queue, |queue|).line)
      ensures executedCount == Executed(queue, |queue|)
      ensures ForksAreAsked(FoldTo(Ctx(), queue, |queue|).line.applied, given)
      ensures var tip := nodes[|nodes| - 1].commit; tip in rewritten && head == rewritten[tip]
    {
      hide StepOn, FoldTo, Guarded, CheckedAt, Asked;
      ExecutedAreRecorded(Ctx(), queue, |queue|);
      HeadIsImageOfTip(Ctx(), nodes, queue);
    }

    /** Over every run: a pick whose own conflict was settled is recorded as a fork
        if and only if some decision given on it asked for one, used or refused. */
    lemma {:induction false} SettledPickIsForkIffAsked(j: nat)
      requires Coherent() && j < nextIndex && queue[j].Pick?
      ensures var c := queue[j].step.commit;
              exists i :: 0 <= i < |applied| && applied[i].origin == c
                && applied[i].relation == if PickedCleanly(Ctx(), queue, j) then CausalRebase else RelationOf(Asked(given, c))
    {
      hide StepOn, FoldTo, Guarded, CheckedAt, PickedCleanly, Asked;
      var c := queue[j].step.commit;
      PickIsApplied(Ctx(), queue, nextIndex, j);
      var i :| 0 <= i < |applied| && applied[i].origin == c && (applied[i].relation == CausalRebase <==> PickedCleanly(Ctx(), queue, j));
      assert applied[i].relation == ContextualFork <==> Asked(given, c);
      assert applied[i].relation == if PickedCleanly(Ctx(), queue, j) then CausalRebase else RelationOf(Asked(given, c));
    }

    /** `rewritten` names exactly the commits behind the cursor, and every step
        behind it that ran is counted. */
    lemma {:induction false} JournalIsConsistent()
      requires Coherent()
      ensures ImageTo(queue, nextIndex, onto, rewritten)
      ensures executedCount == Executed(queue, nextIndex) == |applied| + |joins|
    {
      hide StepOn, FoldTo, Guarded, CheckedAt, Remembered;
      ProgramImage(Ctx(), nodes, queue, nextIndex);
      ExecutedAreRecorded(Ctx(), queue, nextIndex);
    }

    /** Whatever forecast an operation runs under, every step it executed was
        listed next there: the same commit, on the same tree, with the same
        outcome and result unless it paused for a message or an edit. */
    lemma {:induction false} ApprovalIsHonoured(i: nat)
      requires Coherent() && i < nextIndex && !queue[i].Omit?
      ensures FoldTo(Ctx(), queue, i + 1).Next? && CheckedAt(i)
    {
      hide StepOn;
      GuardedAt(nextIndex, i);
    }

    lemma {:induction false} GuardedAt(k: nat, i: nat)
      requires WellDefined() && i < k <= |queue| && !queue[i].Omit? && FoldTo(Ctx(), queue, k).Next? && Guarded(k)
      ensures FoldTo(Ctx(), queue, i + 1).Next? && CheckedAt(i)
      decreases k
    {
      hide StepOn;
      if i < k - 1 { GuardedAt(k - 1, i); }
    }

    /** Without pauses for actions, an operation that reaches the end under a
        forecast did exactly the steps that forecast lists first. */
    lemma {:induction false} GuardedRunIsTheForecast(k: nat)
      requires WellDefined() && k <= |queue| && FoldTo(Ctx(), queue, k).Next? && Guarded(k) && approval.Some?
      requires forall i :: 0 <= i < k && queue[i].Pick? ==> queue[i].action.Replay?
      ensures Reports(Ctx(), queue, k) <= approval.value.steps
      decreases k
    {
      hide StepOn;
      if k > 0 { GuardedRunIsTheForecast(k - 1); }
    }

    /** An operation ends badly only when its fold does: with answers for every
        step and a faithful approval, if any, it is running or waiting. */
    lemma {:induction false} OnlyStuckWhenFoldIs()
      requires Coherent() && !tampered && FoldTo(Ctx(), queue, |queue|).Next?
      requires approval.Some? ==> Faithful()
      ensures state != Applying && state != Blocked && state != ForecastMismatch
    {
      hide StepOn, FoldTo, Guarded, CheckedAt, Remembered;
      if state == Applying || state == Blocked { NotStuck(); }
    }

    lemma {:induction false} NotStuck()
      requires Journaled() && FoldTo(Ctx(), queue, |queue|).Next?
      ensures !StepIsStuck()
    {
      hide StepOn;
      if nextIndex < |queue| { FoldToEarlier(Ctx(), queue, |queue|, nextIndex + 1); }
    }
  }
}
