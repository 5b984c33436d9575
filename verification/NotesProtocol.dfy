/** Many processes publishing to one notes ref under a lock that can be taken
    from a live writer. Every step a process takes is one transition of a shared
    state, so a run is any interleaving, with crashes and takeovers anywhere.
    What carries the promise is the checked update of both refs at once. */
module NotesProtocol {
  import opened Git
  import opened NoteRecords
  import opened GitCarriers

  datatype NotesCommit = NotesCommit(parents: seq<NotesCommit>, notes: Notes)

  type Tip = Option<NotesCommit>

  /** What a writer sets out to publish. `staged` is the notes commit of a
      fetched envelope, `all` its inventory, `applied` the part of it to merge,
      and `parks` says that some of it was parked instead. */
  datatype Operation =
    | Append(attachment: Oid, record: Record)
    | Replace(attachment: Oid, id: RecordId, record: Record)
    | Import(staged: Option<NotesCommit>, applied: seq<Entry>, all: seq<Entry>, parks: bool)
    | Backfill(quarantined: set<Key>)

  datatype Outcome = Refused | Left(notes: Option<Notes>)

  function NotesAt(tip: Tip): Option<Notes> {
    if tip.Some? then Some(tip.value.notes) else None
  }

  function OrEmpty(notes: Option<Notes>): Notes {
    if notes.Some? then notes.value else map[]
  }

  /** A plain text note becomes the first record of the container around it. */
  function LegacyRecord(text: nat): Record {
    Record(None, 0, text, [])
  }

  function Rewrite(container: Container, op: Operation): Option<seq<Record>>
    requires op.Append? || op.Replace?
  {
    if container.Foreign? then None
    else
      var records := if container.Legacy? then [LegacyRecord(container.text)] else container.records;
      match op
      case Append(_, record) => Some(records + [record])
      case Replace(_, id, record) =>
        match IndexOf(records, Named(id))
        case None => None
        case Some(i) => Some(records[i := record])
  }

  /** What one operation means for the notes when nothing else is going on. */
  function Apply(op: Operation, notes: Option<Notes>): Outcome {
    match op
    case Backfill(_) => Left(notes)
    case Import(staged, applied, _, parks) =>
      if staged.None? then Left(notes)
      else if notes.None? && !parks then Left(Some(staged.value.notes))
      else (match Imported(OrEmpty(notes), applied)
            case None => Refused
            case Some(merged) => Left(Some(merged)))
    case _ =>
      var before := OrEmpty(notes);
      match Rewrite(ContainerAt(before, op.attachment), op)
      case None => Refused
      case Some(records) => Left(Some(before[op.attachment := Records(records)]))
  }

  function FoldLog(notes: Option<Notes>, log: seq<Operation>): Outcome {
    if log == [] then Left(notes)
    else
      match FoldLog(notes, log[..|log| - 1])
      case Refused => Refused
      case Left(before) => Apply(log[|log| - 1], before)
  }

  // Objects an operation must keep reachable.

  function ObjectsOf(op: Operation): set<Oid> {
    match op
    case Append(attachment, record) => Oids(Needs(Entry(attachment, record)))
    case Replace(attachment, _, record) => Oids(Needs(Entry(attachment, record)))
    case Import(_, _, all, _) => Oids(AllNeeds(all))
    case Backfill(_) => {}
  }

  ghost predicate Kept(notes: Notes, reach: set<Oid>, except: set<Key>) {
    forall a, i :: a in notes && notes[a].Records? && 0 <= i < |notes[a].records| ==>
      KeyOf(notes[a].records[i]) in except || Reaches(a, notes[a].records[i], reach)
  }

  /** The commit a record is attached to and every object it references. */
  ghost predicate Reaches(a: Oid, r: Record, reach: set<Oid>) {
    a in reach && forall ref <- r.references :: ref.oid in reach
  }

  lemma {:induction false} NeededIsReached(a: Oid, r: Record, reach: set<Oid>)
    ensures Oids(Needs(Entry(a, r))) <= reach <==> Reaches(a, r, reach)
  {
    var needs := Needs(Entry(a, r));
    assert needs[0] == Reference(a, CommitObject);
    if Oids(needs) <= reach {
      assert needs[0].oid in Oids(needs);
      forall ref | ref in r.references ensures ref.oid in reach {
        var i :| 0 <= i < |r.references| && r.references[i] == ref;
        assert needs[i + 1] == ref && needs[i + 1].oid in Oids(needs);
      }
    } else {
      var o :| o in Oids(needs) && o !in reach;
      var i :| 0 <= i < |needs| && needs[i].oid == o;
      if i > 0 { assert needs[i] == r.references[i - 1]; }
    }
  }

  // Processes and the state they share.

  type Pid = nat

  datatype Local =
    | Idle
    | Waiting(op: Operation, stale: bool)
    | Holding(op: Operation)
    | Pinned(op: Operation, tip: Tip)
    | Reading(op: Operation, tip: Tip, retention: Option<Carrier>,
        read: map<Oid, Container>, tree: Option<Option<Notes>>)
    | Built(op: Operation, tip: Tip, retention: Option<Carrier>, next: Tip, carrier: Carrier)
    | Releasing(mine: bool)

  datatype State = State(
    lock: Option<Pid>,
    tip: Tip,
    retention: Option<Carrier>,
    procs: map<Pid, Local>,
    log: seq<Operation>)

  datatype Step =
    | Begin(op: Operation)
    | Claim
    | JudgeStale
    | Abandon
    | GiveUp
    | PinNotes
    | PinRetention
    | ReadContainer(attachment: Oid)
    | ReadTree
    | Build(objects: set<Oid>, carrier: Carrier)
    | Publish
    | Leave
    | CheckRelease
    | Remove
    | Crash

  function LocalOf(s: State, p: Pid): Local {
    if p in s.procs then s.procs[p] else Idle
  }

  function Go(s: State, p: Pid, l: Local): State {
    s.(procs := s.procs[p := l])
  }

  predicate Inside(l: Local) {
    l.Holding? || l.Pinned? || l.Reading? || l.Built? || l.Releasing?
  }

  function ParentOf(tip: Tip): seq<NotesCommit> {
    if tip.Some? then [tip.value] else []
  }

  /** The commit a writer builds from what it pinned and what it read, or None
      when it refuses. The inner option is None when the ref is left as it is. */
  function NextTip(l: Local, now: Tip): Option<Tip>
    requires l.Reading?
  {
    match l.op
    case Backfill(_) => Some(None)
    case Import(staged, applied, _, parks) =>
      if staged.None? then Some(None)
      else if l.tip.None? && !parks then Some(staged)
      else
        var base := if l.tip.None? then map[] else OrEmpty(NotesAt(now));
        (match ImportedOver(base, l.read, applied)
         case None => None
         case Some(merged) =>
           if l.tip.Some? && l.tree == Some(Some(merged)) then Some(None)
           else Some(Some(NotesCommit(ParentOf(l.tip) + [staged.value], merged))))
    case _ =>
      match Rewrite(ContainerAt(l.read, l.op.attachment), l.op)
      case None => None
      case Some(records) =>
        Some(Some(NotesCommit(ParentOf(l.tip), OrEmpty(NotesAt(l.tip))[l.op.attachment := Records(records)])))
  }

  /** The reads a writer makes before it builds. */
  predicate ReadEnough(l: Local)
    requires l.Reading?
  {
    match l.op
    case Backfill(_) => l.tree.Some?
    case Import(_, applied, _, _) => l.tree.Some? && Attachments(applied) <= l.read.Keys
    case _ => l.op.attachment in l.read
  }

  ghost predicate ObjectsToRetain(l: Local, objects: set<Oid>)
    requires l.Reading?
  {
    match l.op
    case Backfill(quarantined) => l.tree.Some? && Kept(OrEmpty(l.tree.value), objects, quarantined)
    case _ => objects == ObjectsOf(l.op)
  }

  ghost function Act(s: State, p: Pid, step: Step): Option<State> {
    var l := LocalOf(s, p);
    match step
    case Begin(op) => if l.Idle? then Some(Go(s, p, Waiting(op, false))) else None
    case Claim =>
      if l.Waiting? && s.lock.None? then Some(Go(s, p, Holding(l.op)).(lock := Some(p))) else None
    case JudgeStale =>
      if l.Waiting? && s.lock.Some? then Some(Go(s, p, Waiting(l.op, true))) else None
    case Abandon =>
      if l.Waiting? && l.stale then Some(Go(s, p, Waiting(l.op, false)).(lock := None)) else None
    case GiveUp => if l.Waiting? then Some(Go(s, p, Idle)) else None
    case PinNotes => if l.Holding? then Some(Go(s, p, Pinned(l.op, s.tip))) else None
    case PinRetention =>
      if l.Pinned? then Some(Go(s, p, Reading(l.op, l.tip, s.retention, map[], None))) else None
    case ReadContainer(a) =>
      if l.Reading? then Some(Go(s, p, l.(read := l.read[a := ContainerAt(OrEmpty(NotesAt(s.tip)), a)]))) else None
    case ReadTree =>
      if l.Reading? then Some(Go(s, p, l.(tree := Some(NotesAt(s.tip))))) else None
    case Build(objects, carrier) =>
      if l.Reading? && ReadEnough(l) && NextTip(l, s.tip).Some? &&
         ObjectsToRetain(l, objects) && Retains(carrier, objects, l.retention)
      then Some(Go(s, p, Built(l.op, l.tip, l.retention, NextTip(l, s.tip).value, carrier)))
      else None
    case Publish =>
      if l.Built? && l.tip == s.tip && l.retention == s.retention
      then Some(Go(s, p, Releasing(false)).(
                tip := if l.next.Some? then l.next else s.tip,
                retention := Some(l.carrier),
                log := s.log + [l.op]))
      else None
    case Leave => if Inside(l) && !l.Releasing? then Some(Go(s, p, Releasing(false))) else None
    case CheckRelease =>
      if l.Releasing? then Some(Go(s, p, if s.lock == Some(p) then Releasing(true) else Idle)) else None
    case Remove => if l.Releasing? && l.mine then Some(Go(s, p, Idle).(lock := None)) else None
    case Crash => Some(Go(s, p, Idle))
  }

  ghost function Exec(s: State, run: seq<(Pid, Step)>): Option<State> {
    if run == [] then Some(s)
    else
      match Exec(s, run[..|run| - 1])
      case None => None
      case Some(before) => Act(before, run[|run| - 1].0, run[|run| - 1].1)
  }

  /** Nobody is publishing yet. */
  predicate AtRest(s: State) {
    s.procs == map[] && s.log == []
  }

  // A commit is higher than every commit below it, so a ref that only moves
  // to commits built over its tip never comes back to an older one.

  function Height(c: NotesCommit): nat
    decreases c, 1
  {
    1 + Tallest(c.parents)
  }

  function Tallest(cs: seq<NotesCommit>): (r: nat)
    ensures forall i :: 0 <= i < |cs| ==> Height(cs[i]) <= r
    decreases cs, 0
  {
    if cs == [] then 0
    else
      var rest := Tallest(cs[1..]);
      assert forall i :: 1 <= i < |cs| ==> cs[i] == cs[1..][i - 1];
      if Height(cs[0]) > rest then Height(cs[0]) else rest
  }

  function TipHeight(tip: Tip): nat {
    if tip.Some? then Height(tip.value) else 0
  }

  ghost predicate Sees(read: map<Oid, Container>, tree: Option<Option<Notes>>, tip: Tip) {
    && (forall a <- read :: read[a] == ContainerAt(OrEmpty(NotesAt(tip)), a))
    && (tree.Some? ==> tree.value == NotesAt(tip))
  }

  /** What a process may rely on: it pinned a tip no higher than the one there
      is now, and if that is still the tip then everything read since was read
      from it. */
  ghost predicate Sound(l: Local, tip: Tip) {
    match l
    case Pinned(_, pinned) => TipHeight(pinned) <= TipHeight(tip)
    case Reading(_, pinned, _, read, tree) =>
      && TipHeight(pinned) <= TipHeight(tip)
      && (pinned == tip ==> Sees(read, tree, tip))
    case Built(op, pinned, retention, next, carrier) =>
      && TipHeight(pinned) <= TipHeight(tip)
      && (pinned == tip ==> Apply(op, NotesAt(tip)) == Left(NotesAt(if next.Some? then next else tip)))
      && (next.Some? ==> TipHeight(pinned) < TipHeight(next))
      && ObjectsOf(op) + Retained(retention) <= Reach(carrier)
    case _ => true
  }

  ghost predicate Invariant(s: State, base: Option<Notes>) {
    && FoldLog(base, s.log) == Left(NotesAt(s.tip))
    && forall p <- s.procs :: Sound(s.procs[p], s.tip)
  }

  lemma {:induction false} AboveParent(tip: Tip, more: seq<NotesCommit>, notes: Notes)
    ensures TipHeight(tip) < Height(NotesCommit(ParentOf(tip) + more, notes))
  {
    if tip.Some? {
      assert (ParentOf(tip) + more)[0] == tip.value;
    }
  }

  /** What a writer builds on a tip nobody moved is what its operation means. */
  lemma {:induction false} BuildsTheOperation(l: Local, tip: Tip)
    requires l.Reading? && ReadEnough(l) && NextTip(l, tip).Some?
    requires l.tip == tip ==> Sees(l.read, l.tree, tip)
    ensures var next := NextTip(l, tip).value;
            && (l.tip == tip ==> Apply(l.op, NotesAt(tip)) == Left(NotesAt(if next.Some? then next else tip)))
            && (next.Some? ==> TipHeight(l.tip) < TipHeight(next))
  {
    hide Imported, ImportedOver, Height, Rewrite;
    match l.op {
      case Backfill(_) =>
      case Import(staged, applied, _, parks) =>
        if staged.Some? {
          AboveParent(l.tip, [staged.value], map[]);
          HeightIgnoresNotes(ParentOf(l.tip) + [staged.value]);
          HeightIsPositive(staged.value);
          var base := OrEmpty(NotesAt(tip));
          if l.tip == tip && !(tip.None? && !parks) {
            assert forall a <- Attachments(applied) :: ContainerAt(l.read, a) == ContainerAt(base, a);
            MergedIsImported(base, l.read, applied);
          }
        }
      case _ =>
        AboveParent(l.tip, [], map[]);
        assert ParentOf(l.tip) + [] == ParentOf(l.tip);
        HeightIgnoresNotes(ParentOf(l.tip));
    }
  }

  lemma {:induction false} HeightIgnoresNotes(parents: seq<NotesCommit>)
    ensures forall a: Notes, b: Notes :: Height(NotesCommit(parents, a)) == Height(NotesCommit(parents, b))
  {}

  lemma {:induction false} HeightIsPositive(c: NotesCommit)
    ensures Height(c) > 0
  {}

  /** One process moves; the refs and the log change only when it publishes. */
  lemma {:induction false} StepShape(s: State, p: Pid, step: Step)
    requires Act(s, p, step).Some?
    ensures var t := Act(s, p, step).value;
            && t.procs == s.procs[p := LocalOf(t, p)]
            && (!step.Publish? ==> t.tip == s.tip && t.retention == s.retention && t.log == s.log)
  {
    hide NextTip, ReadEnough, ObjectsToRetain, Retains, ContainerAt;
  }

  lemma {:induction false} PublishShape(s: State, p: Pid)
    requires Act(s, p, Publish).Some?
    ensures var t, l := Act(s, p, Publish).value, LocalOf(s, p);
            && l.Built? && l.tip == s.tip && l.retention == s.retention
            && t.tip == (if l.next.Some? then l.next else s.tip)
            && t.retention == Some(l.carrier) && t.log == s.log + [l.op]
            && LocalOf(t, p) == Releasing(false)
  {}

  lemma {:induction false} OwnStepSound(s: State, p: Pid, step: Step)
    requires Sound(LocalOf(s, p), s.tip) && Act(s, p, step).Some? && !step.Publish?
    ensures Sound(LocalOf(Act(s, p, step).value, p), s.tip)
  {
    hide Apply, NextTip, Height, Kept, Reach, Ancestor, ObjectsOf, ReadEnough, ObjectsToRetain;
    if step.Build? {
      BuildsTheOperation(LocalOf(s, p), s.tip);
      RetainsItsObjects(LocalOf(s, p), step.objects);
    }
  }

  lemma {:induction false} StaysSound(l: Local, tip: Tip, next: Tip)
    requires Sound(l, tip) && (next == tip || TipHeight(tip) < TipHeight(next))
    ensures Sound(l, next)
  {
    hide Height, Apply, ObjectsOf, Reach;
  }

  lemma {:induction false} StepKeepsInvariant(s: State, p: Pid, step: Step, base: Option<Notes>)
    requires Invariant(s, base) && Act(s, p, step).Some?
    ensures Invariant(Act(s, p, step).value, base)
  {
    hide Act, Apply, Height, ObjectsOf, Reach, FoldLog, Sound;
    var l, t := LocalOf(s, p), Act(s, p, step).value;
    IdleIsSound(s, p);
    StepShape(s, p, step);
    if step.Publish? {
      PublishKeepsLog(s, p, base);
    } else {
      OwnStepSound(s, p, step);
    }
    forall q | q in t.procs ensures Sound(t.procs[q], t.tip) {
      if q != p { StaysSound(s.procs[q], s.tip, t.tip); }
    }
  }

  lemma {:induction false} IdleIsSound(s: State, p: Pid)
    requires forall q <- s.procs :: Sound(s.procs[q], s.tip)
    ensures Sound(LocalOf(s, p), s.tip)
  {
    if p in s.procs { hide Sound; }
  }

  /** Publishing adds to the log what it made of the notes, and moves the tip up. */
  lemma {:induction false} PublishKeepsLog(s: State, p: Pid, base: Option<Notes>)
    requires FoldLog(base, s.log) == Left(NotesAt(s.tip)) && Sound(LocalOf(s, p), s.tip) && Act(s, p, Publish).Some?
    ensures var t := Act(s, p, Publish).value;
            && FoldLog(base, t.log) == Left(NotesAt(t.tip)) && Sound(LocalOf(t, p), t.tip)
            && (t.tip == s.tip || TipHeight(s.tip) < TipHeight(t.tip))
  {
    PublishShape(s, p);
    hide Act, Apply, Height, ObjectsOf, Reach;
    var l, t := LocalOf(s, p), Act(s, p, Publish).value;
    assert t.log[..|t.log| - 1] == s.log;
    assert FoldLog(base, t.log) == Apply(l.op, NotesAt(s.tip));
  }

  lemma {:induction false} RetainsItsObjects(l: Local, objects: set<Oid>)
    requires l.Reading? && ObjectsToRetain(l, objects)
    ensures ObjectsOf(l.op) <= objects
  {}

  lemma {:induction false} RunKeepsInvariant(s: State, run: seq<(Pid, Step)>)
    requires AtRest(s) && Exec(s, run).Some?
    ensures Invariant(Exec(s, run).value, NotesAt(s.tip))
  {
    hide Act, Sound;
    if run != [] {
      RunKeepsInvariant(s, run[..|run| - 1]);
      var last := run[|run| - 1];
      StepKeepsInvariant(Exec(s, run[..|run| - 1]).value, last.0, last.1, NotesAt(s.tip));
    }
  }

  /** No writer's note is lost, in any interleaving, with any crashes and any
      takeovers of the lock: the notes are what the published operations make of
      the notes there were, one after another in the order they were published,
      and none of them would have been refused there. */
  lemma {:induction false} NothingIsLost(s: State, run: seq<(Pid, Step)>)
    requires AtRest(s) && Exec(s, run).Some?
    ensures var t := Exec(s, run).value;
            FoldLog(NotesAt(s.tip), t.log) == Left(NotesAt(t.tip))
  {
    RunKeepsInvariant(s, run);
  }

  /** `op` puts another record under the key of `r` at `a`, or replaces `r`. */
  predicate Disputes(op: Operation, a: Oid, r: Record) {
    match op
    case Append(attachment, record) => attachment == a && KeyOf(record) == KeyOf(r) && record != r
    case Replace(attachment, id, record) =>
      attachment == a && record != r && (KeyOf(record) == KeyOf(r) || KeyOf(r) == Named(id))
    case _ => false
  }

  ghost predicate InService(notes: Option<Notes>, a: Oid, r: Record) {
    notes.Some? && a in notes.value && notes.value[a].Records? && Speaks(notes.value[a].records, r)
  }

  lemma {:induction false} RewriteSpeaks(container: Container, op: Operation, r: Record)
    requires op.Append? || op.Replace?
    requires container.Records? && Speaks(container.records, r) && !Disputes(op, op.attachment, r)
    requires Rewrite(container, op).Some?
    ensures Speaks(Rewrite(container, op).value, r)
  {
    var after := Rewrite(container, op).value;
    var i :| 0 <= i < |container.records| && container.records[i] == r;
    assert after[i] == r;
  }

  lemma {:induction false} ApplyKeepsRecord(op: Operation, before: Option<Notes>, a: Oid, r: Record)
    requires InService(before, a, r) && !Disputes(op, a, r) && Apply(op, before).Left?
    ensures InService(Apply(op, before).notes, a, r)
  {
    hide CombinedAt;
    match op {
      case Backfill(_) =>
      case Import(staged, applied, _, _) =>
        if staged.Some? && a in Attachments(applied) { CombinedSpeaks(before.value, applied, a, r); }
      case _ =>
        if op.attachment == a { RewriteSpeaks(before.value[a], op, r); }
    }
  }

  /** What was published stays: a record appended under a fresh key is in its
      container after every later operation but one that replaces it or claims
      its key. */
  lemma {:induction false} AppendedRecordStays(notes: Option<Notes>, log: seq<Operation>, k: nat, a: Oid, r: Record)
    requires k < |log| && log[k] == Append(a, r) && FoldLog(notes, log).Left?
    requires forall i :: k < i < |log| ==> !Disputes(log[i], a, r)
    requires FoldLog(notes, log[..k]).Left? ==>
               var before := ContainerAt(OrEmpty(FoldLog(notes, log[..k]).notes), a);
               before.Records? ==> forall x <- before.records :: KeyOf(x) != KeyOf(r)
    requires r.id.Some?
    ensures InService(FoldLog(notes, log).notes, a, r)
  {
    hide CombinedAt, ImportedOver;
    var rest := log[..|log| - 1];
    if k < |rest| {
      assert rest[..k] == log[..k];
      AppendedRecordStays(notes, rest, k, a, r);
      hide Apply;
      ApplyKeepsRecord(log[|rest|], FoldLog(notes, rest).notes, a, r);
    } else {
      assert rest == log[..k];
      var after := FoldLog(notes, log).notes.value[a].records;
      assert after[|after| - 1] == r;
    }
  }

  // The lock alone does not keep writers apart.

  const PEER: Operation := Append(1, Record(Some(1), 0, 0, []))

  /** Two processes judge the same dead claim stale; the second removes the
      first one's fresh claim and both are inside. */
  lemma {:induction false} LockAdmitsTwoWriters()
    ensures var dead := State(Some(0), None, None, map[], []);
            var run := [(1, Begin(PEER)), (2, Begin(PEER)), (1, JudgeStale), (2, JudgeStale),
                        (1, Abandon), (1, Claim), (2, Abandon), (2, Claim)];
            AtRest(dead) && Exec(dead, run).Some? &&
            Inside(LocalOf(Exec(dead, run).value, 1)) && Inside(LocalOf(Exec(dead, run).value, 2))
  {
    var dead := State(Some(0), None, None, map[], []);
    var run := [(1, Begin(PEER)), (2, Begin(PEER)), (1, JudgeStale), (2, JudgeStale),
                (1, Abandon), (1, Claim), (2, Abandon), (2, Claim)];
    Unroll(dead, run[..1]); Unroll(dead, run[..2]); Unroll(dead, run[..3]); Unroll(dead, run[..4]);
    Unroll(dead, run[..5]); Unroll(dead, run[..6]); Unroll(dead, run[..7]); Unroll(dead, run[..8]);
    assert Exec(dead, run[..0]) == Some(dead);
    assert run[..8] == run;
  }

  lemma {:induction false} Unroll(s: State, run: seq<(Pid, Step)>)
    requires run != []
    ensures Exec(s, run) == match Exec(s, run[..|run| - 1])
                            case None => None
                            case Some(before) => Act(before, run[|run| - 1].0, run[|run| - 1].1)
    ensures forall n :: 0 <= n < |run| ==> run[..|run| - 1][..n] == run[..n]
  {}

  /** A step that takes the lock away from nobody who is inside. */
  predicate Orderly(s: State, p: Pid, step: Step) {
    match step
    case Abandon => s.lock.Some? ==> !Inside(LocalOf(s, s.lock.value))
    case Remove => s.lock == Some(p)
    case _ => true
  }

  ghost predicate OrderlyRun(s: State, run: seq<(Pid, Step)>) {
    forall n :: 0 <= n < |run| && Exec(s, run[..n]).Some? ==>
      Orderly(Exec(s, run[..n]).value, run[n].0, run[n].1)
  }

  /** While nothing takes the lock from a writer inside, at most one is. */
  lemma {:induction false} OrderlyRunsExclude(s: State, run: seq<(Pid, Step)>, p: Pid, q: Pid)
    requires AtRest(s) && Exec(s, run).Some? && OrderlyRun(s, run)
    requires Inside(LocalOf(Exec(s, run).value, p)) && Inside(LocalOf(Exec(s, run).value, q))
    ensures p == q
  {
    InsideHoldsLock(s, run, p);
    InsideHoldsLock(s, run, q);
  }

  lemma {:induction false} InsideHoldsLock(s: State, run: seq<(Pid, Step)>, p: Pid)
    requires AtRest(s) && Exec(s, run).Some? && OrderlyRun(s, run)
    requires Inside(LocalOf(Exec(s, run).value, p))
    ensures Exec(s, run).value.lock == Some(p)
  {
    hide Exec, Orderly;
    Unroll0(s);
    if run != [] {
      var rest, last := run[..|run| - 1], run[|run| - 1];
      Unroll(s, run);
      var before := Exec(s, rest).value;
      assert OrderlyRun(s, rest) by {
        forall n | 0 <= n < |rest| && Exec(s, rest[..n]).Some?
          ensures Orderly(Exec(s, rest[..n]).value, rest[n].0, rest[n].1)
        {
          assert rest[..n] == run[..n];
        }
      }
      assert Orderly(before, last.0, last.1);
      if Inside(LocalOf(before, p)) { InsideHoldsLock(s, rest, p); }
      if Inside(LocalOf(before, last.0)) { InsideHoldsLock(s, rest, last.0); }
      OrderlyStep(before, last.0, last.1, p);
    }
  }

  lemma {:induction false} Unroll0(s: State)
    ensures Exec(s, []) == Some(s)
  {}

  lemma {:induction false} OrderlyStep(s: State, q: Pid, step: Step, p: Pid)
    requires Act(s, q, step).Some? && Orderly(s, q, step)
    requires Inside(LocalOf(s, p)) ==> s.lock == Some(p)
    requires Inside(LocalOf(s, q)) ==> s.lock == Some(q)
    requires Inside(LocalOf(Act(s, q, step).value, p))
    ensures Act(s, q, step).value.lock == Some(p)
  {
    hide Retains, ReadEnough, ObjectsToRetain, NextTip, ContainerAt;
  }

  ghost predicate OneInside(s: State) {
    forall p, q :: Inside(LocalOf(s, p)) && Inside(LocalOf(s, q)) ==> p == q
  }

  /** At no point of a run are two writers inside, nor would they be if a waiter
      claimed a free lock there. */
  ghost predicate Excludes(s: State, run: seq<(Pid, Step)>) {
    forall n :: 0 <= n <= |run| && Exec(s, run[..n]).Some? ==> ExcludesAt(Exec(s, run[..n]).value)
  }

  ghost predicate ExcludesAt(now: State) {
    OneInside(now) && forall r: Pid :: Act(now, r, Claim).Some? ==> OneInside(Act(now, r, Claim).value)
  }

  /** A run keeps writers apart if and only if no step of it takes the lock from
      a writer inside: the first that does lets the thief in beside it. */
  lemma {:induction false} OrderlyIffExclusive(s: State, run: seq<(Pid, Step)>)
    requires AtRest(s) && Exec(s, run).Some?
    ensures OrderlyRun(s, run) <==> Excludes(s, run)
  {
    hide Exec, Act, Orderly, ExcludesAt;
    if OrderlyRun(s, run) {
      forall n | 0 <= n <= |run| && Exec(s, run[..n]).Some? ensures ExcludesAt(Exec(s, run[..n]).value) {
        PrefixIsOrderly(s, run, n);
        OrderlyExcludesAt(s, run[..n]);
      }
    } else {
      var n := FirstDisorder(s, run);
      PrefixIsOrderly(s, run[..n], n);
      assert run[..n][..n] == run[..n];
      PrefixRuns(s, run, n + 1);
      Unroll(s, run[..n + 1]);
      assert run[..n + 1][..n] == run[..n];
      DisorderLetsTwoIn(s, run[..n], run[n].0, run[n].1);
    }
  }

  lemma {:induction false} PrefixRuns(s: State, run: seq<(Pid, Step)>, n: nat)
    requires n <= |run| && Exec(s, run).Some?
    ensures Exec(s, run[..n]).Some?
    decreases |run|
  {
    hide Act;
    if n == |run| {
      assert run[..n] == run;
    } else {
      assert run[..|run| - 1][..n] == run[..n];
      PrefixRuns(s, run[..|run| - 1], n);
    }
  }

  lemma {:induction false} PrefixIsOrderly(s: State, run: seq<(Pid, Step)>, n: nat)
    requires n <= |run| && OrderlyRun(s, run)
    ensures OrderlyRun(s, run[..n])
  {
    hide Exec, Orderly;
    forall k | 0 <= k < n && Exec(s, run[..n][..k]).Some?
      ensures Orderly(Exec(s, run[..n][..k]).value, run[..n][k].0, run[..n][k].1)
    {
      assert run[..n][..k] == run[..k];
    }
  }

  /** The steps before it are orderly. */
  lemma {:induction false} FirstDisorder(s: State, run: seq<(Pid, Step)>) returns (n: nat)
    requires Exec(s, run).Some? && !OrderlyRun(s, run)
    ensures n < |run| && OrderlyRun(s, run[..n]) && Exec(s, run[..n]).Some?
    ensures !Orderly(Exec(s, run[..n]).value, run[n].0, run[n].1)
  {
    hide Exec, Orderly;
    n := 0;
    while Exec(s, run[..n]).None? || Orderly(Exec(s, run[..n]).value, run[n].0, run[n].1)
      invariant n < |run|
      invariant forall k :: 0 <= k < n && Exec(s, run[..k]).Some? ==> Orderly(Exec(s, run[..k]).value, run[k].0, run[k].1)
      decreases |run| - n
    {
      n := n + 1;
      if n == |run| { assert false; }
    }
    forall k | 0 <= k < n && Exec(s, run[..n][..k]).Some?
      ensures Orderly(Exec(s, run[..n][..k]).value, run[..n][k].0, run[..n][k].1)
    {
      assert run[..n][..k] == run[..k];
    }
  }

  lemma {:induction false} OrderlyExcludesAt(s: State, run: seq<(Pid, Step)>)
    requires AtRest(s) && Exec(s, run).Some? && OrderlyRun(s, run)
    ensures ExcludesAt(Exec(s, run).value)
  {
    hide Exec, Act;
    var now := Exec(s, run).value;
    forall p, q | Inside(LocalOf(now, p)) && Inside(LocalOf(now, q)) ensures p == q {
      OrderlyRunsExclude(s, run, p, q);
    }
    forall r: Pid | Act(now, r, Claim).Some? ensures OneInside(Act(now, r, Claim).value) {
      var more := run + [(r, Claim)];
      Unroll(s, more);
      assert more[..|run|] == run;
      forall k | 0 <= k < |more| && Exec(s, more[..k]).Some? ensures Orderly(Exec(s, more[..k]).value, more[k].0, more[k].1) {
        assert k < |run| ==> more[..k] == run[..k];
      }
      forall p, q | Inside(LocalOf(Exec(s, more).value, p)) && Inside(LocalOf(Exec(s, more).value, q)) ensures p == q {
        OrderlyRunsExclude(s, more, p, q);
      }
    }
  }

  /** A first disorderly step is a waiter abandoning the claim of a writer who is
      inside; its own claim then succeeds. */
  lemma {:induction false} DisorderLetsTwoIn(s: State, run: seq<(Pid, Step)>, p: Pid, step: Step)
    requires AtRest(s) && Exec(s, run).Some? && OrderlyRun(s, run)
    requires var now := Exec(s, run).value; !Orderly(now, p, step) && Act(now, p, step).Some?
    ensures var now := Exec(s, run).value;
            && step.Abandon? && now.lock.Some? && Inside(LocalOf(now, now.lock.value))
            && var stolen := Act(now, p, step).value;
               && Act(stolen, p, Claim).Some?
               && Inside(LocalOf(Act(stolen, p, Claim).value, p)) && Inside(LocalOf(Act(stolen, p, Claim).value, now.lock.value))
               && p != now.lock.value
    ensures !ExcludesAt(Act(Exec(s, run).value, p, step).value)
  {
    hide Exec, Retains, ReadEnough, ObjectsToRetain, NextTip, ContainerAt;
    var now := Exec(s, run).value;
    if step.Remove? { InsideHoldsLock(s, run, p); }
    var stolen := Act(now, p, step).value;
    var thief := Act(stolen, p, Claim).value;
    assert Inside(LocalOf(thief, p)) && Inside(LocalOf(thief, now.lock.value));
  }

  // The chain of notes commits.

  ghost predicate Below(a: NotesCommit, c: NotesCommit)
    decreases c
  {
    a == c || exists i :: 0 <= i < |c.parents| && Below(a, c.parents[i])
  }

  lemma {:induction false} BelowChains(a: NotesCommit, b: NotesCommit, c: NotesCommit)
    requires Below(a, b) && Below(b, c)
    ensures Below(a, c)
    decreases c
  {
    if b != c {
      var i :| 0 <= i < |c.parents| && Below(b, c.parents[i]);
      BelowChains(a, b, c.parents[i]);
    }
  }

  /** A built commit stands on the tip its writer pinned. */
  ghost predicate Stands(l: Local) {
    l.Built? && l.tip.Some? && l.next.Some? ==> l.tip.value in l.next.value.parents
  }

  /** The notes ref only grows: the commit it named is below the one it names. */
  lemma {:induction false} HistoryGrows(s: State, run: seq<(Pid, Step)>)
    requires AtRest(s) && s.tip.Some? && Exec(s, run).Some?
    ensures var t := Exec(s, run).value;
            && t.tip.Some? && Below(s.tip.value, t.tip.value)
            && forall p <- t.procs :: Stands(t.procs[p])
  {
    hide Below, ReadEnough, ObjectsToRetain, Retains, ImportedOver, Rewrite, ContainerAt;
    if run == [] {
      BelowItself(s.tip.value);
    } else {
      HistoryGrows(s, run[..|run| - 1]);
      var before, p, step := Exec(s, run[..|run| - 1]).value, run[|run| - 1].0, run[|run| - 1].1;
      var l := LocalOf(before, p);
      assert Stands(l);
      if step.Publish? && l.next.Some? {
        BelowParent(before.tip.value, l.next.value);
        BelowChains(s.tip.value, before.tip.value, l.next.value);
      }
    }
  }

  lemma {:induction false} BelowItself(c: NotesCommit)
    ensures Below(c, c)
  {}

  lemma {:induction false} BelowParent(a: NotesCommit, c: NotesCommit)
    requires a in c.parents
    ensures Below(a, c)
  {
    var i :| 0 <= i < |c.parents| && c.parents[i] == a;
    BelowItself(a);
  }

  // Retention.

  /** Everything an operation publishes is in what it keeps reachable. A rewrite
      names its own record; an import must not adopt or merge more than its
      inventory lists. */
  ghost predicate Inventoried(op: Operation) {
    op.Import? ==>
      && (forall e <- op.applied :: e in op.all)
      && (op.staged.Some? ==> Kept(op.staged.value.notes, Oids(AllNeeds(op.all)), {}))
  }

  lemma {:induction false} NeedsOfListed(entries: seq<Entry>, e: Entry)
    requires e in entries
    ensures Oids(Needs(e)) <= Oids(AllNeeds(entries))
  {
    var rest, last := entries[..|entries| - 1], entries[|entries| - 1];
    assert entries == rest + [last];
    var all, before := AllNeeds(entries), AllNeeds(rest);
    assert all == before + Needs(last);
    if e == last {
      forall o | o in Oids(Needs(e)) ensures o in Oids(all) {
        var i :| 0 <= i < |Needs(e)| && Needs(e)[i].oid == o;
        assert all[|before| + i] == Needs(e)[i];
      }
    } else {
      NeedsOfListed(rest, e);
      forall o | o in Oids(before) ensures o in Oids(all) {
        var i :| 0 <= i < |before| && before[i].oid == o;
        assert all[i] == before[i];
      }
    }
  }

  /** A record an import leaves in a container was there or was incoming. */
  lemma {:induction false} CombinedFrom(notes: Notes, entries: seq<Entry>, a: Oid)
    requires CombinedAt(notes, entries, a).Some?
    ensures ContainerAt(notes, a).Records?
    ensures forall r <- CombinedAt(notes, entries, a).value ::
              r in ContainerAt(notes, a).records || Entry(a, r) in entries
    ensures UniqueKeys(CombinedAt(notes, entries, a).value)
  {
    hide Precedes, Insert, Sorted, Keyed, Join, GroupAt, UniqueKeys;
    var records, group := ContainerAt(notes, a).records, GroupAt(entries, a);
    KeyedFacts(records);
    JoinFacts(Keyed(records), Sorted(group));
    SortedKeeps(group);
    SortedKeeps(Join(Keyed(records), Sorted(group)).value);
    GroupHolds(entries, a);
  }

  lemma {:induction false} ApplyKeepsObjects(op: Operation, before: Option<Notes>, reach: set<Oid>)
    requires Inventoried(op) && Kept(OrEmpty(before), reach, {}) && ObjectsOf(op) <= reach
    requires Apply(op, before).Left?
    ensures Kept(OrEmpty(Apply(op, before).notes), reach, {})
  {
    hide CombinedAt, AllNeeds, Needs, Oids, IndexOf, Reaches;
    var notes, after := OrEmpty(before), OrEmpty(Apply(op, before).notes);
    match op {
      case Backfill(_) =>
      case Import(staged, applied, all, parks) =>
        if staged.Some? && before.None? && !parks { KeptMore(staged.value.notes, Oids(AllNeeds(all)), reach); }
        if staged.Some? && (before.Some? || parks) {
          forall a, i | a in after && after[a].Records? && 0 <= i < |after[a].records|
            ensures Reaches(a, after[a].records[i], reach)
          {
            if a in Attachments(applied) {
              CombinedFrom(notes, applied, a);
              var r := after[a].records[i];
              assert r in after[a].records;
              if Entry(a, r) in applied { NeedsOfListed(all, Entry(a, r)); }
              NeededIsReached(a, r, reach);
            }
          }
        }
      case _ =>
        var a := op.attachment;
        NeededIsReached(a, op.record, reach);
        LegacyReaches(a, op.record, reach);
    }
  }

  lemma {:induction false} LegacyReaches(a: Oid, r: Record, reach: set<Oid>)
    requires Reaches(a, r, reach)
    ensures forall t :: Reaches(a, LegacyRecord(t), reach)
  {}

  ghost predicate AllInventoried(log: seq<Operation>) {
    forall i :: 0 <= i < |log| ==> Inventoried(log[i])
  }

  lemma {:induction false} KeptMore(notes: Notes, small: set<Oid>, large: set<Oid>)
    requires Kept(notes, small, {}) && small <= large
    ensures Kept(notes, large, {})
  {}

  lemma {:induction false} PublishKeepsClosed(s: State, p: Pid)
    requires Sound(LocalOf(s, p), s.tip) && Act(s, p, Publish).Some? && Inventoried(LocalOf(s, p).op)
    requires Kept(OrEmpty(NotesAt(s.tip)), Retained(s.retention), {})
    ensures var t := Act(s, p, Publish).value;
            Kept(OrEmpty(NotesAt(t.tip)), Retained(t.retention), {})
  {
    PublishShape(s, p);
    hide Act, Kept, Reach, Apply, ObjectsOf, Inventoried, Height;
    var l := LocalOf(s, p);
    KeptMore(OrEmpty(NotesAt(s.tip)), Retained(s.retention), Reach(l.carrier));
    ApplyKeepsObjects(l.op, NotesAt(s.tip), Reach(l.carrier));
  }

  /** Retention closure: if the commit every published record is attached to, and
      every object it references, were reachable from the retention ref, they are
      after any run of appends, replacements, imports and backfills. */
  lemma {:induction false} RetentionStaysClosed(s: State, run: seq<(Pid, Step)>)
    requires AtRest(s) && Exec(s, run).Some? && AllInventoried(Exec(s, run).value.log)
    requires s.tip.Some? ==> AllReach(s.tip.value.notes, Retained(s.retention))
    ensures var t := Exec(s, run).value;
            t.tip.Some? ==> AllReach(t.tip.value.notes, Retained(t.retention))
  {
    hide Exec, AllInventoried, Retained;
    KeptFields(OrEmpty(NotesAt(s.tip)), Retained(s.retention));
    StaysClosed(s, run);
    var t := Exec(s, run).value;
    KeptFields(OrEmpty(NotesAt(t.tip)), Retained(t.retention));
  }

  /** Of every record: the commit it hangs on, and each object it references. */
  ghost predicate AllReach(notes: Notes, reach: set<Oid>) {
    forall a, r :: a in notes && notes[a].Records? && r in notes[a].records ==>
      && a in reach
      && forall j :: 0 <= j < |r.references| ==> r.references[j].oid in reach
  }

  lemma {:induction false} KeptFields(notes: Notes, reach: set<Oid>)
    ensures Kept(notes, reach, {}) <==> AllReach(notes, reach)
  {
    if AllReach(notes, reach) {
      forall a, i | a in notes && notes[a].Records? && 0 <= i < |notes[a].records| ensures Reaches(a, notes[a].records[i], reach) {
        var r := notes[a].records[i];
        assert r in notes[a].records;
        ReachesAll(a, r, reach);
      }
    }
    if Kept(notes, reach, {}) {
      forall a, r | a in notes && notes[a].Records? && r in notes[a].records
        ensures a in reach && forall j :: 0 <= j < |r.references| ==> r.references[j].oid in reach
      {
        var i :| 0 <= i < |notes[a].records| && notes[a].records[i] == r;
        assert Reaches(a, notes[a].records[i], reach);
        ReachesAll(a, r, reach);
      }
    }
  }

  lemma {:induction false} ReachesAll(a: Oid, r: Record, reach: set<Oid>)
    ensures Reaches(a, r, reach) <==> a in reach && forall j :: 0 <= j < |r.references| ==> r.references[j].oid in reach
  {
    if Reaches(a, r, reach) {
      forall j | 0 <= j < |r.references| ensures r.references[j].oid in reach { assert r.references[j] in r.references; }
    }
  }

  lemma {:induction false} StaysClosed(s: State, run: seq<(Pid, Step)>)
    requires AtRest(s) && Exec(s, run).Some? && AllInventoried(Exec(s, run).value.log)
    requires Kept(OrEmpty(NotesAt(s.tip)), Retained(s.retention), {})
    ensures var t := Exec(s, run).value;
            Kept(OrEmpty(NotesAt(t.tip)), Retained(t.retention), {})
  {
    hide Act, Kept, Inventoried, Sound, Retained;
    if run != [] {
      var rest, last := run[..|run| - 1], run[|run| - 1];
      var before, t := Exec(s, rest).value, Exec(s, run).value;
      StepShape(before, last.0, last.1);
      if last.1.Publish? {
        PublishShape(before, last.0);
        assert t.log[|before.log|] == LocalOf(before, last.0).op;
      }
      assert forall i :: 0 <= i < |before.log| ==> t.log[i] == before.log[i];
      StaysClosed(s, rest);
      RunKeepsInvariant(s, rest);
      if last.1.Publish? {
        assert last.0 in before.procs;
        PublishKeepsClosed(before, last.0);
      }
    }
  }

  /** A backfill makes the retention ref cover what it missed: whatever the ref
      held before, every record the inspection did not quarantine is kept. */
  lemma {:induction false} BackfillCloses(s: State, p: Pid, objects: set<Oid>, carrier: Carrier, base: Option<Notes>)
    requires Invariant(s, base)
    requires var l := LocalOf(s, p); l.Reading? && l.op.Backfill? && l.tip == s.tip && l.retention == s.retention
    requires Act(s, p, Build(objects, carrier)).Some?
    ensures var built := Act(s, p, Build(objects, carrier)).value;
            var t := Act(built, p, Publish);
            && t.Some? && t.value.tip == s.tip
            && (s.tip.Some? ==>
                  var notes := s.tip.value.notes;
                  forall a, i :: a in notes && notes[a].Records? && 0 <= i < |notes[a].records| ==>
                    || KeyOf(notes[a].records[i]) in LocalOf(s, p).op.quarantined
                    || (a in Retained(t.value.retention) && forall ref <- notes[a].records[i].references :: ref.oid in Retained(t.value.retention)))
            && Retained(s.retention) <= Retained(t.value.retention)
  {
    hide Reach, Ancestor, Oids, Needs;
    var l := LocalOf(s, p);
    assert Sound(l, s.tip);
    assert objects <= Reach(carrier);
  }
}
