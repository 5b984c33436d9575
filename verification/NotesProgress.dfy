/** What a writer of the notes ref gets done when nobody interferes: the steps it
    takes are all possible, whatever state it starts from. */
module NotesProgress {
  import opened Git
  import opened NoteRecords
  import opened GitCarriers
  import opened NotesProtocol

  type Run = seq<(Pid, Step)>

  /** A writer killed wherever it was starts over, waits for the lock or takes it
      over as stale, and pins both refs. */
  function Entering(p: Pid, op: Operation, held: bool): Run {
    [(p, Crash), (p, Begin(op))] + (if held then [(p, JudgeStale), (p, Abandon)] else []) +
    [(p, Claim), (p, PinNotes), (p, PinRetention)]
  }

  function Reads(p: Pid, op: Operation): Run {
    match op
    case Backfill(_) => [(p, ReadTree)]
    case Import(_, applied, _, _) => ContainerReads(p, applied) + [(p, ReadTree)]
    case _ => [(p, ReadContainer(op.attachment))]
  }

  function ContainerReads(p: Pid, entries: seq<Entry>): Run {
    if entries == [] then []
    else ContainerReads(p, entries[..|entries| - 1]) + [(p, ReadContainer(entries[|entries| - 1].attachment))]
  }

  /** Until it has read what it builds from. */
  function Upto(s: State, p: Pid, op: Operation): Run {
    Entering(p, op, s.lock.Some?) + Reads(p, op)
  }

  function Publishing(p: Pid, objects: set<Oid>, carrier: Carrier): Run {
    [(p, Build(objects, carrier)), (p, Publish), (p, CheckRelease), (p, Remove)]
  }

  function Leaving(p: Pid): Run {
    [(p, Leave), (p, CheckRelease), (p, Remove)]
  }

  lemma {:induction false} ExecThen(s: State, first: Run, second: Run)
    ensures Exec(s, first + second) ==
            match Exec(s, first)
            case None => None
            case Some(t) => Exec(t, second)
  {
    hide Act;
    if second == [] {
      assert first + second == first;
    } else {
      var rest, last := second[..|second| - 1], second[|second| - 1];
      assert (first + second)[..|first + second| - 1] == first + rest;
      ExecThen(s, first, rest);
    }
  }

  lemma {:induction false} ExecOne(s: State, p: Pid, step: Step)
    ensures Exec(s, [(p, step)]) == Act(s, p, step)
  {
    hide Act;
    assert [(p, step)][..0] == [];
    assert Exec(s, []) == Some(s);
  }

  /** One more step at the end of a run that went through. */
  lemma {:induction false} Then(s: State, run: Run, p: Pid, step: Step)
    requires Exec(s, run).Some?
    ensures Exec(s, run + [(p, step)]) == Act(Exec(s, run).value, p, step)
  {
    hide Act;
    ExecThen(s, run, [(p, step)]);
    ExecOne(Exec(s, run).value, p, step);
  }

  /** Only `p` moved, and no ref. */
  ghost predicate OnlyMoved(s: State, t: State, p: Pid) {
    t.tip == s.tip && t.retention == s.retention && t.log == s.log && forall q :: q != p ==> LocalOf(t, q) == LocalOf(s, q)
  }

  lemma {:induction false} Enters(s: State, p: Pid, op: Operation)
    ensures Exec(s, Entering(p, op, s.lock.Some?)).Some?
    ensures var t := Exec(s, Entering(p, op, s.lock.Some?)).value;
            OnlyMoved(s, t, p) && t.lock == Some(p) && LocalOf(t, p) == Reading(op, s.tip, s.retention, map[], None)
  {
    hide Exec, ReadEnough, NextTip, ObjectsToRetain, Retains, ContainerAt;
    var crash, begin := [(p, Crash)], [(p, Crash), (p, Begin(op))];
    ExecOne(s, p, Crash);
    assert begin == crash + [(p, Begin(op))];
    Then(s, crash, p, Begin(op));
    var waiting := begin + if s.lock.Some? then [(p, JudgeStale), (p, Abandon)] else [];
    if s.lock.Some? {
      Then(s, begin, p, JudgeStale);
      assert waiting == begin + [(p, JudgeStale)] + [(p, Abandon)];
      Then(s, begin + [(p, JudgeStale)], p, Abandon);
    } else {
      assert waiting == begin;
    }
    Then(s, waiting, p, Claim);
    Then(s, waiting + [(p, Claim)], p, PinNotes);
    Then(s, waiting + [(p, Claim)] + [(p, PinNotes)], p, PinRetention);
    assert Entering(p, op, s.lock.Some?) == waiting + [(p, Claim)] + [(p, PinNotes)] + [(p, PinRetention)];
  }

  lemma {:induction false} ReadsOne(s: State, p: Pid, a: Oid)
    requires LocalOf(s, p).Reading?
    ensures Act(s, p, ReadContainer(a)).Some?
    ensures var l, t := LocalOf(s, p), Act(s, p, ReadContainer(a)).value;
            && OnlyMoved(s, t, p) && t.lock == s.lock
            && LocalOf(t, p) == l.(read := l.read[a := ContainerAt(OrEmpty(NotesAt(s.tip)), a)])
  {
    hide ReadEnough, NextTip, ObjectsToRetain, Retains, ContainerAt;
  }

  lemma {:induction false} ReadsContainers(s: State, p: Pid, entries: seq<Entry>)
    requires LocalOf(s, p).Reading?
    ensures Exec(s, ContainerReads(p, entries)).Some?
    ensures var t := Exec(s, ContainerReads(p, entries)).value;
            var before, after := LocalOf(s, p), LocalOf(t, p);
            && OnlyMoved(s, t, p) && t.lock == s.lock
            && after.Reading? && after == before.(read := after.read)
            && before.read.Keys + Attachments(entries) == after.read.Keys
            && forall a <- after.read ::
                 if a in Attachments(entries) then after.read[a] == ContainerAt(OrEmpty(NotesAt(s.tip)), a)
                 else a in before.read && after.read[a] == before.read[a]
  {
    hide Act, Attachments, ContainerAt;
    if entries == [] {
      assert Attachments(entries) == {} by { NoneAttached(); }
      assert Exec(s, []) == Some(s);
    } else {
      hide Exec;
      var rest, last := entries[..|entries| - 1], entries[|entries| - 1];
      ReadsContainers(s, p, rest);
      Then(s, ContainerReads(p, rest), p, ReadContainer(last.attachment));
      ReadsOne(Exec(s, ContainerReads(p, rest)).value, p, last.attachment);
      assert Attachments(entries) == Attachments(rest) + {last.attachment} by {
        MoreAttached(rest, last);
        assert entries == rest + [last];
      }
    }
  }

  lemma {:induction false} NoneAttached()
    ensures Attachments([]) == {}
  {}

  lemma {:induction false} MoreAttached(rest: seq<Entry>, last: Entry)
    ensures Attachments(rest + [last]) == Attachments(rest) + {last.attachment}
  {
    var all := rest + [last];
    forall a ensures a in Attachments(all) <==> a in Attachments(rest) + {last.attachment} {
      if i :| 0 <= i < |rest| && rest[i].attachment == a { assert all[i].attachment == a; }
      if i :| 0 <= i < |all| && all[i].attachment == a {
        if i < |rest| { assert rest[i].attachment == a; }
      }
      assert all[|rest|].attachment == last.attachment;
    }
  }

  /** It gets as far as having read, from the tip it pinned, all it builds from. */
  lemma {:induction false} GetsToRead(s: State, p: Pid, op: Operation)
    ensures Exec(s, Upto(s, p, op)).Some?
    ensures var t := Exec(s, Upto(s, p, op)).value; var l := LocalOf(t, p);
            && OnlyMoved(s, t, p) && t.lock == Some(p)
            && l.Reading? && l.op == op && l.tip == s.tip && l.retention == s.retention
            && ReadEnough(l) && Sees(l.read, l.tree, s.tip)
  {
    hide Exec, NextTip, ObjectsToRetain, Retains, ContainerAt;
    var enter := Entering(p, op, s.lock.Some?);
    Enters(s, p, op);
    var inside := Exec(s, enter).value;
    ExecThen(s, enter, Reads(p, op));
    match op {
      case Backfill(_) => ExecOne(inside, p, ReadTree);
      case Import(_, applied, _, _) =>
        ReadsContainers(inside, p, applied);
        Then(inside, ContainerReads(p, applied), p, ReadTree);
      case _ => ExecOne(inside, p, ReadContainer(op.attachment));
    }
  }

  /** What a writer read in full of a tip nobody moved can be built if and only if
      its operation is not refused there. */
  lemma {:induction false} BuildsIff(l: Local, tip: Tip)
    requires l.Reading? && ReadEnough(l) && l.tip == tip && Sees(l.read, l.tree, tip)
    ensures NextTip(l, tip).Some? <==> Apply(l.op, NotesAt(tip)).Left?
  {
    hide Imported, ImportedOver, Rewrite;
    match l.op {
      case Backfill(_) =>
      case Import(staged, applied, _, parks) =>
        var base := OrEmpty(NotesAt(tip));
        assert forall a <- Attachments(applied) :: ContainerAt(l.read, a) == ContainerAt(base, a);
        MergedIsImported(base, l.read, applied);
      case _ =>
    }
  }

  /** The commit it builds has the pinned tip as its first parent, and carries the
      history of the envelope it merges, unless it is the envelope's own commit. */
  lemma {:induction false} BuildsOver(l: Local, tip: Tip)
    requires l.Reading? && NextTip(l, tip).Some? && NextTip(l, tip).value.Some?
    ensures Over(l.op, l.tip, NextTip(l, tip).value.value)
  {}

  ghost predicate Over(op: Operation, tip: Tip, built: NotesCommit) {
    && (tip.Some? ==> built.parents != [] && built.parents[0] == tip.value)
    && (op.Import? ==> op.staged.Some? && (built == op.staged.value || op.staged.value in built.parents))
  }

  /** Nobody else has to finish first: from every state, whatever the writer and
      all others were in the middle of, and whoever has the lock, the writer can
      publish. It does exactly when its operation is not refused by the notes of
      the tip; then they are what the operation makes of them, the object
      dependencies are retained, and the lock is free. */
  lemma {:induction false} WriterCompletes(s: State, p: Pid, op: Operation, objects: set<Oid>, carrier: Carrier)
    requires if op.Backfill? then Kept(OrEmpty(NotesAt(s.tip)), objects, op.quarantined) else objects == ObjectsOf(op)
    requires Retains(carrier, objects, s.retention)
    ensures var done := Exec(s, Upto(s, p, op) + Publishing(p, objects, carrier));
            && (done.Some? <==> Apply(op, NotesAt(s.tip)).Left?)
            && (done.Some? ==>
                  && Apply(op, NotesAt(s.tip)) == Left(NotesAt(done.value.tip))
                  && (done.value.tip == s.tip || (done.value.tip.Some? && Over(op, s.tip, done.value.tip.value)))
                  && done.value.retention == Some(carrier) && done.value.log == s.log + [op]
                  && done.value.lock.None? && LocalOf(done.value, p) == Idle
                  && forall q :: q != p ==> LocalOf(done.value, q) == LocalOf(s, q))
  {
    hide Exec, Act, Apply, Kept, Retains, ObjectsOf, Upto, Height, NextTip, Publishing, ReadEnough;
    GetsToRead(s, p, op);
    var upto := Upto(s, p, op);
    var read := Exec(s, upto).value;
    var l := LocalOf(read, p);
    BuildsIff(l, s.tip);
    ExecThen(s, upto, Publishing(p, objects, carrier));
    if NextTip(l, s.tip).Some? {
      BuildsTheOperation(l, s.tip);
      if NextTip(l, s.tip).value.Some? { BuildsOver(l, s.tip); }
      CanBuild(read, p, objects, carrier);
      Publishes(read, p, objects, carrier);
    } else {
      CannotPublish(read, p, objects, carrier);
    }
  }

  lemma {:induction false} Publishes(s: State, p: Pid, objects: set<Oid>, carrier: Carrier)
    requires Act(s, p, Build(objects, carrier)).Some? && s.lock == Some(p)
    requires var l := LocalOf(s, p); l.tip == s.tip && l.retention == s.retention
    ensures Exec(s, Publishing(p, objects, carrier)).Some?
    ensures var l, t := LocalOf(s, p), Exec(s, Publishing(p, objects, carrier)).value;
            && l.Reading? && NextTip(l, s.tip).Some?
            && t.tip == (if NextTip(l, s.tip).value.Some? then NextTip(l, s.tip).value else s.tip)
            && t.retention == Some(carrier) && t.log == s.log + [l.op] && t.lock.None? && LocalOf(t, p) == Idle
            && forall q :: q != p ==> LocalOf(t, q) == LocalOf(s, q)
  {
    hide Exec, Kept, Retains, ObjectsToRetain, NextTip, ReadEnough;
    var build, publish := [(p, Build(objects, carrier))], [(p, Build(objects, carrier)), (p, Publish)];
    ExecOne(s, p, Build(objects, carrier));
    assert publish == build + [(p, Publish)];
    Then(s, build, p, Publish);
    Then(s, publish, p, CheckRelease);
    Then(s, publish + [(p, CheckRelease)], p, Remove);
    assert Publishing(p, objects, carrier) == publish + [(p, CheckRelease)] + [(p, Remove)];
  }

  lemma {:induction false} CannotPublish(s: State, p: Pid, objects: set<Oid>, carrier: Carrier)
    requires LocalOf(s, p).Reading? && NextTip(LocalOf(s, p), s.tip).None?
    ensures Exec(s, Publishing(p, objects, carrier)).None?
  {
    hide Exec, Kept, Retains, ObjectsToRetain, NextTip, ReadEnough;
    var build, rest := [(p, Build(objects, carrier))], [(p, Publish), (p, CheckRelease), (p, Remove)];
    assert Publishing(p, objects, carrier) == build + rest;
    ExecThen(s, build, rest);
    ExecOne(s, p, Build(objects, carrier));
  }

  lemma {:induction false} CanBuild(s: State, p: Pid, objects: set<Oid>, carrier: Carrier)
    requires var l := LocalOf(s, p); l.Reading? && ReadEnough(l) && NextTip(l, s.tip).Some? && Sees(l.read, l.tree, s.tip)
    requires var op := LocalOf(s, p).op;
             if op.Backfill? then Kept(OrEmpty(NotesAt(s.tip)), objects, op.quarantined) else objects == ObjectsOf(op)
    requires Retains(carrier, objects, LocalOf(s, p).retention)
    ensures Act(s, p, Build(objects, carrier)).Some?
  {
    hide Kept, Retains, ObjectsOf, NextTip;
  }

  /** A refused writer leaves no trace but the free lock. */
  lemma {:induction false} RefusedWriterLeaves(s: State, p: Pid, op: Operation)
    ensures var done := Exec(s, Upto(s, p, op) + Leaving(p));
            done.Some? && OnlyMoved(s, done.value, p) && done.value.lock.None? && LocalOf(done.value, p) == Idle
  {
    hide Exec, Upto, NextTip, ReadEnough, ObjectsToRetain, Retains, ContainerAt;
    GetsToRead(s, p, op);
    var upto := Upto(s, p, op);
    var read := Exec(s, upto).value;
    ExecThen(s, upto, Leaving(p));
    ExecOne(read, p, Leave);
    Then(read, [(p, Leave)], p, CheckRelease);
    Then(read, [(p, Leave)] + [(p, CheckRelease)], p, Remove);
    assert Leaving(p) == [(p, Leave)] + [(p, CheckRelease)] + [(p, Remove)];
  }
}
