/** Clones of one store handle at work together.

  A writer takes the lock, loads the file, writes the temporary file, renames it over
  the store and gives the lock back; a reader looks at the store without the lock.
  Any of these steps of any of them may come next, and any read, write or rename
  may fail.  `events` is what the callers can tell of it, in the order in which it
  happened: an answer stands where it was decided, between its call and its return. */
module PeerRuns {
  import opened Options
  import opened Peers

  type Task = int

  datatype Stage =
    | Idle
    | Waiting(op: Operation)
    | Locked(op: Operation)
    | Working(op: Operation, snapshot: PeerMap)
    | Staged(op: Operation, snapshot: PeerMap)
    | Finishing

  /** A call, its answer or its failure, or what a load without the lock returned. */
  datatype Event =
    | Called(t: Task, op: Operation)
    | Told(t: Task, op: Operation, answer: Answer)
    | Failed(t: Task, op: Operation)
    | Saw(peers: PeerMap)

  /** `tmp` is the temporary file; None stands for anything but a complete store. */
  datatype System = System(
    file: PeerMap, tmp: Option<PeerMap>, owner: Option<Task>, stages: map<Task, Stage>, events: seq<Event>)

  datatype Step =
    | Call(t: Task, op: Operation)
    | Acquire(t: Task)
    | Load(t: Task, ok: bool)
    | Write(t: Task, ok: bool)
    | Rename(t: Task, ok: bool)
    | Release(t: Task)
    | Peek

  function StageOf(s: System, t: Task): Stage {
    if t in s.stages then s.stages[t] else Idle
  }

  /** What one step does; a step that is not possible leaves everything as it is. */
  ghost function Do(s: System, step: Step): System {
    if step.Peek? then System(s.file, s.tmp, s.owner, s.stages, s.events + [Saw(s.file)])
    else
      var t := step.t;
      var stage := StageOf(s, t);
      match step
      case Call(_, op) =>
        if stage.Idle? then System(s.file, s.tmp, s.owner, s.stages[t := Waiting(op)], s.events + [Called(t, op)]) else s
      case Acquire(_) =>
        if stage.Waiting? && s.owner.None?
        then System(s.file, s.tmp, Some(t), s.stages[t := Locked(stage.op)], s.events)
        else s
      case Load(_, ok) =>
        if !stage.Locked? then s
        else if ok then System(s.file, s.tmp, s.owner, s.stages[t := Working(stage.op, s.file)], s.events)
        else System(s.file, s.tmp, s.owner, s.stages[t := Finishing], s.events + [Failed(t, stage.op)])
      case Write(_, ok) =>
        if !stage.Working? then s
        else if Apply(stage.snapshot, stage.op) == stage.snapshot then
          System(s.file, s.tmp, s.owner, s.stages[t := Finishing], s.events + [Answered(t, stage)])
        else if ok then
          System(s.file, Some(Apply(stage.snapshot, stage.op)), s.owner,
                 s.stages[t := Staged(stage.op, stage.snapshot)], s.events)
        else System(s.file, None, s.owner, s.stages[t := Finishing], s.events + [Failed(t, stage.op)])
      case Rename(_, ok) =>
        if !stage.Staged? then s
        else if ok && s.tmp.Some? then
          System(s.tmp.value, None, s.owner, s.stages[t := Finishing], s.events + [Answered(t, stage)])
        else System(s.file, s.tmp, s.owner, s.stages[t := Finishing], s.events + [Failed(t, stage.op)])
      case Release(_) =>
        if stage.Finishing? then System(s.file, s.tmp, None, s.stages[t := Idle], s.events) else s
  }

  ghost function Answered(t: Task, stage: Stage): Event
    requires stage.Working? || stage.Staged?
  {
    Told(t, stage.op, Reply(stage.snapshot, stage.op))
  }

  ghost function Run(s: System, steps: seq<Step>): System
    decreases steps
  {
    if steps == [] then s else Do(Run(s, steps[..|steps| - 1]), steps[|steps| - 1])
  }

  function Start(file: PeerMap): System {
    System(file, None, None, map[], [])
  }

  // ---- The reference: one thing at a time ----

  /** The peers after these events, if every answered operation took effect, whole and at
      once, where it was answered, and nothing else had any effect. */
  ghost function After(start: PeerMap, events: seq<Event>): PeerMap
    decreases events
  {
    if events == [] then start
    else
      var before, e := After(start, events[..|events| - 1]), events[|events| - 1];
      if e.Told? then Apply(before, e.op) else before
  }

  /** The operation a task has called and heard nothing of. */
  ghost function Open(events: seq<Event>, t: Task): Option<Operation>
    decreases events
  {
    if events == [] then None
    else
      var e := events[|events| - 1];
      if e.Saw? || e.t != t then Open(events[..|events| - 1], t)
      else if e.Called? then Some(e.op)
      else None
  }

  /** An event that fits one thing at a time: a load returns the peers as they are, and an
      operation that was called and not answered yet is answered as they are, or fails. */
  ghost predicate Fits(start: PeerMap, events: seq<Event>, e: Event) {
    match e
    case Called(t, _) => Open(events, t).None?
    case Told(t, op, answer) => Open(events, t) == Some(op) && answer == Reply(After(start, events), op)
    case Failed(t, op) => Open(events, t) == Some(op)
    case Saw(peers) => peers == After(start, events)
  }

  ghost predicate Sequential(start: PeerMap, events: seq<Event>) {
    forall i :: 0 <= i < |events| ==> Fits(start, events[..i], events[i])
  }

  lemma AfterOne(start: PeerMap, events: seq<Event>, e: Event)
    ensures After(start, events + [e])
         == if e.Told? then Apply(After(start, events), e.op) else After(start, events)
  {
    hide Apply;
    assert (events + [e])[..|events|] == events;
  }

  lemma OpenOne(events: seq<Event>, e: Event, t: Task)
    ensures Open(events + [e], t)
         == if e.Saw? || e.t != t then Open(events, t) else if e.Called? then Some(e.op) else None
  {
    assert (events + [e])[..|events|] == events;
  }

  lemma SequentialOne(start: PeerMap, events: seq<Event>, e: Event)
    requires Sequential(start, events) && Fits(start, events, e)
    ensures Sequential(start, events + [e])
  {
    hide Fits;
    var longer := events + [e];
    forall i | 0 <= i < |longer| ensures Fits(start, longer[..i], longer[i]) {
      if i < |events| {
        assert longer[..i] == events[..i];
      } else {
        assert longer[..i] == events;
      }
    }
  }

  // ---- The invariant ----

  predicate Holding(stage: Stage) {
    !stage.Idle? && !stage.Waiting?
  }

  /** Only the owner is past the lock; what it works on is what the file still holds; what
      it has staged is that with its operation applied; and a task whose operation is
      under way has called it and heard nothing yet. */
  ghost predicate Sound(s: System, t: Task) {
    var stage := StageOf(s, t);
    && (Holding(stage) <==> s.owner == Some(t))
    && (stage.Working? || stage.Staged? ==> stage.snapshot == s.file)
    && (stage.Staged? ==> s.tmp == Some(Apply(s.file, stage.op)))
    && Open(s.events, t) == (if stage.Idle? || stage.Finishing? then None else Some(stage.op))
  }

  ghost predicate Exclusive(s: System) {
    forall t :: Sound(s, t)
  }

  lemma StepKeepsExclusive(s: System, step: Step)
    requires Exclusive(s)
    ensures Exclusive(Do(s, step))
  {
    hide Apply, Reply, Open;
    var s' := Do(s, step);
    forall t ensures Sound(s', t) {
      assert Sound(s, t);
      if !step.Peek? {
        assert Sound(s, step.t);
      }
      if s'.events != s.events {
        OpenOne(s.events, s'.events[|s.events|], t);
      }
    }
  }

  /** Every step keeps the events sequential and the file what they come to. */
  lemma StepIsSequential(start: PeerMap, s: System, step: Step)
    requires Exclusive(s) && Sequential(start, s.events) && s.file == After(start, s.events)
    ensures Sequential(start, Do(s, step).events) && Do(s, step).file == After(start, Do(s, step).events)
    ensures s.events <= Do(s, step).events
  {
    hide Apply, Reply, Open, After, Sequential;
    var s' := Do(s, step);
    if s'.events != s.events {
      var e := s'.events[|s.events|];
      if !step.Peek? {
        assert Sound(s, step.t);
      }
      assert Fits(start, s.events, e);
      SequentialOne(start, s.events, e);
      AfterOne(start, s.events, e);
    }
  }

  /** Every run, whatever the interleaving and the failures, is one thing at a time: the
      events, in the order in which they happened, are those of a store on which each
      answered operation took effect whole and at once and each failed one none; loads
      saw exactly what was answered before them; and the file is what the answered
      operations come to, so none of them is lost. */
  lemma {:induction false} RunIsLinear(start: PeerMap, steps: seq<Step>)
    ensures var s := Run(Start(start), steps);
            Exclusive(s) && Sequential(start, s.events) && s.file == After(start, s.events)
    decreases steps
  {
    hide Do, Fits;
    if steps != [] {
      var init := steps[..|steps| - 1];
      RunIsLinear(start, init);
      StepKeepsExclusive(Run(Start(start), init), steps[|steps| - 1]);
      StepIsSequential(start, Run(Start(start), init), steps[|steps| - 1]);
    }
  }

  /** The lock never gets stuck: as long as a task is under way, some task can move. */
  lemma SomeTaskCanMove(start: PeerMap, steps: seq<Step>, t: Task)
    requires !StageOf(Run(Start(start), steps), t).Idle?
    ensures var s := Run(Start(start), steps);
            exists step: Step :: !step.Call? && !step.Peek? && Do(s, step).stages != s.stages
  {
    hide Run, Apply, Reply, Open, Sequential;
    var s := Run(Start(start), steps);
    RunIsLinear(start, steps);
    assert Sound(s, t);
    var mover := if s.owner.Some? then s.owner.value else t;
    assert Sound(s, mover);
    var stage := StageOf(s, mover);
    var step := match stage
      case Waiting(_) => Acquire(mover)
      case Locked(_) => Load(mover, true)
      case Working(_, _) => Write(mover, true)
      case Staged(_, _) => Rename(mover, true)
      case _ => Release(mover);
    assert StageOf(Do(s, step), mover) != StageOf(s, mover);
    assert Do(s, step).stages != s.stages;
  }

  // ---- What the order of the events implies ----

  predicate Adds(e: Event, id: string) {
    e.Told? && e.op.Add? && e.op.id == id
  }

  /** Absent stays absent until it is added: no update brings a removed peer back. */
  lemma {:induction false} AbsentUntilAdded(start: PeerMap, events: seq<Event>, i: nat, j: nat, id: string)
    requires i <= j <= |events| && id !in After(start, events[..i])
    requires forall k :: i <= k < j ==> !Adds(events[k], id)
    ensures id !in After(start, events[..j])
    decreases j
  {
    hide Apply, After;
    if i < j {
      AbsentUntilAdded(start, events, i, j - 1, id);
      assert events[..j] == events[..j - 1] + [events[j - 1]];
      AfterOne(start, events[..j - 1], events[j - 1]);
      if events[j - 1].Told? {
        ApplyKeepsIds(After(start, events[..j - 1]), events[j - 1].op, id);
      }
    }
  }

  /** An operation that can change or remove the peer of an id and a name. */
  predicate Touches(op: Operation, id: string, name: string) {
    match op
    case Add(_, _, _) => false
    case UpdateAddrs(other, _, _) => other == id
    case UpdateHello(other, _, _) => other == id
    case Remove(other) => other == name
  }

  /** A record stays exactly as it is until an answered operation on that very peer. */
  lemma {:induction false} UntouchedStays(start: PeerMap, events: seq<Event>, i: nat, j: nat, id: string)
    requires i <= j <= |events| && id in After(start, events[..i])
    requires forall k :: i <= k < j && events[k].Told? ==> !Touches(events[k].op, id, After(start, events[..i])[id].name)
    ensures id in After(start, events[..j])
    ensures After(start, events[..j])[id] == After(start, events[..i])[id]
    decreases j
  {
    hide Apply, After;
    if i < j {
      UntouchedStays(start, events, i, j - 1, id);
      var before, e := After(start, events[..j - 1]), events[j - 1];
      assert events[..j] == events[..j - 1] + [e];
      AfterOne(start, events[..j - 1], e);
      if e.Told? {
        ApplyKeepsIds(before, e.op, id);
        ApplyKeepsRecords(before, e.op, id);
      }
    }
  }

  lemma {:induction false} AfterKeepsNamesUnique(start: PeerMap, events: seq<Event>)
    requires UniqueNames(start)
    ensures UniqueNames(After(start, events))
    decreases events
  {
    hide Apply, UniqueNames;
    if events != [] {
      var init, e := events[..|events| - 1], events[|events| - 1];
      AfterKeepsNamesUnique(start, init);
      if e.Told? {
        ApplyKeepsNamesUnique(After(start, init), e.op);
      }
    }
  }

  /** In any run, a peer that one load does not find and a later one finds was added by an
      operation answered in between. */
  lemma NeverResurrected(start: PeerMap, steps: seq<Step>, i: nat, j: nat, id: string)
    requires var events := Run(Start(start), steps).events;
             && i < j < |events| && events[i].Saw? && events[j].Saw?
             && id !in events[i].peers && id in events[j].peers
    ensures var events := Run(Start(start), steps).events;
            exists k :: i < k < j && Adds(events[k], id)
  {
    hide Run, After;
    var events := Run(Start(start), steps).events;
    RunIsLinear(start, steps);
    assert Fits(start, events[..i], events[i]) && Fits(start, events[..j], events[j]);
    if forall k :: i < k < j ==> !Adds(events[k], id) {
      AbsentUntilAdded(start, events, i, j, id);
    }
  }

  /** In any run, what an answered operation left of a peer is what every later load finds,
      until another operation on that very peer is answered. */
  lemma AnsweredIsSeen(start: PeerMap, steps: seq<Step>, i: nat, j: nat, id: string)
    requires var events := Run(Start(start), steps).events;
             && i < j < |events| && events[i].Told? && events[j].Saw?
             && (var peers := Apply(After(start, events[..i]), events[i].op);
                 && id in peers
                 && forall k :: i < k < j && events[k].Told? ==> !Touches(events[k].op, id, peers[id].name))
    ensures var events := Run(Start(start), steps).events;
            var peers := Apply(After(start, events[..i]), events[i].op);
            id in events[j].peers && events[j].peers[id] == peers[id]
  {
    hide Run, After, Apply;
    var events := Run(Start(start), steps).events;
    RunIsLinear(start, steps);
    assert Fits(start, events[..j], events[j]);
    assert events[..i + 1] == events[..i] + [events[i]];
    AfterOne(start, events[..i], events[i]);
    UntouchedStays(start, events, i + 1, j, id);
  }

  /** In any run from unique names, every load finds unique names. */
  lemma NamesStayUnique(start: PeerMap, steps: seq<Step>, i: nat)
    requires var events := Run(Start(start), steps).events;
             UniqueNames(start) && i < |events| && events[i].Saw?
    ensures UniqueNames(Run(Start(start), steps).events[i].peers)
  {
    hide Run, After, UniqueNames;
    var events := Run(Start(start), steps).events;
    RunIsLinear(start, steps);
    assert Fits(start, events[..i], events[i]);
    AfterKeepsNamesUnique(start, events[..i]);
  }
}
