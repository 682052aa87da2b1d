/** Each operation of a store handle is the run of its steps: take the lock, load, write,
  rename, give the lock back. */
module PeerSteps {
  import opened Options
  import opened Peers
  import opened PeerStores
  import opened PeerRuns

  /** The peers a store file stands for. */
  function Contents(file: File): PeerMap {
    if file.Holds? then file.peers else map[]
  }

  /** The steps of one call on a disk that does what `disk` says. */
  function StepsOf(t: Task, op: Operation, file: File, disk: Disk): seq<Step> {
    [Call(t, op), Acquire(t), Step.Load(t, Loaded(file, disk).Ok?), Write(t, disk.writable),
     Rename(t, disk.renamable), Release(t)]
  }

  lemma RunOne(s: System, steps: seq<Step>, k: nat)
    requires k < |steps|
    ensures Run(s, steps[..k + 1]) == Do(Run(s, steps[..k]), steps[k])
  {
    hide Do;
    assert steps[..k + 1][..k] == steps[..k];
  }

  lemma RunSix(s: System, steps: seq<Step>)
    requires |steps| == 6
    ensures Run(s, steps) == Do(Do(Do(Do(Do(Do(s, steps[0]), steps[1]), steps[2]), steps[3]), steps[4]), steps[5])
  {
    hide Do;
    assert Run(s, steps[..0]) == s;
    RunOne(s, steps, 0);
    RunOne(s, steps, 1);
    RunOne(s, steps, 2);
    RunOne(s, steps, 3);
    RunOne(s, steps, 4);
    RunOne(s, steps, 5);
    assert steps[..6] == steps;
  }

  /** What the events of one call are: the call, and its answer or its failure. */
  ghost function Reported(t: Task, op: Operation, outcome: Result<Answer>): seq<Event> {
    [Called(t, op), match outcome case Ok(answer) => Told(t, op, answer) case Err(_) => Event.Failed(t, op)]
  }

  /** Called, locked and loaded. */
  lemma LoadedSteps(s: System, t: Task, op: Operation, ok: bool)
    requires s.owner.None? && StageOf(s, t).Idle?
    ensures Do(Do(Do(s, Call(t, op)), Acquire(t)), Step.Load(t, ok))
         == if ok
            then System(s.file, s.tmp, Some(t), s.stages[t := Working(op, s.file)], s.events + [Called(t, op)])
            else System(s.file, s.tmp, Some(t), s.stages[t := Finishing], s.events + [Called(t, op)] + [Event.Failed(t, op)])
  {
    hide Apply, Reply;
  }

  /** Written, renamed and released, from what was loaded. */
  lemma StoredSteps(s: System, t: Task, op: Operation, disk: Disk)
    requires StageOf(s, t) == Working(op, s.file)
    ensures var u := Do(Do(Do(s, Write(t, disk.writable)), Rename(t, disk.renamable)), Release(t));
            && u.owner.None? && u.stages == s.stages[t := Idle]
            && var outcome := Outcome(Holds(s.file), op, disk.(readable := true));
            && u.file == Contents(FileAfter(Holds(s.file), op, disk.(readable := true)))
            && u.events == s.events + [match outcome case Ok(answer) => Told(t, op, answer) case Err(_) => Event.Failed(t, op)]
  {
    hide Apply, Reply;
    var w := Do(s, Write(t, disk.writable));
    assert s.stages[t := Finishing][t := Idle] == s.stages[t := Idle];
    assert s.stages[t := Staged(op, s.file)][t := Finishing][t := Idle] == s.stages[t := Idle];
  }

  /** The handle's operations refine the steps: an operation succeeds, with its answer, or
      fails exactly as the run of its steps does, and leaves the peers that run leaves. */
  lemma OperationIsSteps(s: System, t: Task, op: Operation, file: File, disk: Disk)
    requires s.owner.None? && StageOf(s, t).Idle?
    requires file.Corrupt? || s.file == Contents(file)
    ensures var u := Run(s, StepsOf(t, op, file, disk));
            && u.events == s.events + Reported(t, op, Outcome(file, op, disk))
            && u.file == (if file.Corrupt? then s.file else Contents(FileAfter(file, op, disk)))
            && u.owner.None? && StageOf(u, t).Idle?
            && forall other: Task :: other != t ==> StageOf(u, other) == StageOf(s, other)
  {
    hide Run, Apply, Reply;
    var steps := StepsOf(t, op, file, disk);
    RunSix(s, steps);
    LoadedSteps(s, t, op, Loaded(file, disk).Ok?);
    var called := s.events + [Called(t, op)];
    assert called + [Reported(t, op, Outcome(file, op, disk))[1]] == s.events + Reported(t, op, Outcome(file, op, disk));
    if Loaded(file, disk).Ok? {
      StoredSteps(System(s.file, s.tmp, Some(t), s.stages[t := Working(op, s.file)], called), t, op, disk);
      hide Do;
    }
  }
}
