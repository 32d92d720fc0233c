/** The counter transaction's retries, as the schedule tells them: which steps are possible, and where each writer stands. */
module CounterSchedules {
  import opened Prelude
  import opened TelemetryCounters

  /** Where a writer's last step is. */
  function LastOf(steps: seq<Step>, p: Pid): (i: Option<nat>)
    ensures i.Some? ==> i.value < |steps| && steps[i.value].p == p
  {
    if steps == [] then None
    else if steps[|steps| - 1].p == p then Some(|steps| - 1)
    else LastOf(steps[..|steps| - 1], p)
  }

  /** The races a writer has lost. */
  function Races(steps: seq<Step>, p: Pid): nat {
    if steps == [] then 0
    else Races(steps[..|steps| - 1], p) + (if steps[|steps| - 1] == Conflict(p) then 1 else 0)
  }

  /** The batch a writer came with. */
  function BroughtBy(steps: seq<Step>, p: Pid): Option<Batch> {
    if steps == [] then None
    else
      var last := steps[|steps| - 1];
      if last.Start? && last.p == p then Some(last.batch) else BroughtBy(steps[..|steps| - 1], p)
  }

  /** Where a writer stands after its last step, which was the `i`-th. */
  predicate Stands(start: Tables, steps: seq<Step>, p: Pid, i: nat, phase: Phase)
    requires i < |steps|
  {
    var races := Races(steps, p);
    match steps[i]
    case Start(_, _) => races == 0 && phase == Ready(1)
    case Begin(_) =>
      races < 5 && Exec(start, steps[..i]).Some? && phase == Open(races + 1, Exec(start, steps[..i]).value.tables)
    case Commit(_, acked) => phase == if acked then Counted else Lost
    case Conflict(_) => 1 <= races <= 5 && phase == if races == 5 then GaveUp else Ready(races + 1)
    case Fail(_) => phase == GaveUp
  }

  predicate StandsAsTold(start: Tables, steps: seq<Step>, p: Pid, s: State) {
    match LastOf(steps, p)
    case None => p !in s.writers && Races(steps, p) == 0 && BroughtBy(steps, p) == None
    case Some(i) =>
      p in s.writers && BroughtBy(steps, p) == Some(s.writers[p].batch) && Stands(start, steps, p, i, s.writers[p].phase)
  }

  lemma OthersAreTold(steps: seq<Step>, step: Step, p: Pid)
    requires step.p != p
    ensures LastOf(steps + [step], p) == LastOf(steps, p)
    ensures Races(steps + [step], p) == Races(steps, p) && BroughtBy(steps + [step], p) == BroughtBy(steps, p)
  {
    assert (steps + [step])[..|steps|] == steps;
  }

  lemma StandsOn(start: Tables, steps: seq<Step>, step: Step, p: Pid, i: nat, phase: Phase)
    requires step.p != p && i < |steps| && Stands(start, steps, p, i, phase)
    ensures Stands(start, steps + [step], p, i, phase)
  {
    OthersAreTold(steps, step, p);
    assert (steps + [step])[i] == steps[i] && (steps + [step])[..i] == steps[..i];
  }

  lemma OthersStandAsTold(start: Tables, steps: seq<Step>, step: Step, p: Pid)
    requires Exec(start, steps).Some? && Enabled(Exec(start, steps).value, step) && step.p != p
    requires StandsAsTold(start, steps, p, Exec(start, steps).value)
    ensures StandsAsTold(start, steps + [step], p, Apply(Exec(start, steps).value, step))
  {
    OthersAreTold(steps, step, p);
    match LastOf(steps, p)
    case None =>
    case Some(i) => StandsOn(start, steps, step, p, i, Exec(start, steps).value.writers[p].phase);
  }

  lemma MoverStandsAsTold(start: Tables, steps: seq<Step>, step: Step)
    requires Exec(start, steps).Some? && Enabled(Exec(start, steps).value, step)
    requires StandsAsTold(start, steps, step.p, Exec(start, steps).value)
    ensures StandsAsTold(start, steps + [step], step.p, Apply(Exec(start, steps).value, step))
  {
    assert (steps + [step])[..|steps|] == steps;
  }

  /**
   * In every run the schedule tells where each writer stands: it tries with the tables of its last beginning, under
   * the number of the races it has lost, gives up on the fifth, and is done once it has committed, whether or not it
   * was told.
   */
  lemma {:induction false} EveryWriterStandsAsTold(start: Tables, steps: seq<Step>, p: Pid)
    requires Exec(start, steps).Some?
    ensures StandsAsTold(start, steps, p, Exec(start, steps).value)
  {
    if steps != [] {
      var front := steps[..|steps| - 1];
      var last := steps[|steps| - 1];
      assert steps == front + [last];
      EveryWriterStandsAsTold(start, front, p);
      if last.p == p { MoverStandsAsTold(start, front, last); } else { OthersStandAsTold(start, front, last, p); }
    }
  }

  /** The writer's last step was to begin, so its transaction is open. */
  predicate Opened(steps: seq<Step>, p: Pid) {
    LastOf(steps, p).Some? && steps[LastOf(steps, p).value].Begin?
  }

  /** The writer may begin: it has just come, or has lost its last attempt and fewer than five. */
  predicate MayBegin(steps: seq<Step>, p: Pid) {
    LastOf(steps, p).Some? &&
    (steps[LastOf(steps, p).value].Start? || (steps[LastOf(steps, p).value].Conflict? && Races(steps, p) < 5))
  }

  /** Nothing that the batch writes has changed since its last beginning. */
  predicate Untouched(start: Tables, steps: seq<Step>, p: Pid, now: Tables) {
    Opened(steps, p) && BroughtBy(steps, p).Some?
    && Exec(start, steps[..LastOf(steps, p).value]).Some?
    && Unraced(Exec(start, steps[..LastOf(steps, p).value]).value.tables, now, BroughtBy(steps, p).value)
  }

  /** In every run these steps can come next, and no others. */
  lemma PossibleIff(start: Tables, steps: seq<Step>, step: Step)
    requires Exec(start, steps).Some?
    ensures Exec(start, steps + [step]).Some? <==>
      match step
      case Start(p, b) => LastOf(steps, p).None? && DistinctIds(b.roll)
      case Begin(p) => MayBegin(steps, p)
      case Commit(p, _) => Untouched(start, steps, p, Exec(start, steps).value.tables)
      case Conflict(p) => Opened(steps, p)
      case Fail(p) => MayBegin(steps, p) || Opened(steps, p)
  {
    assert (steps + [step])[..|steps|] == steps;
    EveryWriterStandsAsTold(start, steps, step.p);
    InterleavingsAreSequential(start, steps);
    var s := Exec(start, steps).value;
    if step.p in s.writers { assert CommitsOnce(s, step.p); }
  }

  /** From any reachable state a batch that nobody disturbs is written, once and whole. */
  lemma UndisturbedBatchIsWritten(start: Tables, steps: seq<Step>, p: Pid, b: Batch, acked: bool)
    requires Exec(start, steps).Some? && LastOf(steps, p).None? && DistinctIds(b.roll)
    ensures var end := Exec(start, steps + [Start(p, b)] + [Begin(p)] + [Commit(p, acked)]);
      && end.Some? && end.value.tables == Write(Exec(start, steps).value.tables, b)
      && p in end.value.writers && end.value.writers[p].phase == (if acked then Counted else Lost)
  {
    var came, began := steps + [Start(p, b)], steps + [Start(p, b)] + [Begin(p)];
    PossibleIff(start, steps, Start(p, b));
    assert came[..|steps|] == steps;
    PossibleIff(start, came, Begin(p));
    assert began[..|came|] == came;
    PossibleIff(start, began, Commit(p, acked));
    assert (began + [Commit(p, acked)])[..|began|] == began;
    InterleavingsAreSequential(start, began);
    CommitRefines(Exec(start, began).value, p, acked);
  }
}
