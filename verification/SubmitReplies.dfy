/**
 * What a submit is answered, and what it leaves in the tables, in every run: the kill switch, the block list and the
 * replay of step 3, the quota of step 4 and the two rows of step 6.
 */
module SubmitReplies {
  import opened Prelude
  import opened SubmitProtocol

  // ------------------------------------------------------------------------------ an answer is final

  lemma PrefixRuns(steps: seq<Step>, n: nat)
    requires Exec(steps).Some? && n <= |steps|
    ensures Exec(steps[..n]).Some?
    ensures n < |steps| ==> (
      && Enabled(Exec(steps[..n]).value, steps[n])
      && Exec(steps[..n + 1]) == Some(Apply(Exec(steps[..n]).value, steps[n])))
    decreases |steps|
  {
    if n == |steps| {
      assert steps[..n] == steps;
    } else {
      var front := steps[..|steps| - 1];
      if n == |front| {
        assert steps[..n] == front && steps[..n + 1] == steps;
      } else {
        PrefixRuns(front, n);
        assert front[..n] == steps[..n] && front[..n + 1] == steps[..n + 1];
      }
    }
  }

  /** Nobody moves a process that has answered, and whether it paid or wrote is settled. */
  predicate StaysAnswered(s: State, t: State, p: Pid) {
    && p in s.procs && s.procs[p].pc.Replied? && p in t.procs && t.procs[p] == s.procs[p]
    && (p in t.hist.paid <==> p in s.hist.paid) && (p in t.hist.wrote <==> p in s.hist.wrote)
  }

  lemma StepKeepsAnswer(s: State, step: Step, p: Pid)
    requires Enabled(s, step) && p in s.procs && s.procs[p].pc.Replied?
    ensures StaysAnswered(s, Apply(s, step), p)
  {
  }

  lemma {:induction false} AnswerStands(steps: seq<Step>, n: nat, p: Pid)
    requires Exec(steps).Some? && n <= |steps| && Exec(steps[..n]).Some?
    requires p in Exec(steps[..n]).value.procs && Exec(steps[..n]).value.procs[p].pc.Replied?
    ensures StaysAnswered(Exec(steps[..n]).value, Exec(steps).value, p)
    decreases |steps|
  {
    if n == |steps| {
      assert steps[..n] == steps;
    } else {
      var front := steps[..|steps| - 1];
      assert front[..n] == steps[..n];
      AnswerStands(front, n, p);
      StepKeepsAnswer(Exec(front).value, steps[|steps| - 1], p);
    }
  }

  // ------------------------------------------------------------------------------ step 3

  /** The process answered this and left no trace. */
  predicate TurnedAway(s: State, p: Pid, reply: Reply) {
    p in s.procs && s.procs[p].pc == Replied(reply) && p !in s.hist.paid && p !in s.hist.wrote
  }

  lemma LoadTouchesNothing(s: State, p: Pid, ctx: Context)
    requires PaidInv(s) && Enabled(s, Load(p, ctx))
    ensures var t := Apply(s, Load(p, ctx)); t.db == s.db && t.hist == s.hist && p !in t.hist.paid && p !in t.hist.wrote
  {
    assert PaysOnce(s, p);
  }

  /**
   * Step 3 touches no table. In every run a closed deployment answers 503 whoever asks; an open one answers 403 to
   * a blocked install, and an answered pair gets its report id; all three leave neither a unit nor a report. Anybody
   * else goes on to the quota, under the row's cap if that is positive and under the fallback otherwise.
   */
  lemma LoadDecides(steps: seq<Step>, i: nat, p: Pid, ctx: Context)
    requires Exec(steps).Some? && i < |steps| && steps[i] == Load(p, ctx)
    ensures Exec(steps[..i]).Some? && Exec(steps[..i + 1]).Some? && p in Exec(steps[..i]).value.procs
    ensures var s, t, end := Exec(steps[..i]).value, Exec(steps[..i + 1]).value, Exec(steps).value;
      var key := s.procs[p].req.key;
      && t.db == s.db && t.hist == s.hist
      && (ctx.row.accepting == Some(false) ==> TurnedAway(end, p, Closed))
      && (ctx.row.accepting != Some(false) && ctx.blocked ==> TurnedAway(end, p, Blocked))
      && (ctx.row.accepting != Some(false) && !ctx.blocked && key in s.db.idemp ==>
            TurnedAway(end, p, Replayed(s.db.idemp[key].reportId)))
      && (ctx.row.accepting != Some(false) && !ctx.blocked && key !in s.db.idemp ==>
            t.procs[p] == Process(s.procs[p].req, CapOf(ctx), QuotaReady(1)))
  {
    PrefixRuns(steps, i);
    ReachableInv(steps[..i]);
    LoadTouchesNothing(Exec(steps[..i]).value, p, ctx);
    if Exec(steps[..i + 1]).value.procs[p].pc.Replied? { AnswerStands(steps, i + 1, p); }
  }

  /** The cap a configuration means. */
  function CapOf(ctx: Context): int {
    match ctx.row.maxPerDay
    case Some(max) => if max >= 1 then max else ctx.fallback
    case None => ctx.fallback
  }

  // ------------------------------------------------------------------------------ a submit that nothing disturbs

  /** The handler as one sequential function on the tables; `id` is the report id it would mint. */
  function Submit(db: Database, req: Request, ctx: Context, id: ReportId): (Database, Reply) {
    var day := QuotaKey(req.key.install, req.day);
    var n := if day in db.quota then db.quota[day].n else 0;
    if ctx.row.accepting == Some(false) then (db, Closed)
    else if ctx.blocked then (db, Blocked)
    else if req.key in db.idemp then (db, Replayed(db.idemp[req.key].reportId))
    else if day in db.quota && n >= CapOf(ctx) then (db, QuotaExceeded)
    else
      (Database(
        db.quota[day := QuotaRow(n + 1, req.now + QUOTA_TTL_MS)],
        db.idemp[req.key := IdempRow(id, req.now + IDEMP_TTL_MS)],
        db.reports[id := req.key.install]), Created(id))
  }

  /** A step of `p` that nothing disturbs: no race, no failure, no lost acknowledgement, no sweep. */
  predicate Undisturbed(step: Step, p: Pid, req: Request, ctx: Context, id: ReportId) {
    step in {Arrive(p, req), Load(p, ctx), BeginQuota(p), CommitQuota(p, true), Mint(p, id), BeginReport(p), CommitReport(p, true)}
  }

  function ExecFrom(s: State, steps: seq<Step>): Option<State>
    decreases |steps|
  {
    if steps == [] then Some(s)
    else if Enabled(s, steps[0]) then ExecFrom(Apply(s, steps[0]), steps[1..])
    else None
  }

  /** The tables with the unit of the quota taken and the report not yet written. */
  function Charged(db: Database, req: Request, ctx: Context, id: ReportId): Database {
    db.(quota := Submit(db, req, ctx, id).0.quota)
  }

  /** How far an undisturbed submit has come, and what it has left so far. */
  predicate Along(db: Database, t: State, p: Pid, req: Request, ctx: Context, id: ReportId) {
    var goal := Submit(db, req, ctx, id);
    var day := QuotaKey(req.key.install, req.day);
    && p in t.procs && t.procs[p].req == req
    && (!t.procs[p].pc.Start? ==> t.procs[p].cap == CapOf(ctx))
    && match t.procs[p].pc
       case Start => t.db == db
       case QuotaReady(attempt) => t.db == db && attempt == 1 && (goal.1.QuotaExceeded? || goal.1.Created?)
       case QuotaOpen(attempt, seen) =>
         && t.db == db && attempt == 1 && seen == QuotaRowNow(db, day) && (goal.1.QuotaExceeded? || goal.1.Created?)
       case Paid => t.db == Charged(db, req, ctx, id) && goal.1.Created?
       case ReportReady(attempt, minted) => t.db == Charged(db, req, ctx, id) && attempt == 1 && minted == id && goal.1.Created?
       case ReportOpen(attempt, minted, taken) =>
         t.db == Charged(db, req, ctx, id) && attempt == 1 && minted == id && !taken && goal.1.Created?
       case Replied(reply) => (t.db, reply) == goal
       case _ => false
  }

  lemma StepGoesAlong(db: Database, t: State, p: Pid, req: Request, ctx: Context, id: ReportId, step: Step)
    requires Along(db, t, p, req, ctx, id) && id !in db.reports
    requires Enabled(t, step) && Undisturbed(step, p, req, ctx, id)
    ensures Along(db, Apply(t, step), p, req, ctx, id)
  {
  }

  lemma {:induction false} RunGoesAlong(db: Database, t: State, p: Pid, req: Request, ctx: Context, id: ReportId, steps: seq<Step>)
    requires Along(db, t, p, req, ctx, id) && id !in db.reports && ExecFrom(t, steps).Some?
    requires forall i :: 0 <= i < |steps| ==> Undisturbed(steps[i], p, req, ctx, id)
    ensures Along(db, ExecFrom(t, steps).value, p, req, ctx, id)
    decreases |steps|
  {
    if steps != [] {
      StepGoesAlong(db, t, p, req, ctx, id, steps[0]);
      RunGoesAlong(db, Apply(t, steps[0]), p, req, ctx, id, steps[1..]);
    }
  }

  /**
   * From any state, a submit whose steps nobody disturbs leaves the tables, and answers, what the sequential
   * function says, whenever it answers.
   */
  lemma UndisturbedSubmitIsSequential(s: State, p: Pid, req: Request, ctx: Context, id: ReportId, steps: seq<Step>)
    requires p !in s.procs && id !in s.db.reports && ExecFrom(s, [Arrive(p, req)] + steps).Some?
    requires forall i :: 0 <= i < |steps| ==> Undisturbed(steps[i], p, req, ctx, id)
    ensures var t := ExecFrom(s, [Arrive(p, req)] + steps).value;
      p in t.procs && (t.procs[p].pc.Replied? ==> (t.db, t.procs[p].pc.reply) == Submit(s.db, req, ctx, id))
  {
    assert ([Arrive(p, req)] + steps)[1..] == steps;
    RunGoesAlong(s.db, Apply(s, Arrive(p, req)), p, req, ctx, id, steps);
  }

  /** What an undisturbed submit does next. */
  function NextStep(me: Process, p: Pid, ctx: Context, id: ReportId): Step {
    match me.pc
    case Start => Load(p, ctx)
    case QuotaReady(_) => BeginQuota(p)
    case QuotaOpen(_, _) => CommitQuota(p, true)
    case Paid => Mint(p, id)
    case ReportReady(_, _) => BeginReport(p)
    case _ => CommitReport(p, true)
  }

  function Remaining(pc: Pc): nat {
    match pc
    case Start => 6
    case QuotaReady(_) => 5
    case QuotaOpen(_, _) => 4
    case Paid => 3
    case ReportReady(_, _) => 2
    case Replied(_) => 0
    case _ => 1
  }

  lemma NextStepIsPossible(db: Database, t: State, p: Pid, req: Request, ctx: Context, id: ReportId)
    requires Along(db, t, p, req, ctx, id) && id !in db.reports && !t.procs[p].pc.Replied?
    ensures var step := NextStep(t.procs[p], p, ctx, id);
      && Enabled(t, step) && Undisturbed(step, p, req, ctx, id)
      && Along(db, Apply(t, step), p, req, ctx, id) && Remaining(Apply(t, step).procs[p].pc) < Remaining(t.procs[p].pc)
  {
    StepGoesAlong(db, t, p, req, ctx, id, NextStep(t.procs[p], p, ctx, id));
  }

  lemma {:induction false} RunCanEnd(db: Database, t: State, p: Pid, req: Request, ctx: Context, id: ReportId)
    returns (steps: seq<Step>)
    requires Along(db, t, p, req, ctx, id) && id !in db.reports
    ensures forall i :: 0 <= i < |steps| ==> Undisturbed(steps[i], p, req, ctx, id)
    ensures ExecFrom(t, steps).Some? && p in ExecFrom(t, steps).value.procs && ExecFrom(t, steps).value.procs[p].pc.Replied?
    decreases Remaining(t.procs[p].pc)
  {
    if t.procs[p].pc.Replied? { return []; }
    var step := NextStep(t.procs[p], p, ctx, id);
    NextStepIsPossible(db, t, p, req, ctx, id);
    var rest := RunCanEnd(db, Apply(t, step), p, req, ctx, id);
    steps := [step] + rest;
    assert steps[1..] == rest;
  }

  /** And in any state such a submit can run to its answer. */
  lemma UndisturbedSubmitAnswers(s: State, p: Pid, req: Request, ctx: Context, id: ReportId) returns (steps: seq<Step>)
    requires p !in s.procs && id !in s.db.reports
    ensures forall i :: 0 <= i < |steps| ==> Undisturbed(steps[i], p, req, ctx, id)
    ensures var t := ExecFrom(s, [Arrive(p, req)] + steps);
      && t.Some? && p in t.value.procs && t.value.procs[p].pc.Replied?
      && (t.value.db, t.value.procs[p].pc.reply) == Submit(s.db, req, ctx, id)
  {
    steps := RunCanEnd(s.db, Apply(s, Arrive(p, req)), p, req, ctx, id);
    assert ([Arrive(p, req)] + steps)[1..] == steps;
    UndisturbedSubmitIsSequential(s, p, req, ctx, id, steps);
  }

  // ------------------------------------------------------------------------------ races and lost acknowledgements

  /** A commit whose acknowledgement is lost is answered 500 in every run, whatever it left. */
  lemma LostAcknowledgementIsInternal(steps: seq<Step>, i: nat, p: Pid)
    requires Exec(steps).Some? && i < |steps| && (steps[i] == CommitQuota(p, false) || steps[i] == CommitReport(p, false))
    ensures p in Exec(steps).value.procs && Exec(steps).value.procs[p].pc == Replied(Internal)
  {
    PrefixRuns(steps, i);
    AnswerStands(steps, i + 1, p);
  }

  /**
   * Who lost its INSERT to an existing key and then looks the pair up is answered the id of the row that is there,
   * and 500 if there is none any more.
   */
  lemma LoserIsAnsweredTheRow(steps: seq<Step>, i: nat, p: Pid)
    requires Exec(steps).Some? && i < |steps| && steps[i] == Lookup(p)
    ensures Exec(steps[..i]).Some? && p in Exec(steps[..i]).value.procs && p in Exec(steps).value.procs
    ensures var db := Exec(steps[..i]).value.db; var key := Exec(steps[..i]).value.procs[p].req.key;
      Exec(steps).value.procs[p].pc.Replied?
      && Exec(steps).value.procs[p].pc.reply == if key in db.idemp then Replayed(db.idemp[key].reportId) else Internal
  {
    PrefixRuns(steps, i);
    AnswerStands(steps, i + 1, p);
  }

  /**
   * An open report transaction either commits or meets a duplicate key, never both. In the second case the next
   * step can look the pair up, and is answered the id of the row that is there.
   */
  lemma DuplicateIsAnsweredTheRow(steps: seq<Step>, p: Pid)
    requires Exec(steps).Some? && p in Exec(steps).value.procs && Exec(steps).value.procs[p].pc.ReportOpen?
    ensures Exec(steps + [CommitReport(p, true)]).None? <==> Exec(steps + [DuplicateReport(p)]).Some?
    ensures Exec(steps + [DuplicateReport(p)]).Some? ==>
      var end, db := Exec(steps + [DuplicateReport(p)] + [Lookup(p)]), Exec(steps).value.db;
      var key := Exec(steps).value.procs[p].req.key;
      && end.Some? && p in end.value.procs && end.value.db == db
      && end.value.procs[p].pc == Replied(if key in db.idemp then Replayed(db.idemp[key].reportId) else Internal)
  {
    assert (steps + [CommitReport(p, true)])[..|steps|] == steps;
    assert (steps + [DuplicateReport(p)])[..|steps|] == steps;
    var met := steps + [DuplicateReport(p)];
    assert (met + [Lookup(p)])[..|met|] == met;
  }

  /** The races a process has lost in its current transaction: since its last visit to step 5, if any. */
  function RacesLost(steps: seq<Step>, p: Pid): nat {
    if steps == [] then 0
    else
      var before := RacesLost(steps[..|steps| - 1], p);
      match steps[|steps| - 1]
      case Conflict(x) => if x == p then before + 1 else before
      case Mint(x, _) => if x == p then 0 else before
      case _ => before
  }

  predicate InTransaction(pc: Pc) {
    pc.QuotaReady? || pc.QuotaOpen? || pc.ReportReady? || pc.ReportOpen?
  }

  predicate OnItsRung(s: State, steps: seq<Step>, p: Pid) {
    && (p in s.procs && InTransaction(s.procs[p].pc) ==> s.procs[p].pc.attempt == RacesLost(steps, p) + 1)
    && ((p !in s.procs || s.procs[p].pc.Start?) ==> RacesLost(steps, p) == 0)
  }

  lemma StepKeepsRung(s: State, steps: seq<Step>, step: Step, p: Pid)
    requires Enabled(s, step) && OnItsRung(s, steps, p)
    ensures OnItsRung(Apply(s, step), steps + [step], p)
  {
    assert (steps + [step])[..|steps|] == steps;
  }

  lemma {:induction false} EverybodyIsOnItsRung(steps: seq<Step>, p: Pid)
    requires Exec(steps).Some?
    ensures OnItsRung(Exec(steps).value, steps, p)
  {
    if steps != [] {
      var front := steps[..|steps| - 1];
      EverybodyIsOnItsRung(front, p);
      StepKeepsRung(Exec(front).value, front, steps[|steps| - 1], p);
      assert front + [steps[|steps| - 1]] == steps;
    }
  }

  /**
   * In every run a process gives up on a race exactly when it is the fifth of its transaction. Before that it tries
   * the same transaction again, with the same report id.
   */
  lemma FifthRaceIsTheLast(steps: seq<Step>, p: Pid)
    requires Exec(steps + [Conflict(p)]).Some?
    ensures Exec(steps).Some? && p in Exec(steps).value.procs && p in Exec(steps + [Conflict(p)]).value.procs
    ensures var was, after := Exec(steps).value.procs[p].pc, Exec(steps + [Conflict(p)]).value.procs[p].pc;
      && (RacesLost(steps, p) == 4 ==> after == Replied(Internal))
      && (RacesLost(steps, p) != 4 && was.QuotaOpen? ==> after.QuotaReady?)
      && (RacesLost(steps, p) != 4 && !was.QuotaOpen? ==> was.ReportOpen? && after.ReportReady? && after.id == was.id)
  {
    assert (steps + [Conflict(p)])[..|steps|] == steps;
    EverybodyIsOnItsRung(steps, p);
    ReachableInv(steps);
    assert PaysOnce(Exec(steps).value, p);
  }

  /** The sweep can take an idempotency row exactly when its creator's clock is more than the TTL behind. */
  lemma SweepReachesIff(steps: seq<Step>, p: Pid, k: Key)
    requires Exec(steps).Some? && p in Exec(steps).value.procs && Exec(steps).value.procs[p].pc.Paid?
    requires k in Exec(steps).value.db.idemp
    ensures var s := Exec(steps).value; var r := s.db.idemp[k].reportId;
      && r in s.hist.created && s.hist.created[r].pid in s.procs
      && (Enabled(s, SweepIdemp(p, k)) <==> s.procs[p].req.now > s.procs[s.hist.created[r].pid].req.now + 7 * 24 * 60 * 60 * 1000)
      && (Enabled(s, SweepIdemp(p, k)) ==> Apply(s, SweepIdemp(p, k)).db == s.db.(idemp := s.db.idemp - {k}))
  {
    ReachableInv(steps);
    assert RowPointsHome(Exec(steps).value, k);
  }
}
