/** What every run of the submit protocol guarantees its callers and its operator. */
module SubmitGuarantees {
  import opened Prelude
  import opened RetryLadder
  import opened SubmitProtocol

  /**
   * CONSERVATION, over every interleaving: a pair has as many reports as it has had idempotency rows and no
   * more 201 replies than reports, and its row and every ok reply name a report of its own.
   */
  lemma ReportsAreAccountedFor(steps: seq<Step>, k: Key)
    requires Exec(steps).Some?
    ensures var s := Exec(steps).value;
      && |ReportsOf(s, k)| == s.hist.sweptKeys[k] + (if k in s.db.idemp then 1 else 0)
      && |AnsweredCreated(s, k)| <= |ReportsOf(s, k)|
      && ReportsOf(s, k) <= s.db.reports.Keys
      && (k in s.db.idemp ==> s.db.idemp[k].reportId in ReportsOf(s, k))
      && (forall p, id :: AnsweredOk(s, p, k, id) ==> id in ReportsOf(s, k))
  {
    ReachableInv(steps);
    var s := Exec(steps).value;
    assert PairBalanced(s, k);
    assert k in s.db.idemp ==> RowPointsHome(s, k);
    forall p, id | AnsweredOk(s, p, k, id) ensures id in ReportsOf(s, k) { assert ReplyIsTrue(s, p); }
    CreatedRepliesEmbed(s, k);
  }

  lemma CreatedRepliesEmbed(s: State, k: Key)
    requires RepliesInv(s)
    ensures |AnsweredCreated(s, k)| <= |ReportsOf(s, k)|
  {
    var reportOf := (p: Pid) => if p in AnsweredCreated(s, k) then s.procs[p].pc.reply.id else "";
    forall p | p in AnsweredCreated(s, k) ensures reportOf(p) in ReportsOf(s, k) && s.hist.created[reportOf(p)].pid == p {
      assert ReplyIsTrue(s, p);
    }
    InjectionCardinality(AnsweredCreated(s, k), ReportsOf(s, k), reportOf);
  }

  /** While no row of a pair has been swept: at most one report, at most one 201, and one id in every ok reply. */
  lemma UnsweptPairIsOneReport(steps: seq<Step>, k: Key)
    requires Exec(steps).Some? && k !in Exec(steps).value.hist.sweptKeys
    ensures var s := Exec(steps).value;
      && |ReportsOf(s, k)| <= 1
      && |AnsweredCreated(s, k)| <= 1
      && (forall p1, p2, id1, id2 :: AnsweredOk(s, p1, k, id1) && AnsweredOk(s, p2, k, id2) ==> id1 == id2)
      && (forall p, id :: AnsweredOk(s, p, k, id) ==> k in s.db.idemp && s.db.idemp[k].reportId == id)
  {
    ReportsAreAccountedFor(steps, k);
    var s := Exec(steps).value;
    forall p1, p2, id1, id2 | AnsweredOk(s, p1, k, id1) && AnsweredOk(s, p2, k, id2) ensures id1 == id2 {
      SingletonMembers(ReportsOf(s, k), id1, id2);
    }
    forall p, id | AnsweredOk(s, p, k, id) ensures k in s.db.idemp && s.db.idemp[k].reportId == id {
      assert ReportsOf(s, k) != {};
      SingletonMembers(ReportsOf(s, k), id, s.db.idemp[k].reportId);
    }
  }

  /** No container's clock is more than `ttl` past the clock of another request. */
  predicate ClocksWithin(s: State, ttl: int) {
    forall p, q :: p in s.procs && q in s.procs ==> s.procs[p].req.now <= s.procs[q].req.now + ttl
  }

  lemma SweepNeedsALateClock(s: State, k: Key)
    requires SweepInv(s)
    ensures k in s.hist.sweptKeys ==> !ClocksWithin(s, 7 * 24 * 60 * 60 * 1000)
  {
    if k in s.hist.sweptKeys {
      assert WasSweptLate(s, k);
      var p, r :| SweptLate(s, k, p, r);
    }
  }

  /** Within one week of clocks nothing of a pair is swept, so the pair is one report outright. */
  lemma WeekOfClocksIsOneReport(steps: seq<Step>, k: Key)
    requires Exec(steps).Some? && ClocksWithin(Exec(steps).value, 7 * 24 * 60 * 60 * 1000)
    ensures var s := Exec(steps).value;
      |ReportsOf(s, k)| <= 1 && |AnsweredCreated(s, k)| <= 1 && k !in s.hist.sweptKeys
  {
    ReachableInv(steps);
    var s := Exec(steps).value;
    SweepNeedsALateClock(s, k);
    UnsweptPairIsOneReport(steps, k);
  }

  /**
   * QUOTA, over every interleaving: reports of an install and day never exceed the units taken, which
   * are the live counter plus what a sweep removed, and the counter is at or below the cap of one of its payers.
   */
  lemma QuotaIsNeverOverrun(steps: seq<Step>, q: QuotaKey)
    requires Exec(steps).Some?
    ensures var s := Exec(steps).value;
      && |PaidOn(s, q)| == QuotaCount(s, q) + s.hist.sweptUnits[q]
      && |ReportsOn(s, q)| <= QuotaCount(s, q) + s.hist.sweptUnits[q]
      && (q in s.db.quota ==> HasCapWitness(s, q))
  {
    ReachableInv(steps);
    var s := Exec(steps).value;
    assert DayBalanced(s, q);
    assert q in s.db.quota ==> HasCapWitness(s, q);
    ReportsEmbedInPayers(s, q);
  }

  lemma ReportsEmbedInPayers(s: State, q: QuotaKey)
    requires TablesInv(s)
    ensures |ReportsOn(s, q)| <= |PaidOn(s, q)|
  {
    var creatorOf := (r: ReportId) => if r in s.hist.created then s.hist.created[r].pid else 0;
    forall r | r in ReportsOn(s, q)
      ensures creatorOf(r) in PaidOn(s, q) && creatorOf(r) in s.hist.wrote && s.hist.wrote[creatorOf(r)] == r
    {
      assert CreatorIn(s, r);
    }
    InjectionCardinality(ReportsOn(s, q), PaidOn(s, q), creatorOf);
  }

  // ------------------------------------------------------------------------------ what a sweep of the quota needs

  /** The counter's stamp is the clock of one of its payers, and a swept day was swept by a clock long past one. */
  predicate Stamped(s: State, q: QuotaKey, p: Pid)
    requires q in s.db.quota
  {
    p in PaidOn(s, q) && s.db.quota[q].expiresAt == s.procs[p].req.now + QUOTA_TTL_MS
  }

  predicate DaySweptLate(s: State, q: QuotaKey, p: Pid, payer: Pid) {
    p in s.procs && payer in PaidOn(s, q) && s.procs[p].req.now > s.procs[payer].req.now + QUOTA_TTL_MS
  }

  ghost predicate StampsAreClocks(s: State, q: QuotaKey) {
    && (q in s.db.quota ==> exists p :: Stamped(s, q, p))
    && (q in s.hist.sweptUnits ==> exists p, payer :: DaySweptLate(s, q, p, payer))
  }

  lemma StepKeepsRequests(s: State, step: Step)
    requires Enabled(s, step)
    ensures var t := Apply(s, step);
      && (forall p :: p in s.procs ==> p in t.procs && t.procs[p].req == s.procs[p].req)
      && s.hist.paid <= t.hist.paid
  {
  }

  lemma StepKeepsPayers(s: State, step: Step, q: QuotaKey)
    requires Enabled(s, step)
    ensures PaidOn(s, q) <= PaidOn(Apply(s, step), q)
  {
    StepKeepsRequests(s, step);
  }

  /** What a step does to one counter: it takes a unit, sweeps it, or leaves it alone. */
  lemma StepOnDay(s: State, step: Step, q: QuotaKey)
    requires Enabled(s, step)
    ensures var t := Apply(s, step);
      || (step.CommitQuota? && MayTake(s, step.p) && q == QuotaKeyOf(s.procs[step.p].req)
          && t.hist.sweptUnits == s.hist.sweptUnits && q in t.db.quota && Stamped(t, q, step.p))
      || (step == SweepQuota(step.p, q) && q !in t.db.quota)
      || (QuotaRowNow(t.db, q) == QuotaRowNow(s.db, q) && t.hist.sweptUnits[q] == s.hist.sweptUnits[q])
  {
  }

  lemma StepKeepsStamps(s: State, step: Step, q: QuotaKey)
    requires Enabled(s, step) && StampsAreClocks(s, q)
    ensures StampsAreClocks(Apply(s, step), q)
  {
    var t := Apply(s, step);
    StepKeepsRequests(s, step);
    StepKeepsPayers(s, step, q);
    StepOnDay(s, step, q);
    if q in s.hist.sweptUnits {
      var p, payer :| DaySweptLate(s, q, p, payer);
      assert DaySweptLate(t, q, p, payer);
    }
    if q in s.db.quota {
      var payer :| Stamped(s, q, payer);
      if q in t.db.quota && t.db.quota[q] == s.db.quota[q] { assert Stamped(t, q, payer); }
      if step == SweepQuota(step.p, q) { assert DaySweptLate(t, q, step.p, payer); }
    }
  }

  lemma {:induction false} ReachableStamps(steps: seq<Step>, q: QuotaKey)
    requires Exec(steps).Some?
    ensures StampsAreClocks(Exec(steps).value, q)
  {
    if steps != [] {
      ReachableStamps(steps[..|steps| - 1], q);
      StepKeepsStamps(Exec(steps[..|steps| - 1]).value, steps[|steps| - 1], q);
    }
  }

  lemma DaySweepNeedsALateClock(s: State, q: QuotaKey)
    requires StampsAreClocks(s, q)
    ensures q in s.hist.sweptUnits ==> !ClocksWithin(s, 3 * 24 * 60 * 60 * 1000)
  {
    if q in s.hist.sweptUnits {
      var p, payer :| DaySweptLate(s, q, p, payer);
    }
  }

  /** Within three days of clocks nothing of a day is swept, so its reports are at most one, or some payer's cap. */
  lemma ThreeDaysOfClocksIsOneCap(steps: seq<Step>, q: QuotaKey)
    requires Exec(steps).Some? && ClocksWithin(Exec(steps).value, 3 * 24 * 60 * 60 * 1000)
    ensures var s := Exec(steps).value;
      && q !in s.hist.sweptUnits
      && (ReportsOn(s, q) != {} ==> exists p :: p in PaidOn(s, q) && |ReportsOn(s, q)| <= Max(1, s.procs[p].cap))
  {
    var s := Exec(steps).value;
    ReachableStamps(steps, q);
    DaySweepNeedsALateClock(s, q);
    QuotaIsNeverOverrun(steps, q);
    if q in s.db.quota {
      var p :| CapWitness(s, q, p);
    }
  }

  // ------------------------------------------------------------------------------ when the cap is kept

  /** Every container of the run was deployed with this fallback. */
  predicate DeployedWith(steps: seq<Step>, fallback: int) {
    forall i :: 0 <= i < |steps| && steps[i].Load? ==> steps[i].ctx.fallback == fallback
  }

  /** No day is counted past the cap that one of its payers evaluated. */
  ghost predicate WithinACap(s: State) {
    forall q :: q in s.db.quota ==> exists p :: p in PaidOn(s, q) && s.db.quota[q].n <= s.procs[p].cap
  }

  ghost predicate AlwaysWithinACap(fallback: int) {
    forall steps :: Exec(steps).Some? && DeployedWith(steps, fallback) ==> WithinACap(Exec(steps).value)
  }

  /** Whoever has loaded its context has a positive cap. */
  predicate CapIsPositive(me: Process) {
    me.pc.Start? || me.cap >= 1 || me.pc == Replied(Internal)
  }

  ghost predicate CapsArePositive(s: State) {
    forall p {:trigger CapIsPositive(s.procs[p])} :: p in s.procs ==> CapIsPositive(s.procs[p])
  }

  lemma StepKeepsCapsPositive(s: State, step: Step)
    requires CapsArePositive(s) && Enabled(s, step) && (step.Load? ==> step.ctx.fallback >= 1)
    ensures CapsArePositive(Apply(s, step))
  {
    var t := Apply(s, step);
    forall p | p in t.procs ensures CapIsPositive(t.procs[p]) {
      if p in s.procs { assert CapIsPositive(s.procs[p]); }
    }
  }

  lemma {:induction false} PayersCapsArePositive(steps: seq<Step>, fallback: int)
    requires Exec(steps).Some? && DeployedWith(steps, fallback) && fallback >= 1
    ensures CapsArePositive(Exec(steps).value)
    ensures forall p :: p in Exec(steps).value.hist.paid && p in Exec(steps).value.procs ==> Exec(steps).value.procs[p].cap >= 1
  {
    if steps != [] {
      var front := steps[..|steps| - 1];
      PayersCapsArePositive(front, fallback);
      ReachableInv(front);
      StepKeepsCapsPositive(Exec(front).value, steps[|steps| - 1]);
      PayersKeepTheirCaps(Exec(front).value, steps[|steps| - 1]);
      var s, t := Exec(front).value, Exec(steps).value;
      forall p | p in t.hist.paid && p in t.procs ensures t.procs[p].cap >= 1 {
        assert CapIsPositive(s.procs[p]);
      }
    }
  }

  lemma PayersKeepTheirCaps(s: State, step: Step)
    requires PaidInv(s) && Enabled(s, step)
    ensures var t := Apply(s, step);
      forall p :: p in t.hist.paid && p in t.procs ==>
        p in s.procs && t.procs[p].cap == s.procs[p].cap
        && (p in s.hist.paid || s.procs[p].pc.QuotaOpen?)
  {
    var t := Apply(s, step);
    forall p | p in t.hist.paid && p in t.procs
      ensures p in s.procs && t.procs[p].cap == s.procs[p].cap && (p in s.hist.paid || s.procs[p].pc.QuotaOpen?)
    {
      if p in s.procs { assert PaysOnce(s, p); }
    }
  }

  predicate OverrunsUnder(steps: seq<Step>, fallback: int) {
    && Exec(steps).Some? && DeployedWith(steps, fallback)
    && var s := Exec(steps).value;
      && QuotaCount(s, QuotaKey("i", "d")) == 1
      && forall p :: p in s.procs ==> s.procs[p].cap == fallback < 1
  }

  /** A first submit, up to its quota statement. */
  lemma FirstSubmitOpens(fallback: int, ctx: Context) returns (steps: seq<Step>)
    requires ctx.fallback == fallback == ToConfig(ctx.row, fallback).cap && ToConfig(ctx.row, fallback).accepting && !ctx.blocked
    ensures DeployedWith(steps, fallback)
    ensures Exec(steps) == Some(INIT.(procs := map[0 := Process(Request(Key("i", "r"), "d", 0), fallback, QuotaOpen(1, None))]))
  {
    var req := Request(Key("i", "r"), "d", 0);
    var arrived := INIT.(procs := map[0 := Process(req, 0, Start)]);
    var ready := INIT.(procs := map[0 := Process(req, fallback, QuotaReady(1))]);
    var open := INIT.(procs := map[0 := Process(req, fallback, QuotaOpen(1, None))]);
    ExecAppend([], Arrive(0, req));
    assert Exec([Arrive(0, req)]) == Some(arrived) by { assert [] + [Arrive(0, req)] == [Arrive(0, req)]; }
    var loaded := [Arrive(0, req)] + [Load(0, ctx)];
    ExecAppend([Arrive(0, req)], Load(0, ctx));
    assert Exec(loaded) == Some(ready) by { assert arrived.procs[0 := ready.procs[0]] == ready.procs; }
    ExecAppend(loaded, BeginQuota(0));
    assert ready.procs[0 := open.procs[0]] == open.procs;
    steps := loaded + [BeginQuota(0)];
  }

  /** The first submit of a day is inserted without asking the cap, so a fallback below one is overrun. */
  lemma InsertArmIgnoresTheCap(fallback: int, row: ConfigRow)
    requires fallback < 1 && row.accepting != Some(false) && (row.maxPerDay.Some? ==> row.maxPerDay.value <= 0)
    ensures exists steps :: OverrunsUnder(steps, fallback)
  {
    var steps := FirstSubmitOpens(fallback, Context(row, fallback, false));
    ExecAppend(steps, CommitQuota(0, true));
    assert MayTake(Exec(steps).value, 0);
    assert OverrunsUnder(steps + [CommitQuota(0, true)], fallback);
  }

  lemma ExecAppend(steps: seq<Step>, step: Step)
    ensures Exec(steps + [step])
      == if Exec(steps).Some? && Enabled(Exec(steps).value, step) then Some(Apply(Exec(steps).value, step)) else None
  {
    assert (steps + [step])[..|steps + [step]| - 1] == steps;
  }

  /** Whatever the config rows say, days stay within a payer's cap in every run exactly when the fallback is at least one. */
  lemma CapHoldsIffFallbackPositive(fallback: int)
    ensures AlwaysWithinACap(fallback) <==> fallback >= 1
  {
    if fallback >= 1 {
      forall steps | Exec(steps).Some? && DeployedWith(steps, fallback) ensures WithinACap(Exec(steps).value) {
        PositiveFallbackKeepsCap(steps, fallback);
      }
    } else {
      InsertArmIgnoresTheCap(fallback, ConfigRow(None, None));
      var steps :| OverrunsUnder(steps, fallback);
      assert QuotaKey("i", "d") in Exec(steps).value.db.quota;
    }
  }

  lemma PositiveFallbackKeepsCap(steps: seq<Step>, fallback: int)
    requires Exec(steps).Some? && DeployedWith(steps, fallback) && fallback >= 1
    ensures WithinACap(Exec(steps).value)
  {
    var s := Exec(steps).value;
    PayersCapsArePositive(steps, fallback);
    forall q | q in s.db.quota ensures exists p :: p in PaidOn(s, q) && s.db.quota[q].n <= s.procs[p].cap {
      QuotaIsNeverOverrun(steps, q);
      var p :| CapWitness(s, q, p);
    }
  }

  /** Every transaction of every schedule is on one of the five rungs of the retry ladder. */
  lemma LadderIsBounded(steps: seq<Step>, p: Pid)
    requires Exec(steps).Some? && p in Exec(steps).value.procs
    ensures AttemptInLadder(Exec(steps).value.procs[p].pc)
  {
    ReachableInv(steps);
    assert PaysOnce(Exec(steps).value, p);
  }

  /** A refusal for quota, and the snapshot a quota transaction still holds, are backed by real payers. */
  predicate HonestAt(s: State, p: Pid)
    requires p in s.procs
  {
    var me := s.procs[p];
    var payers := |PaidOn(s, QuotaKeyOf(me.req))|;
    && (me.pc.QuotaOpen? && me.pc.seen.Some? ==> me.pc.seen.value.n <= payers)
    && (me.pc == Replied(QuotaExceeded) ==> me.cap <= payers)
  }

  ghost predicate Honest(s: State) {
    forall p {:trigger HonestAt(s, p)} :: p in s.procs ==> HonestAt(s, p)
  }

  lemma PayersOnlyGrow(s: State, step: Step, q: QuotaKey)
    requires Inv(s) && Enabled(s, step)
    ensures |PaidOn(s, q)| <= |PaidOn(Apply(s, step), q)|
  {
    var t := Apply(s, step);
    assert forall p :: p in s.procs ==> p in t.procs && t.procs[p].req == s.procs[p].req;
    assert s.hist.paid <= t.hist.paid;
    SubsetCardinality(PaidOn(s, q), PaidOn(t, q));
  }

  lemma StepKeepsHonest(s: State, step: Step)
    requires Inv(s) && Honest(s) && Enabled(s, step)
    ensures Honest(Apply(s, step))
  {
    var t := Apply(s, step);
    forall p | p in t.procs ensures HonestAt(t, p) {
      PayersOnlyGrow(s, step, QuotaKeyOf(t.procs[p].req));
      if p != step.p {
        StepMovesOne(s, step, p);
        assert HonestAt(s, p);
      } else if p in s.procs {
        MoverIsHonest(s, step);
      }
    }
  }

  lemma StepMovesOne(s: State, step: Step, p: Pid)
    requires Enabled(s, step) && p != step.p
    ensures var t := Apply(s, step);
      && (p in t.procs <==> p in s.procs) && (p in s.procs ==> t.procs[p] == s.procs[p])
      && (p in t.hist.wrote <==> p in s.hist.wrote) && (p in s.hist.wrote ==> t.hist.wrote[p] == s.hist.wrote[p])
  {
  }

  /** Who opens the quota transaction sees units that were paid; who is refused saw its cap reached. */
  lemma MoverIsHonest(s: State, step: Step)
    requires QuotaLedger(s) && Enabled(s, step) && step.p in s.procs && HonestAt(s, step.p)
    requires |PaidOn(s, QuotaKeyOf(s.procs[step.p].req))| <= |PaidOn(Apply(s, step), QuotaKeyOf(s.procs[step.p].req))|
    ensures HonestAt(Apply(s, step), step.p)
  {
    assert DayBalanced(s, QuotaKeyOf(s.procs[step.p].req));
  }

  lemma {:induction false} ReachableHonest(steps: seq<Step>)
    requires Exec(steps).Some?
    ensures Honest(Exec(steps).value)
  {
    if steps != [] {
      ReachableHonest(steps[..|steps| - 1]);
      ReachableInv(steps[..|steps| - 1]);
      StepKeepsHonest(Exec(steps[..|steps| - 1]).value, steps[|steps| - 1]);
    }
  }

  /** Nobody is told "limit reached" before as many units of that day as its cap were really taken. */
  lemma RefusalIsHonest(steps: seq<Step>, p: Pid)
    requires Exec(steps).Some? && p in Exec(steps).value.procs
    requires Exec(steps).value.procs[p].pc == Replied(QuotaExceeded)
    ensures var s := Exec(steps).value;
      s.procs[p].cap <= |PaidOn(s, QuotaKeyOf(s.procs[p].req))| && p !in s.hist.wrote
  {
    ReachableHonest(steps);
    ReachableInv(steps);
    var s := Exec(steps).value;
    assert HonestAt(s, p);
    if p in s.hist.wrote { WriterAnsweredItsReport(steps, p); }
  }

  predicate WriterAnswered(s: State, p: Pid) {
    p in s.hist.wrote ==>
      p in s.procs && (s.procs[p].pc == Replied(Created(s.hist.wrote[p])) || s.procs[p].pc == Replied(Internal))
  }

  lemma StepKeepsWriter(s: State, step: Step, p: Pid)
    requires PaidInv(s) && WriterAnswered(s, p) && Enabled(s, step)
    ensures WriterAnswered(Apply(s, step), p)
  {
    if p != step.p {
      StepMovesOne(s, step, p);
    } else if p in s.procs {
      assert PaysOnce(s, p);
    }
  }

  /** A process that created a report answered 201 with it, or lost its acknowledgement and answered 500. */
  lemma {:induction false} WriterAnsweredItsReport(steps: seq<Step>, p: Pid)
    requires Exec(steps).Some?
    ensures WriterAnswered(Exec(steps).value, p)
  {
    if steps != [] {
      WriterAnsweredItsReport(steps[..|steps| - 1], p);
      ReachableInv(steps[..|steps| - 1]);
      StepKeepsWriter(Exec(steps[..|steps| - 1]).value, steps[|steps| - 1], p);
    }
  }

  /** A retry of an answered pair, while its row lives, is answered with the same id and touches no table. */
  lemma RetryIsFree(steps: seq<Step>, first: Pid, again: Pid, id: ReportId, ctx: Context)
    requires Exec(steps).Some? && Enabled(Exec(steps).value, Load(again, ctx)) && ToConfig(ctx.row, ctx.fallback).accepting && !ctx.blocked
    requires AnsweredOk(Exec(steps).value, first, Exec(steps).value.procs[again].req.key, id)
    requires Exec(steps).value.procs[again].req.key !in Exec(steps).value.hist.sweptKeys
    ensures var s := Exec(steps).value; var t := Apply(s, Load(again, ctx));
      AnsweredOk(t, again, s.procs[again].req.key, id) && t.db == s.db && t.hist == s.hist
  {
    UnsweptPairIsOneReport(steps, Exec(steps).value.procs[again].req.key);
  }
}
