/** What the install row and the facts inferred from it are worth, over every run of reads and statements. */
module TelemetryFacts {
  import opened Prelude
  import opened TelemetryInstall

  /** The stored row is exactly the summary of the counted batches, and every inferred fact is true of them. */
  lemma RowAndFactsAreTrue(steps: seq<Step>)
    requires Exec(steps).Some?
    ensures RowSummarises(Exec(steps).value)
    ensures forall i :: 0 <= i < |Exec(steps).value.log| ==> FactsTrue(Exec(steps).value.log, i)
  {
    RunInv(steps);
  }

  // ------------------------------------------------------------------------------------------ upgrades

  /** The batch is announced as an upgrade exactly when it changed the version the row held. */
  predicate UpgradedIsRight(log: seq<Accepted>, i: nat)
    requires i < |log|
  {
    log[i].facts.upgraded <==> Changes(VersionAt(log, i), log[i].batch)
  }

  predicate UpgradesAreRight(log: seq<Accepted>) {
    forall i {:trigger UpgradedIsRight(log, i)} :: 0 <= i < |log| ==> UpgradedIsRight(log, i)
  }

  /** No batch of the install was counted between a counted batch's read and its statement. */
  predicate NobodyBetween(log: seq<Accepted>) {
    forall i :: 0 <= i < |log| ==> log[i].readAt == i
  }

  ghost predicate RightUnderAnyNames(steps: seq<Step>) {
    forall version: nat -> string :: Exec(Rename(steps, version)).Some? ==> UpgradesAreRight(Exec(Rename(steps, version)).value.log)
  }

  /** The versions that make the batch counted just before the read old, or, without one, the batch just before. */
  function OldAndNew(log: seq<Accepted>, i: nat): nat -> string
    requires i < |log| && log[i].readAt < i
  {
    var former := log[if log[i].readAt == 0 then i - 1 else log[i].readAt - 1].request;
    p => if p == former then "old" else "new"
  }

  /** If a batch was counted behind another's back, some versions make its `upgraded` wrong. */
  lemma StaleReadCanBeWrong(steps: seq<Step>, i: nat)
    requires Exec(steps).Some? && i < |Exec(steps).value.log| && Exec(steps).value.log[i].readAt < i
    ensures !RightUnderAnyNames(steps)
  {
    RequestsStayApart(steps);
    var log := Exec(steps).value.log;
    var version := OldAndNew(log, i);
    RenamedRunIsAlike(steps, version);
    RunInv(Rename(steps, version));
    var other := Exec(Rename(steps, version)).value.log;
    forall k | 0 <= k < |log|
      ensures other[k].batch.appVersion == version(log[k].request) && other[k].readAt == log[k].readAt
    {
      assert EntryAlike(log[k], other[k], version(log[k].request));
    }
    assert FactsTrue(other, i);
    OldAndNewDisagree(log, other, i);
    assert !UpgradedIsRight(other, i);
  }

  lemma OldAndNewDisagree(log: seq<Accepted>, other: seq<Accepted>, i: nat)
    requires i < |log| == |other| && log[i].readAt < i
    requires forall j, k :: 0 <= j < k < |log| ==> log[j].request != log[k].request
    requires forall k :: 0 <= k < |log| ==>
      other[k].batch.appVersion == OldAndNew(log, i)(log[k].request) && other[k].readAt == log[k].readAt
    ensures Changes(VersionAt(other, other[i].readAt), other[i].batch) != Changes(VersionAt(other, i), other[i].batch)
  {
    var n := log[i].readAt;
    assert "old" != "new";
    assert other[i].batch.appVersion == "new" && other[i].readAt == n;
    if n == 0 {
      assert other[i - 1].batch.appVersion == "old";
    } else {
      assert other[n - 1].batch.appVersion == "old" && other[i - 1].batch.appVersion == "new";
    }
  }

  lemma FreshReadIsRight(log: seq<Accepted>)
    requires AllFactsTrue(log) && NobodyBetween(log)
    ensures UpgradesAreRight(log)
  {
    forall i | 0 <= i < |log| ensures UpgradedIsRight(log, i) { assert FactsTrue(log, i); }
  }

  /**
   * A schedule announces upgrades rightly under all version strings if and only if no batch of the install was
   * counted between a counted batch's read of the version and its statement.
   */
  lemma UpgradesAreRightIff(steps: seq<Step>)
    requires Exec(steps).Some?
    ensures RightUnderAnyNames(steps) <==> NobodyBetween(Exec(steps).value.log)
  {
    RunInv(steps);
    var log := Exec(steps).value.log;
    if NobodyBetween(log) {
      forall version: nat -> string | Exec(Rename(steps, version)).Some?
        ensures UpgradesAreRight(Exec(Rename(steps, version)).value.log)
      {
        RenamedRunIsAlike(steps, version);
        RunInv(Rename(steps, version));
        FreshReadIsRight(Exec(Rename(steps, version)).value.log);
      }
    } else {
      var i :| 0 <= i < |log| && log[i].readAt != i;
      assert FactsTrue(log, i);
      StaleReadCanBeWrong(steps, i);
    }
  }

  // ------------------------------------------------------------------------------------------ days

  predicate NondecreasingDays(log: seq<Accepted>) {
    forall i, j :: 0 <= i < j < |log| ==> Day(log, i) <= Day(log, j)
  }

  /** No day is left and come back to. */
  predicate ContiguousDays(log: seq<Accepted>) {
    forall i, j, k :: 0 <= i < j < k < |log| && Day(log, i) == Day(log, k) ==> Day(log, j) == Day(log, k)
  }

  predicate SeenBefore(log: seq<Accepted>, i: nat)
    requires i < |log|
  {
    exists j :: 0 <= j < i && Day(log, j) == Day(log, i)
  }

  predicate AnnouncesEachDayOnce(log: seq<Accepted>) {
    forall i {:trigger SeenBefore(log, i)} :: 0 <= i < |log| ==> (log[i].facts.firstOfDay <==> !SeenBefore(log, i))
  }

  /** Each batch is announced as first of its day exactly when its predecessor was counted on another day. */
  predicate AnnouncesDayChanges(log: seq<Accepted>) {
    forall i {:trigger OpensDay(log, i)} :: 0 <= i < |log| ==> (log[i].facts.firstOfDay <==> OpensDay(log, i))
  }

  lemma RunAnnouncesDayChanges(steps: seq<Step>)
    requires Exec(steps).Some?
    ensures AnnouncesDayChanges(Exec(steps).value.log)
  {
    RunInv(steps);
    var log := Exec(steps).value.log;
    forall i | 0 <= i < |log| ensures log[i].facts.firstOfDay <==> OpensDay(log, i) {
      assert FactsTrue(log, i);
    }
  }

  /** `firstOfDay` is announced exactly once per day if and only if no day is left and come back to. */
  lemma FirstOfDayIffContiguous(steps: seq<Step>)
    requires Exec(steps).Some?
    ensures AnnouncesEachDayOnce(Exec(steps).value.log) <==> ContiguousDays(Exec(steps).value.log)
  {
    var log := Exec(steps).value.log;
    RunAnnouncesDayChanges(steps);
    if AnnouncesEachDayOnce(log) { OnceImpliesContiguous(log); }
    if ContiguousDays(log) { ContiguousImpliesOnce(log); }
  }

  lemma OnceImpliesContiguous(log: seq<Accepted>)
    requires AnnouncesEachDayOnce(log) && AnnouncesDayChanges(log)
    ensures ContiguousDays(log)
  {
    forall i, j, k | 0 <= i < j < k < |log| && Day(log, i) == Day(log, k) ensures Day(log, j) == Day(log, k) {
      DayHeld(log, i, j, k);
    }
  }

  lemma ContiguousImpliesOnce(log: seq<Accepted>)
    requires ContiguousDays(log) && AnnouncesDayChanges(log)
    ensures AnnouncesEachDayOnce(log)
  {
    forall i | 0 <= i < |log| ensures log[i].facts.firstOfDay <==> !SeenBefore(log, i) {
      assert log[i].facts.firstOfDay <==> OpensDay(log, i);
      if SeenBefore(log, i) {
        var j :| 0 <= j < i && Day(log, j) == Day(log, i);
        if j < i - 1 { assert Day(log, i - 1) == Day(log, i); }
      }
      if i > 0 && Day(log, i - 1) == Day(log, i) {
        var j := i - 1;
        assert 0 <= j < i && Day(log, j) == Day(log, i);
        assert SeenBefore(log, i);
      }
    }
  }

  /** When days are announced once, a day that is seen again was never left in between. */
  lemma {:induction false} DayHeld(log: seq<Accepted>, i: nat, j: nat, k: nat)
    requires i < j < k < |log| && Day(log, i) == Day(log, k)
    requires AnnouncesEachDayOnce(log) && AnnouncesDayChanges(log)
    ensures Day(log, j) == Day(log, k)
    decreases k
  {
    assert SeenBefore(log, k);
    assert !OpensDay(log, k);
    assert Day(log, k - 1) == Day(log, k);
    if j < k - 1 { DayHeld(log, i, j, k - 1); }
  }

  lemma {:induction false} LatestIsLast(log: seq<Accepted>)
    requires log != [] && NondecreasingDays(log)
    ensures LatestDay(log) == Day(log, |log| - 1)
  {
    if |log| > 1 {
      FrontNondecreasing(log);
      LatestIsLast(log[..|log| - 1]);
      assert Day(log, |log| - 2) <= Day(log, |log| - 1);
    }
  }

  lemma FrontNondecreasing(log: seq<Accepted>)
    requires log != [] && NondecreasingDays(log)
    ensures NondecreasingDays(log[..|log| - 1])
  {
    var front := log[..|log| - 1];
    forall i, j | 0 <= i < j < |front| ensures Day(front, i) <= Day(front, j) {
      assert Day(log, i) <= Day(log, j);
    }
  }

  function DaySet(log: seq<Accepted>): set<int> {
    set i | 0 <= i < |log| :: Day(log, i)
  }

  lemma DaySetGrows(log: seq<Accepted>)
    requires log != []
    ensures DaySet(log) == DaySet(log[..|log| - 1]) + {Day(log, |log| - 1)}
  {
    var n := |log| - 1;
    var front := log[..n];
    forall d | d in DaySet(front) ensures d in DaySet(log) {
      var i :| 0 <= i < n && Day(front, i) == d;
      assert Day(log, i) == d;
    }
    forall d | d in DaySet(log) ensures d in DaySet(front) || d == Day(log, n) {
      var i :| 0 <= i <= n && Day(log, i) == d;
      if i < n { assert Day(front, i) == d; }
    }
  }

  /** In day order, the last batch's day is new exactly when it is later than the one before. */
  lemma DayIsNew(log: seq<Accepted>)
    requires |log| > 1 && NondecreasingDays(log)
    ensures Day(log, |log| - 1) in DaySet(log[..|log| - 1]) <==> Day(log, |log| - 2) == Day(log, |log| - 1)
  {
    var n := |log| - 1;
    var front := log[..n];
    assert Day(front, n - 1) in DaySet(front);
    if Day(log, n) in DaySet(front) {
      var i :| 0 <= i < n && Day(front, i) == Day(log, n);
      assert i < n - 1 ==> Day(log, i) <= Day(log, n - 1);
      assert Day(log, n - 1) <= Day(log, n);
    }
  }

  lemma {:induction false} RecordDaysCountsDays(log: seq<Accepted>)
    requires NondecreasingDays(log)
    ensures RecordDays(log) == |DaySet(log)|
  {
    if log != [] {
      var n := |log| - 1;
      FrontNondecreasing(log);
      RecordDaysCountsDays(log[..n]);
      DaySetGrows(log);
      if n > 0 {
        LatestIsLast(log[..n]);
        DayIsNew(log);
        assert Day(log, n - 1) <= Day(log, n);
      }
    }
  }

  /**
   * Batches counted in day order: the first of each day is announced exactly once, the install exactly
   * once and on its first batch, and `days_seen` is the number of distinct days.
   */
  lemma DayOrderFacts(steps: seq<Step>)
    requires Exec(steps).Some? && NondecreasingDays(Exec(steps).value.log)
    ensures var r := Exec(steps).value;
      && AnnouncesEachDayOnce(r.log)
      && (forall i :: 0 <= i < |r.log| ==> (r.log[i].facts.newInstall <==> i == 0))
      && (r.row.Some? ==> r.row.value.daysSeen == |DaySet(r.log)|)
  {
    var r := Exec(steps).value;
    RunInv(steps);
    RunAnnouncesDayChanges(steps);
    OrderedIsContiguous(r.log);
    ContiguousImpliesOnce(r.log);
    RecordDaysCountsDays(r.log);
    forall i | 0 <= i < |r.log| ensures r.log[i].facts.newInstall <==> i == 0 {
      assert FactsTrue(r.log, i);
      if i > 0 && Day(r.log, i) == Day(r.log, 0) {
        assert i > 1 ==> Day(r.log, 0) <= Day(r.log, i - 1);
        assert Day(r.log, i - 1) <= Day(r.log, i);
      }
    }
  }

  lemma OrderedIsContiguous(log: seq<Accepted>)
    requires NondecreasingDays(log)
    ensures ContiguousDays(log)
  {
    forall i, j, k | 0 <= i < j < k < |log| && Day(log, i) == Day(log, k) ensures Day(log, j) == Day(log, k) {
      assert Day(log, i) <= Day(log, j) && Day(log, j) <= Day(log, k);
    }
  }

  // ------------------------------------------------------------------------------------------ what is counted

  /** The batch the p-th request brought. */
  function BatchOf(steps: seq<Step>, p: nat): Batch
    requires p < Asks(steps)
  {
    var front := steps[..|steps| - 1];
    if p < Asks(front) then BatchOf(front, p) else steps[|steps| - 1].batch
  }

  /** The request brought events and its statement has not run yet. */
  predicate Waits(steps: seq<Step>, p: nat) {
    p < Asks(steps) && BatchOf(steps, p).events > 0 && Touch(p) !in steps
  }

  lemma {:induction false} WhoWaits(steps: seq<Step>, p: nat)
    requires Exec(steps).Some?
    ensures Exec(steps).value.asked == Asks(steps)
    ensures p in Exec(steps).value.reading <==> Waits(steps, p)
    ensures Waits(steps, p) ==> Exec(steps).value.reading[p].batch == BatchOf(steps, p)
    ensures Touch(p) in steps ==> p < Asks(steps)
  {
    if steps != [] {
      var front := steps[..|steps| - 1];
      WhoWaits(front, p);
      assert steps == front + [steps[|steps| - 1]];
      if steps[|steps| - 1].Touch? { WhoWaits(front, steps[|steps| - 1].request); }
    }
  }

  /** There is room: nothing was counted yet, or nothing on this day since it was come to, or less than the cap. */
  predicate HasRoom(log: seq<Accepted>, b: Batch) {
    log == [] || Day(log, |log| - 1) != b.day || TodaysEvents(log) < b.cap
  }

  /**
   * In every run a request's statement counts its batch if and only if there is room by what was counted before:
   * however large the batch, as long as the count is under the cap. A refused one leaves row and log as they were.
   */
  lemma CountedIffRoom(steps: seq<Step>, p: nat)
    requires Exec(steps).Some? && Waits(steps, p)
    ensures Exec(steps + [Touch(p)]).Some?
    ensures var r, t := Exec(steps).value, Exec(steps + [Touch(p)]).value; var b := BatchOf(steps, p);
      && (HasRoom(r.log, b) ==>
            |t.log| == |r.log| + 1 && t.log[..|r.log|] == r.log && t.log[|r.log|].request == p && t.log[|r.log|].batch == b)
      && (!HasRoom(r.log, b) ==> t.log == r.log && t.row == r.row)
  {
    RunInv(steps);
    WhoWaits(steps, p);
    ExecStep(steps, Touch(p));
  }

  // ------------------------------------------------------------------------------------------ the quota

  predicate CapsAndSizes(log: seq<Accepted>, cap: nat, size: nat) {
    cap >= 1 && forall i :: 0 <= i < |log| ==> log[i].batch.cap <= cap && log[i].batch.events <= size
  }

  /** All events counted on a day. */
  function DayTotal(log: seq<Accepted>, day: int): nat {
    if log == [] then 0
    else
      var n := |log| - 1;
      DayTotal(log[..n], day) + (if Day(log, n) == day then log[n].batch.events else 0)
  }

  /** How often the day was come to, counting a batch on it right after one on it as staying. */
  function Stretches(log: seq<Accepted>, day: int): nat {
    if log == [] then 0
    else
      var n := |log| - 1;
      Stretches(log[..n], day) + (if Day(log, n) == day && OpensDay(log, n) then 1 else 0)
  }

  lemma FactsOfFront(log: seq<Accepted>)
    requires log != [] && AllFactsTrue(log)
    ensures AllFactsTrue(log[..|log| - 1])
  {
    var front := log[..|log| - 1];
    forall i | 0 <= i < |front| ensures FactsTrue(front, i) {
      assert FactsTrue(log, i);
      assert front[..i + 1] == log[..i + 1];
      assert OpensDay(front, i) == OpensDay(log, i);
    }
  }

  lemma TodayIsBounded(log: seq<Accepted>, cap: nat, size: nat)
    requires log != [] && AllFactsTrue(log) && CapsAndSizes(log, cap, size)
    ensures TodaysEvents(log) <= cap - 1 + size
  {
    assert FactsTrue(log, |log| - 1);
    assert log[..|log|] == log;
  }

  lemma TodayGrows(log: seq<Accepted>)
    requires log != []
    ensures var n := |log| - 1;
      TodaysEvents(log) == log[n].batch.events + (if OpensDay(log, n) then 0 else TodaysEvents(log[..n]))
  {
  }

  lemma OnceMore(times: nat, bound: nat)
    ensures (times + 1) * bound == times * bound + bound
  {
  }

  /** Earlier stretches of the day are within the bound each, and the current one is what has been counted of it. */
  lemma {:induction false} StretchesAreBounded(log: seq<Accepted>, day: int, cap: nat, size: nat, bound: nat)
    requires AllFactsTrue(log) && CapsAndSizes(log, cap, size) && bound == cap - 1 + size
    ensures DayTotal(log, day) <= Stretches(log, day) * bound
    ensures log != [] && Day(log, |log| - 1) == day ==>
      Stretches(log, day) >= 1 && DayTotal(log, day) <= (Stretches(log, day) - 1) * bound + TodaysEvents(log)
  {
    if log != [] {
      var front := log[..|log| - 1];
      FactsOfFront(log);
      StretchesAreBounded(front, day, cap, size, bound);
      TodayIsBounded(log, cap, size);
      TodayGrows(log);
      OnceMore(Stretches(front, day), bound);
      if front != [] { assert Day(front, |front| - 1) == Day(log, |front| - 1); }
      if Stretches(front, day) >= 1 { OnceMore(Stretches(front, day) - 1, bound); }
    }
  }

  lemma {:induction false} NoSuchDay(log: seq<Accepted>, day: int)
    requires forall i :: 0 <= i < |log| ==> Day(log, i) != day
    ensures Stretches(log, day) == 0
  {
    if log != [] {
      var front := log[..|log| - 1];
      assert forall i :: 0 <= i < |front| ==> Day(front, i) == Day(log, i);
      NoSuchDay(front, day);
    }
  }

  lemma OpenedDayIsNew(log: seq<Accepted>, i: nat, n: nat)
    requires ContiguousDays(log) && i < n < |log| && OpensDay(log, n)
    ensures Day(log, i) != Day(log, n)
  {
  }

  lemma {:induction false} ContiguousIsOneStretch(log: seq<Accepted>, day: int)
    requires ContiguousDays(log)
    ensures Stretches(log, day) <= 1
  {
    if log != [] {
      var n := |log| - 1;
      var front := log[..n];
      assert forall i :: 0 <= i < n ==> Day(front, i) == Day(log, i);
      if Day(log, n) == day && OpensDay(log, n) {
        forall i | 0 <= i < n ensures Day(front, i) != day { OpenedDayIsNew(log, i, n); }
        NoSuchDay(front, day);
      } else {
        ContiguousIsOneStretch(front, day);
      }
    }
  }

  lemma AtMostOnce(k: nat, n: nat)
    requires k <= 1
    ensures k * n <= n
  {
    assert k == 0 || k == 1;
  }

  lemma DayTotalWithin(log: seq<Accepted>, day: int, cap: nat, size: nat, bound: nat)
    requires AllFactsTrue(log) && CapsAndSizes(log, cap, size) && bound == cap - 1 + size
    ensures DayTotal(log, day) <= Stretches(log, day) * bound
    ensures ContiguousDays(log) ==> DayTotal(log, day) <= bound
  {
    StretchesAreBounded(log, day, cap, size, bound);
    if ContiguousDays(log) {
      ContiguousIsOneStretch(log, day);
      AtMostOnce(Stretches(log, day), bound);
    }
  }

  /**
   * All events counted on a day are at most the cap minus one plus the largest batch, as often as the day was come
   * to; so once if no day is left and come back to.
   */
  lemma DayTotalIsBounded(steps: seq<Step>, day: int, cap: nat, size: nat)
    requires Exec(steps).Some? && CapsAndSizes(Exec(steps).value.log, cap, size)
    ensures var log := Exec(steps).value.log;
      && DayTotal(log, day) <= Stretches(log, day) * (cap - 1 + size)
      && (ContiguousDays(log) ==> DayTotal(log, day) <= cap - 1 + size)
  {
    RunInv(steps);
    DayTotalWithin(Exec(steps).value.log, day, cap, size, cap - 1 + size);
  }

  function OnDay(day: int): Batch {
    Batch(day, 1, 1, "v", User, None, None)
  }

  /** One-event batches on two days in turn, under a cap of one. */
  function Alternating(n: nat): seq<Step> {
    if n == 0 then [] else Again(Alternating(n - 1), 2 * n - 2)
  }

  function Again(steps: seq<Step>, asked: nat): seq<Step> {
    steps + [Ask(OnDay(1))] + [Touch(asked)] + [Ask(OnDay(2))] + [Touch(asked + 1)]
  }

  lemma ExecStep(steps: seq<Step>, step: Step)
    requires Exec(steps).Some? && Enabled(Exec(steps).value, step)
    ensures Exec(steps + [step]) == Some(Apply(Exec(steps).value, step))
  {
    assert (steps + [step])[..|steps|] == steps;
  }

  /** A run of so many batches that counted `total` events on day one, and whose last counted batch, if any, was on `day`. */
  predicate StandsAt(r: Option<Run>, asked: nat, total: nat, day: int) {
    && r.Some? && r.value.asked == asked && DayTotal(r.value.log, 1) == total
    && (r.value.row.Some? ==> r.value.row.value.quotaDay == day)
  }

  lemma AnotherDayIsCounted(steps: seq<Step>, asked: nat, total: nat, was: int, day: int)
    requires StandsAt(Exec(steps), asked, total, was) && day != was
    ensures StandsAt(Exec(steps + [Ask(OnDay(day))] + [Touch(asked)]), asked + 1, if day == 1 then total + 1 else total, day)
  {
    var r := Exec(steps).value;
    ExecStep(steps, Ask(OnDay(day)));
    ExecStep(steps + [Ask(OnDay(day))], Touch(asked));
    var t := Exec(steps + [Ask(OnDay(day))] + [Touch(asked)]).value;
    assert t.log[..|r.log|] == r.log;
  }

  lemma AgainIsCounted(steps: seq<Step>, asked: nat, total: nat)
    requires StandsAt(Exec(steps), asked, total, 2)
    ensures StandsAt(Exec(Again(steps, asked)), asked + 2, total + 1, 2)
  {
    AnotherDayIsCounted(steps, asked, total, 2, 1);
    AnotherDayIsCounted(steps + [Ask(OnDay(1))] + [Touch(asked)], asked + 1, total + 1, 1, 2);
  }

  /** So with a cap of one, a day that is left and come back to may be counted any number of times. */
  lemma {:induction false} AlternatingDaysDefeatTheCap(n: nat)
    ensures StandsAt(Exec(Alternating(n)), 2 * n, n, 2)
  {
    if n > 0 {
      AlternatingDaysDefeatTheCap(n - 1);
      AgainIsCounted(Alternating(n - 1), 2 * (n - 1), n - 1);
    }
  }
}
