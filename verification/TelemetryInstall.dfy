/**
 * The install row of the telemetry ingest (telemetry.ts, `INSTALL_SQL`, `priorVersion` and `touchInstall`): a read
 * of the stored version, then one guarded UPSERT, and the facts inferred from both. Statements on one row serialize
 * (a race is aborted at commit), but between a batch's read and its statement other batches may be counted. Days
 * are day numbers.
 */
module TelemetryInstall {
  import opened Prelude

  datatype Cohort = Owner | User

  datatype InstallRow = InstallRow(
    firstSeenDay: int, lastSeenDay: int, daysSeen: nat, appVersion: string, cohort: Option<Cohort>,
    quotaDay: int, quotaN: nat, machineClass: Option<string>, windowMode: Option<string>)

  /** A validated batch on the day it arrives; `implied` is the cohort its channel implies. */
  datatype Batch = Batch(
    day: int, events: nat, cap: int, appVersion: string, implied: Cohort,
    machineClass: Option<string>, windowMode: Option<string>)

  datatype Facts = Facts(firstOfDay: bool, newInstall: bool, upgraded: bool, cohort: Cohort)

  /** A request between its two statements: the version it read, and how many batches had been counted then. */
  datatype Reading = Reading(batch: Batch, prior: Option<string>, readAt: nat)

  /** A batch that was counted: the request it came with, the facts it was counted under, and `readAt` as above. */
  datatype Accepted = Accepted(request: nat, batch: Batch, facts: Facts, readAt: nat)

  /** Requests are named by the order in which they ask. */
  datatype Run = Run(row: Option<InstallRow>, log: seq<Accepted>, asked: nat, reading: map<nat, Reading>)

  const NEW_INSTALL := Run(None, [], 0, map[])

  datatype Step = Ask(batch: Batch) | Touch(request: nat)

  /** The UPDATE arm's guard: a new day, or a day whose count is still under the cap. */
  predicate Admits(row: InstallRow, b: Batch) {
    row.quotaDay != b.day || row.quotaN < b.cap
  }

  function Coalesce<T>(a: Option<T>, b: Option<T>): Option<T> {
    if a.Some? then a else b
  }

  function Insert(b: Batch): InstallRow {
    InstallRow(b.day, b.day, 1, b.appVersion, Some(b.implied), b.day, b.events, b.machineClass, b.windowMode)
  }

  function Update(row: InstallRow, b: Batch): InstallRow {
    InstallRow(
      row.firstSeenDay,
      Max(row.lastSeenDay, b.day),
      row.daysSeen + (if row.lastSeenDay < b.day then 1 else 0),
      b.appVersion,
      Some(if b.implied.Owner? then Owner else row.cohort.GetOr(User)),
      b.day,
      (if row.quotaDay == b.day then row.quotaN else 0) + b.events,
      Coalesce(b.machineClass, row.machineClass),
      Coalesce(b.windowMode, row.windowMode))
  }

  /** The facts read off the returned row, and the version read before the statement. */
  function FactsOf(prior: Option<string>, row: InstallRow, b: Batch): Facts {
    var firstOfDay := row.quotaN == b.events;
    Facts(firstOfDay, firstOfDay && row.firstSeenDay == b.day, prior.Some? && prior.value != b.appVersion, row.cohort.GetOr(User))
  }

  predicate Enabled(r: Run, step: Step) {
    step.Touch? ==> step.request in r.reading
  }

  /** An empty batch is answered without a statement; a spent cap returns no row. */
  function Apply(r: Run, step: Step): Run
    requires Enabled(r, step)
  {
    match step
    case Ask(b) =>
      var prior := if r.row.None? then None else Some(r.row.value.appVersion);
      r.(asked := r.asked + 1,
         reading := if b.events == 0 then r.reading else r.reading[r.asked := Reading(b, prior, |r.log|)])
    case Touch(p) => Count(r.(reading := r.reading - {p}), p, r.reading[p])
  }

  predicate Counts(r: Run, b: Batch) {
    r.row.None? || Admits(r.row.value, b)
  }

  function Count(r: Run, request: nat, q: Reading): Run {
    if !Counts(r, q.batch) then r
    else
      var row := if r.row.None? then Insert(q.batch) else Update(r.row.value, q.batch);
      r.(row := Some(row), log := r.log + [Accepted(request, q.batch, FactsOf(q.prior, row, q.batch), q.readAt)])
  }

  function Exec(steps: seq<Step>): Option<Run> {
    if steps == [] then Some(NEW_INSTALL)
    else
      var before := Exec(steps[..|steps| - 1]);
      var last := steps[|steps| - 1];
      if before.Some? && Enabled(before.value, last) then Some(Apply(before.value, last)) else None
  }

  // ------------------------------------------------------------ what the log of counted batches says

  function Day(log: seq<Accepted>, i: nat): int
    requires i < |log|
  {
    log[i].batch.day
  }

  /** Events counted at the end of the log, back to the last change of day. */
  function TodaysEvents(log: seq<Accepted>): nat {
    if log == [] then 0
    else
      var n := |log| - 1;
      log[n].batch.events + (if n > 0 && Day(log, n - 1) == Day(log, n) then TodaysEvents(log[..n]) else 0)
  }

  function LatestDay(log: seq<Accepted>): int
    requires log != []
  {
    if |log| == 1 then Day(log, 0) else Max(LatestDay(log[..|log| - 1]), Day(log, |log| - 1))
  }

  /** How often a day later than every day before it was counted. */
  function RecordDays(log: seq<Accepted>): nat {
    if log == [] then 0
    else
      var n := |log| - 1;
      RecordDays(log[..n]) + (if n == 0 || LatestDay(log[..n]) < Day(log, n) then 1 else 0)
  }

  /** The last stated value of a setup dimension. */
  function LastStated(log: seq<Accepted>, dim: Batch -> Option<string>): Option<string> {
    if log == [] then None
    else Coalesce(dim(log[|log| - 1].batch), LastStated(log[..|log| - 1], dim))
  }

  predicate SomeOwner(log: seq<Accepted>) {
    exists i :: 0 <= i < |log| && log[i].batch.implied.Owner?
  }

  /** The stored row, field by field, as a summary of the batches counted so far. */
  ghost predicate Summarises(row: Option<InstallRow>, log: seq<Accepted>) {
    && (row.None? <==> log == [])
    && (row.Some? ==>
          var row := row.value; var n := |log| - 1;
          && row.firstSeenDay == Day(log, 0)
          && row.lastSeenDay == LatestDay(log)
          && row.daysSeen == RecordDays(log)
          && row.appVersion == log[n].batch.appVersion
          && row.quotaDay == Day(log, n)
          && row.quotaN == TodaysEvents(log)
          && row.cohort == Some(if SomeOwner(log) then Owner else User)
          && row.machineClass == LastStated(log, (b: Batch) => b.machineClass)
          && row.windowMode == LastStated(log, (b: Batch) => b.windowMode))
  }

  ghost predicate RowSummarises(r: Run) {
    Summarises(r.row, r.log)
  }

  /** The version the row holds once the first `n` batches are counted. */
  function VersionAt(log: seq<Accepted>, n: nat): Option<string>
    requires n <= |log|
  {
    if n == 0 then None else Some(log[n - 1].batch.appVersion)
  }

  /** Does this batch change the version from `before`? */
  predicate Changes(before: Option<string>, b: Batch) {
    before.Some? && before.value != b.appVersion
  }

  /** The batch counted just before, if any, was counted on another day. */
  predicate OpensDay(log: seq<Accepted>, i: nat)
    requires i < |log|
  {
    i == 0 || Day(log, i - 1) != Day(log, i)
  }

  /**
   * The facts each batch was counted under, as a function of the batches before it; whether it is an upgrade is
   * judged by the version that was stored when it read.
   */
  predicate FactsTrue(log: seq<Accepted>, i: nat)
    requires i < |log|
  {
    var f := log[i].facts;
    && log[i].batch.events > 0
    && (f.firstOfDay <==> OpensDay(log, i))
    && (f.newInstall <==> f.firstOfDay && Day(log, i) == Day(log, 0))
    && log[i].readAt <= i && (f.upgraded <==> Changes(VersionAt(log, log[i].readAt), log[i].batch))
    && (f.cohort.Owner? <==> SomeOwner(log[..i + 1]))
    && TodaysEvents(log[..i + 1]) <= Max(0, log[i].batch.cap - 1) + log[i].batch.events
  }

  ghost predicate AllFactsTrue(log: seq<Accepted>) {
    forall i {:trigger FactsTrue(log, i)} :: 0 <= i < |log| ==> FactsTrue(log, i)
  }

  /** What a waiting request read was true when it read it. */
  predicate ReadingTrue(r: Run, p: nat)
    requires p in r.reading
  {
    var q := r.reading[p];
    p < r.asked && q.batch.events > 0 && q.readAt <= |r.log| && q.prior == VersionAt(r.log, q.readAt)
  }

  ghost predicate Inv(r: Run) {
    RowSummarises(r) && AllFactsTrue(r.log) && forall p :: p in r.reading ==> ReadingTrue(r, p)
  }

  lemma TodaysEventsPositive(log: seq<Accepted>)
    requires log != [] && forall i :: 0 <= i < |log| ==> log[i].batch.events > 0
    ensures TodaysEvents(log) > 0
  {
  }

  lemma FactsSurvive(log: seq<Accepted>, last: Accepted, i: nat)
    requires i < |log| && FactsTrue(log, i)
    ensures FactsTrue(log + [last], i)
  {
    assert (log + [last])[..i + 1] == log[..i + 1];
    assert OpensDay(log + [last], i) == OpensDay(log, i);
  }

  lemma SomeOwnerAppend(log: seq<Accepted>, last: Accepted)
    ensures SomeOwner(log + [last]) <==> SomeOwner(log) || last.batch.implied.Owner?
  {
    var all := log + [last];
    if SomeOwner(log) {
      var i :| 0 <= i < |log| && log[i].batch.implied.Owner?;
      assert all[i].batch.implied.Owner?;
    }
    if last.batch.implied.Owner? { assert all[|log|].batch.implied.Owner?; }
  }

  lemma AllFactsSurvive(log: seq<Accepted>, last: Accepted)
    requires AllFactsTrue(log) && FactsTrue(log + [last], |log|)
    ensures AllFactsTrue(log + [last])
  {
    forall i | 0 <= i < |log| ensures FactsTrue(log + [last], i) { FactsSurvive(log, last, i); }
  }

  /** The facts a batch is counted under are true of it and of the batches before it. */
  lemma NewFactsAreTrue(r: Run, p: nat, q: Reading)
    requires RowSummarises(r) && AllFactsTrue(r.log) && Counts(r, q.batch)
    requires q.batch.events > 0 && q.readAt <= |r.log| && q.prior == VersionAt(r.log, q.readAt)
    ensures FactsTrue(Count(r, p, q).log, |r.log|)
  {
    var t := Count(r, p, q);
    var last := t.log[|r.log|];
    assert t.log == r.log + [last] && last.batch == q.batch;
    assert t.log[..|r.log|] == r.log && t.log[..|r.log| + 1] == t.log;
    SomeOwnerAppend(r.log, last);
    assert VersionAt(t.log, q.readAt) == VersionAt(r.log, q.readAt);
    if r.log != [] {
      forall i | 0 <= i < |r.log| ensures r.log[i].batch.events > 0 { assert FactsTrue(r.log, i); }
      TodaysEventsPositive(r.log);
    }
  }

  lemma CountSummarises(r: Run, p: nat, q: Reading)
    requires RowSummarises(r)
    ensures RowSummarises(Count(r, p, q))
  {
    var t := Count(r, p, q);
    if Counts(r, q.batch) {
      var last := t.log[|r.log|];
      assert t.log == r.log + [last] && last.batch == q.batch;
      assert t.log[..|r.log|] == r.log;
      SomeOwnerAppend(r.log, last);
    }
  }

  lemma CountKeepsInv(r: Run, p: nat, q: Reading)
    requires Inv(r) && q.batch.events > 0 && q.readAt <= |r.log| && q.prior == VersionAt(r.log, q.readAt)
    ensures Inv(Count(r, p, q))
  {
    var t := Count(r, p, q);
    CountSummarises(r, p, q);
    if Counts(r, q.batch) {
      NewFactsAreTrue(r, p, q);
      AllFactsSurvive(r.log, t.log[|r.log|]);
      assert t.log == r.log + [t.log[|r.log|]];
      forall x | x in t.reading ensures ReadingTrue(t, x) { assert ReadingTrue(r, x); }
    }
  }

  lemma StepKeepsInv(r: Run, step: Step)
    requires Inv(r) && Enabled(r, step)
    ensures Inv(Apply(r, step))
  {
    match step
    case Ask(b) =>
      var t := Apply(r, step);
      forall x | x in t.reading ensures ReadingTrue(t, x) {
        if x in r.reading { assert ReadingTrue(r, x); }
      }
    case Touch(p) =>
      var rest := r.(reading := r.reading - {p});
      assert ReadingTrue(r, p);
      forall x | x in rest.reading ensures ReadingTrue(rest, x) { assert ReadingTrue(r, x); }
      CountKeepsInv(rest, p, r.reading[p]);
  }

  lemma {:induction false} RunInv(steps: seq<Step>)
    requires Exec(steps).Some?
    ensures Inv(Exec(steps).value)
  {
    if steps != [] {
      RunInv(steps[..|steps| - 1]);
      StepKeepsInv(Exec(steps[..|steps| - 1]).value, steps[|steps| - 1]);
    }
  }

  // ------------------------------------------------------------------------ runs under other version strings

  /** The same requests in the same order, with other version strings. */
  function Rename(steps: seq<Step>, version: nat -> string): (r: seq<Step>)
    ensures |r| == |steps|
  {
    if steps == [] then []
    else
      var front := steps[..|steps| - 1];
      var last := steps[|steps| - 1];
      Rename(front, version)
      + [if last.Ask? then Ask(last.batch.(appVersion := version(Asks(front)))) else last]
  }

  function Asks(steps: seq<Step>): nat {
    if steps == [] then 0
    else Asks(steps[..|steps| - 1]) + (if steps[|steps| - 1].Ask? then 1 else 0)
  }

  predicate RowAlike(a: InstallRow, b: InstallRow) {
    a.quotaDay == b.quotaDay && a.quotaN == b.quotaN
  }

  predicate ReadingAlike(a: Reading, b: Reading, name: string) {
    b.batch == a.batch.(appVersion := name) && b.readAt == a.readAt
  }

  predicate EntryAlike(a: Accepted, b: Accepted, name: string) {
    b.request == a.request && b.batch == a.batch.(appVersion := name) && b.readAt == a.readAt
  }

  /** Two runs that differ in version strings alone. */
  ghost predicate Alike(r: Run, t: Run, version: nat -> string) {
    && t.asked == r.asked && t.reading.Keys == r.reading.Keys && |t.log| == |r.log|
    && (r.row.None? <==> t.row.None?) && (r.row.Some? ==> RowAlike(r.row.value, t.row.value))
    && (forall p :: p in r.reading ==> ReadingAlike(r.reading[p], t.reading[p], version(p)))
    && (forall i :: 0 <= i < |r.log| ==> EntryAlike(r.log[i], t.log[i], version(r.log[i].request)))
  }

  lemma CountAlike(r: Run, t: Run, p: nat, a: Reading, b: Reading, version: nat -> string)
    requires Alike(r, t, version) && ReadingAlike(a, b, version(p))
    ensures Alike(Count(r, p, a), Count(t, p, b), version)
  {
    assert Counts(r, a.batch) <==> Counts(t, b.batch);
  }

  lemma StepAlike(r: Run, t: Run, step: Step, other: Step, version: nat -> string)
    requires Alike(r, t, version) && Enabled(r, step)
    requires other == if step.Ask? then Ask(step.batch.(appVersion := version(r.asked))) else step
    ensures Enabled(t, other) && Alike(Apply(r, step), Apply(t, other), version)
  {
    if step.Touch? {
      var p := step.request;
      CountAlike(r.(reading := r.reading - {p}), t.(reading := t.reading - {p}), p, r.reading[p], t.reading[p], version);
    }
  }

  /** What is counted, and what was read when, does not depend on the version strings. */
  lemma {:induction false} RenamedRunIsAlike(steps: seq<Step>, version: nat -> string)
    requires Exec(steps).Some?
    ensures Exec(Rename(steps, version)).Some? && Exec(steps).value.asked == Asks(steps)
    ensures Alike(Exec(steps).value, Exec(Rename(steps, version)).value, version)
  {
    if steps != [] {
      var front := steps[..|steps| - 1];
      RenamedRunIsAlike(front, version);
      var renamed := Rename(steps, version);
      assert renamed[..|renamed| - 1] == Rename(front, version);
      StepAlike(Exec(front).value, Exec(Rename(front, version)).value, steps[|steps| - 1], renamed[|renamed| - 1], version);
    }
  }

  /** Requests are counted once. */
  ghost predicate RequestsApart(r: Run) {
    && (forall p :: p in r.reading ==> p < r.asked)
    && (forall i :: 0 <= i < |r.log| ==> r.log[i].request < r.asked && r.log[i].request !in r.reading)
    && (forall i, j :: 0 <= i < j < |r.log| ==> r.log[i].request != r.log[j].request)
  }

  lemma {:induction false} RequestsStayApart(steps: seq<Step>)
    requires Exec(steps).Some?
    ensures RequestsApart(Exec(steps).value)
  {
    if steps != [] {
      RequestsStayApart(steps[..|steps| - 1]);
      StepKeepsApart(Exec(steps[..|steps| - 1]).value, steps[|steps| - 1]);
    }
  }

  lemma StepKeepsApart(r: Run, step: Step)
    requires RequestsApart(r) && Enabled(r, step)
    ensures RequestsApart(Apply(r, step))
  {
  }
}
