/**
 * The error log's file sink (errorLog.ts): one queue, at most one drain, and a synchronous flush that may cut in
 * at any await. Lines are named by the order in which writeLine was called, so a file in call order is one whose
 * names increase.
 */
module ErrorLog {
  import opened Prelude
  import opened Tally

  /** What the drain is awaiting, with the batch it took. */
  datatype Phase =
    | Idle
    | Statting(batch: seq<nat>)
    | Truncating(batch: seq<nat>)
    | Appending(batch: seq<nat>)

  datatype FileLine = TruncationNotice | Written(line: nat)

  /** A batch that left the queue, and whether its append succeeded. */
  datatype Settled = Settled(batch: seq<nat>, ok: bool)

  datatype Log = Log(
    pending: seq<nat>, draining: bool, phase: Phase, pathKnown: bool, file: seq<FileLine>,
    made: nat, settled: seq<Settled>)

  const NEW_LOG := Log([], false, Idle, false, [], 0, [])

  function InFlight(q: Log): seq<nat> {
    if q.phase.Idle? then [] else q.phase.batch
  }

  function Lines(batch: seq<nat>): (r: seq<FileLine>)
    ensures |r| == |batch|
  {
    seq(|batch|, i requires 0 <= i < |batch| => Written(batch[i]))
  }

  /** The drain's loop head: take everything that has piled up, or stop. Only the first path lookup can throw. */
  function NextBatch(q: Log, pathOk: bool): Log {
    if q.pending == [] then q.(draining := false, phase := Idle)
    else if q.pathKnown || pathOk then q.(pending := [], pathKnown := true, phase := Statting(q.pending))
    else q.(pending := [], draining := false, phase := Idle, settled := q.settled + [Settled(q.pending, false)])
  }

  function WriteLine(q: Log, pathOk: bool): Log {
    var queued := q.(pending := q.pending + [q.made], made := q.made + 1);
    if q.draining then queued else NextBatch(queued.(draining := true), pathOk)
  }

  /** An append that failed wrote nothing; the batch is not retried. */
  function Landed(q: Log, batch: seq<nat>, ok: bool): Log {
    q.(file := if ok then q.file + Lines(batch) else q.file, settled := q.settled + [Settled(batch, ok)])
  }

  function Flushed(q: Log, pathOk: bool, truncates: bool, ok: bool): Log {
    if q.pending == [] then q
    else
      var taken := q.(pending := []);
      if !(q.pathKnown || pathOk) then Landed(taken, q.pending, false)
      else
        var ready := taken.(pathKnown := true, file := if truncates then [TruncationNotice] else q.file);
        Landed(ready, q.pending, ok)
  }

  datatype Event =
    | Write(pathOk: bool)
    | StatDone(overLimit: bool)
    | TruncateDone(truncated: bool)
    | AppendDone(appended: bool)
    | Flush(pathFound: bool, truncates: bool, ok: bool)

  predicate Enabled(q: Log, e: Event) {
    match e
    case Write(_) => true
    case StatDone(_) => q.phase.Statting?
    case TruncateDone(_) => q.phase.Truncating?
    case AppendDone(_) => q.phase.Appending?
    case Flush(_, _, _) => true
  }

  function Apply(q: Log, e: Event): Log
    requires Enabled(q, e)
  {
    match e
    case Write(pathOk) => WriteLine(q, pathOk)
    case StatDone(overLimit) =>
      q.(phase := if overLimit then Truncating(q.phase.batch) else Appending(q.phase.batch))
    case TruncateDone(truncated) =>
      q.(phase := Appending(q.phase.batch), file := if truncated then [TruncationNotice] else q.file)
    case AppendDone(appended) => NextBatch(Landed(q, q.phase.batch, appended), true)
    case Flush(pathFound, truncates, ok) => Flushed(q, pathFound, truncates, ok)
  }

  function Exec(events: seq<Event>): Option<Log> {
    if events == [] then Some(NEW_LOG)
    else
      var before := Exec(events[..|events| - 1]);
      var last := events[|events| - 1];
      if before.None? || !Enabled(before.value, last) then None else Some(Apply(before.value, last))
  }

  // ------------------------------------------------------------------------------- the module's variables

  class Sink {
    var pending: seq<nat>
    var draining: bool
    var phase: Phase
    var pathKnown: bool
    var file: seq<FileLine>
    ghost var made: nat
    ghost var settled: seq<Settled>

    constructor ()
      ensures State() == NEW_LOG
    {
      pending, draining, phase, pathKnown, file := [], false, Idle, false, [];
      made, settled := 0, [];
    }

    ghost function State(): Log
      reads this
    {
      Log(pending, draining, phase, pathKnown, file, made, settled)
    }

    /** The synchronous stretch of drain() from its loop head to its next await, or to its end. */
    method RunDrain(pathOk: bool)
      requires draining
      modifies this
      ensures State() == NextBatch(old(State()), pathOk)
    {
      while pending != []
        invariant draining && (pending == [] && old(pending) != [] ==> !pathKnown && !pathOk)
        invariant State() == old(State()) || (pending == [] && old(pending) != []
          && State() == old(State()).(pending := [], settled := old(settled) + [Settled(old(pending), false)]))
        decreases |pending|
      {
        var batch := pending;
        pending := [];
        if pathKnown || pathOk {
          pathKnown := true;
          phase := Statting(batch);
          return;
        }
        settled := settled + [Settled(batch, false)];
      }
      draining := false;
      phase := Idle;
    }

    method Write(line: nat, pathOk: bool)
      requires line == made
      modifies this
      ensures State() == WriteLine(old(State()), pathOk) && made == old(made) + 1
    {
      pending := pending + [line];
      made := made + 1;
      if draining { return; }
      draining := true;
      RunDrain(pathOk);
    }

    method OnStat(overLimit: bool)
      requires phase.Statting?
      modifies this
      ensures State() == Apply(old(State()), StatDone(overLimit))
    {
      phase := if overLimit then Truncating(phase.batch) else Appending(phase.batch);
    }

    method OnTruncate(truncated: bool)
      requires phase.Truncating?
      modifies this
      ensures State() == Apply(old(State()), TruncateDone(truncated))
    {
      if truncated { file := [TruncationNotice]; }
      phase := Appending(phase.batch);
    }

    method OnAppend(appended: bool)
      requires phase.Appending? && draining && pathKnown
      modifies this
      ensures State() == Apply(old(State()), AppendDone(appended))
    {
      if appended { file := file + Lines(phase.batch); }
      settled := settled + [Settled(phase.batch, appended)];
      RunDrain(true);
    }

    method FlushErrorLogSync(pathOk: bool, truncates: bool, ok: bool)
      modifies this
      ensures State() == Apply(old(State()), Flush(pathOk, truncates, ok))
    {
      if |pending| == 0 { return; }
      var batch := pending;
      pending := [];
      if !pathKnown && !pathOk {
        settled := settled + [Settled(batch, false)];
        return;
      }
      pathKnown := true;
      if truncates { file := [TruncationNotice]; }
      if ok { file := file + Lines(batch); }
      settled := settled + [Settled(batch, ok)];
    }
  }

  // ------------------------------------------------------------------------------------------- conservation

  function Batches(settled: seq<Settled>): seq<nat> {
    if settled == [] then [] else Batches(settled[..|settled| - 1]) + settled[|settled| - 1].batch
  }

  function Appended(settled: seq<Settled>): seq<nat> {
    if settled == [] then []
    else
      var last := settled[|settled| - 1];
      Appended(settled[..|settled| - 1]) + (if last.ok then last.batch else [])
  }

  function Dropped(settled: seq<Settled>): seq<nat> {
    if settled == [] then []
    else
      var last := settled[|settled| - 1];
      Dropped(settled[..|settled| - 1]) + (if last.ok then [] else last.batch)
  }

  function Made(n: nat): (r: seq<nat>)
    ensures |r| == n && forall i :: 0 <= i < n ==> r[i] == i
  {
    seq(n, i => i)
  }

  /** Every line ever made, wherever it is now. */
  function Whereabouts(q: Log): multiset<nat> {
    multiset(Appended(q.settled)) + multiset(Dropped(q.settled)) + multiset(InFlight(q)) + multiset(q.pending)
  }

  predicate Sound(q: Log) {
    && (q.draining <==> !q.phase.Idle?)
    && (q.pending != [] ==> q.draining)
    && (!q.phase.Idle? ==> q.phase.batch != [] && q.pathKnown)
  }

  lemma SettleOne(settled: seq<Settled>, s: Settled)
    ensures Batches(settled + [s]) == Batches(settled) + s.batch
    ensures Appended(settled + [s]) == Appended(settled) + (if s.ok then s.batch else [])
    ensures Dropped(settled + [s]) == Dropped(settled) + (if s.ok then [] else s.batch)
  {
    assert (settled + [s])[..|settled|] == settled;
  }

  lemma {:induction false} Partition(settled: seq<Settled>)
    ensures multiset(Batches(settled)) == multiset(Appended(settled)) + multiset(Dropped(settled))
    ensures |Batches(settled)| == |Appended(settled)| + |Dropped(settled)|
  {
    if settled != [] { Partition(settled[..|settled| - 1]); }
  }

  /** Everything that left the queue, then the batch in flight, then the queue. */
  function AllLines(q: Log): seq<nat> {
    Batches(q.settled) + InFlight(q) + q.pending
  }

  lemma WhereaboutsAreLines(q: Log)
    ensures Whereabouts(q) == multiset(AllLines(q))
    ensures |AllLines(q)| == |Appended(q.settled)| + |Dropped(q.settled)| + |InFlight(q)| + |q.pending|
  {
    Partition(q.settled);
  }

  lemma NothingBetween(a: seq<nat>, b: seq<nat>)
    ensures a + [] + b == a + b && a + b + [] == a + b
  {
  }

  lemma NextBatchMoves(q: Log, pathOk: bool)
    requires InFlight(q) == []
    ensures AllLines(NextBatch(q, pathOk)) == AllLines(q)
  {
    NothingBetween(Batches(q.settled), q.pending);
    SettleOne(q.settled, Settled(q.pending, false));
    NothingBetween(Batches(q.settled) + q.pending, []);
  }

  lemma WriteAddsOne(q: Log, pathOk: bool)
    requires Sound(q)
    ensures AllLines(WriteLine(q, pathOk)) == AllLines(q) + [q.made]
  {
    var queued := q.(pending := q.pending + [q.made], made := q.made + 1);
    assert AllLines(queued) == AllLines(q) + [q.made];
    if !q.draining { NextBatchMoves(queued.(draining := true), pathOk); }
  }

  lemma LandingMovesNothing(q: Log, appended: bool)
    requires q.phase.Appending?
    ensures AllLines(Apply(q, AppendDone(appended))) == AllLines(q)
  {
    SettleOne(q.settled, Settled(q.phase.batch, appended));
    var landed := Landed(q, q.phase.batch, appended).(phase := Idle);
    NothingBetween(Batches(landed.settled), q.pending);
    NextBatchMoves(landed, true);
    assert NextBatch(Landed(q, q.phase.batch, appended), true) == NextBatch(landed, true);
  }

  lemma FlushShuffles(q: Log, pathFound: bool, truncates: bool, ok: bool)
    ensures multiset(AllLines(Flushed(q, pathFound, truncates, ok))) == multiset(AllLines(q))
  {
    SettleOne(q.settled, Settled(q.pending, ok));
    SettleOne(q.settled, Settled(q.pending, false));
    var r := Flushed(q, pathFound, truncates, ok);
    if q.pending != [] {
      assert AllLines(r) == Batches(q.settled) + q.pending + InFlight(q) + [];
    }
  }

  lemma MakeOne(n: nat)
    ensures Made(n + 1) == Made(n) + [n]
  {
  }

  /** Sound states stay sound: nothing waits without a drain, and a drain always holds a batch. */
  lemma StepKeepsSound(q: Log, e: Event)
    requires Sound(q) && Enabled(q, e)
    ensures Sound(Apply(q, e))
  {
  }

  lemma AnswersMoveNothing(q: Log, e: Event)
    requires Enabled(q, e) && (e.StatDone? || e.TruncateDone?)
    ensures AllLines(Apply(q, e)) == AllLines(q) && Apply(q, e).made == q.made
  {
  }

  /** A step that is not a flush only adds the new line, at the end; a flush moves lines about. */
  lemma StepKeepsLines(q: Log, e: Event)
    requires Sound(q) && Enabled(q, e)
    ensures Apply(q, e).made == q.made + (if e.Write? then 1 else 0)
    ensures e.Flush? ==> multiset(AllLines(Apply(q, e))) == multiset(AllLines(q))
    ensures !e.Flush? ==> AllLines(Apply(q, e)) == (if e.Write? then AllLines(q) + [q.made] else AllLines(q))
  {
    match e
    case Write(pathOk) => WriteAddsOne(q, pathOk);
    case AppendDone(appended) => LandingMovesNothing(q, appended);
    case Flush(pathFound, truncates, ok) => FlushShuffles(q, pathFound, truncates, ok);
    case _ => AnswersMoveNothing(q, e);
  }

  lemma StepKeepsAccounts(q: Log, e: Event)
    requires Sound(q) && Enabled(q, e) && multiset(AllLines(q)) == multiset(Made(q.made))
    ensures multiset(AllLines(Apply(q, e))) == multiset(Made(Apply(q, e).made))
  {
    StepKeepsLines(q, e);
    MakeOne(q.made);
    if e.Write? { assert multiset(AllLines(Apply(q, e))) == multiset(AllLines(q)) + multiset{q.made}; }
  }

  lemma {:induction false} LinesAreTheMade(events: seq<Event>)
    requires Exec(events).Some?
    ensures var q := Exec(events).value; Sound(q) && multiset(AllLines(q)) == multiset(Made(q.made))
  {
    if events != [] {
      LinesAreTheMade(events[..|events| - 1]);
      StepKeepsSound(Exec(events[..|events| - 1]).value, events[|events| - 1]);
      StepKeepsAccounts(Exec(events[..|events| - 1]).value, events[|events| - 1]);
    }
  }

  /**
   * In every reachable state each line ever made is in exactly one place: appended, dropped with its whole
   * batch, in flight, or pending. So no line is lost silently and none is written twice.
   */
  lemma EveryLineIsAccountedFor(events: seq<Event>)
    requires Exec(events).Some?
    ensures var q := Exec(events).value;
      && Sound(q) && Whereabouts(q) == multiset(Made(q.made))
      && |Appended(q.settled)| + |Dropped(q.settled)| + |InFlight(q)| + |q.pending| == q.made
  {
    var q := Exec(events).value;
    LinesAreTheMade(events);
    WhereaboutsAreLines(q);
    assert |multiset(AllLines(q))| == |multiset(Made(q.made))|;
  }

  /** Whenever lines are waiting a drain is running, and it holds the one batch that is in flight. */
  lemma NoLostWakeUp(events: seq<Event>)
    requires Exec(events).Some?
    ensures var q := Exec(events).value;
      && (q.pending != [] ==> q.draining && InFlight(q) != [])
      && (q.draining <==> InFlight(q) != [])
  {
    EveryLineIsAccountedFor(events);
  }

  // ------------------------------------------------------------------------------------------ the file

  /** The steps that empty the file: the drain's truncation, and that of a flush that has something to write. */
  predicate Cuts(q: Log, e: Event) {
    e == TruncateDone(true) || (e.Flush? && e.truncates && q.pending != [])
  }

  /** How many lines had been appended when the file was last emptied. */
  function LastCut(events: seq<Event>): Option<nat>
    requires Exec(events).Some?
  {
    if events == [] then None
    else
      var front := events[..|events| - 1];
      var q := Exec(front).value;
      if Cuts(q, events[|events| - 1]) then Some(|Appended(q.settled)|) else LastCut(front)
  }

  /** All of these lines, or those since the cut under the notice that it left. */
  function Since(lines: seq<nat>, cut: Option<nat>): seq<FileLine>
    requires cut.Some? ==> cut.value <= |lines|
  {
    match cut
    case None => Lines(lines)
    case Some(k) => [TruncationNotice] + Lines(lines[k..])
  }

  predicate HoldsSince(q: Log, cut: Option<nat>) {
    var lines := Appended(q.settled);
    (cut.Some? ==> cut.value <= |lines|) && q.file == Since(lines, cut)
  }

  lemma LinesAppend(a: seq<nat>, b: seq<nat>)
    ensures Lines(a + b) == Lines(a) + Lines(b)
  {
  }

  lemma SinceGrows(lines: seq<nat>, batch: seq<nat>, cut: Option<nat>)
    requires cut.Some? ==> cut.value <= |lines|
    ensures Since(lines + batch, cut) == Since(lines, cut) + Lines(batch)
  {
    match cut
    case None => LinesAppend(lines, batch);
    case Some(k) =>
      assert (lines + batch)[k..] == lines[k..] + batch;
      LinesAppend(lines[k..], batch);
  }

  lemma LandedHoldsSince(q: Log, batch: seq<nat>, ok: bool, cut: Option<nat>)
    requires HoldsSince(q, cut)
    ensures HoldsSince(Landed(q, batch, ok), cut)
  {
    var lines := Appended(q.settled);
    SettleOne(q.settled, Settled(batch, ok));
    if ok {
      SinceGrows(lines, batch, cut);
    } else {
      NothingBetween(lines, []);
    }
  }

  lemma EmptiedHoldsSince(q: Log)
    requires q.file == [TruncationNotice]
    ensures HoldsSince(q, Some(|Appended(q.settled)|))
  {
  }

  lemma FlushHoldsSince(q: Log, pathFound: bool, truncates: bool, ok: bool, cut: Option<nat>)
    requires Sound(q) && HoldsSince(q, cut)
    ensures var later := if truncates && q.pending != [] then Some(|Appended(q.settled)|) else cut;
      HoldsSince(Flushed(q, pathFound, truncates, ok), later)
  {
    if q.pending != [] {
      var ready := q.(pending := [], pathKnown := true, file := if truncates then [TruncationNotice] else q.file);
      if truncates {
        EmptiedHoldsSince(ready);
        LandedHoldsSince(ready, q.pending, ok, Some(|Appended(q.settled)|));
      } else {
        LandedHoldsSince(ready, q.pending, ok, cut);
      }
    }
  }

  lemma NextBatchHoldsSince(q: Log, pathOk: bool, cut: Option<nat>)
    requires HoldsSince(q, cut)
    ensures HoldsSince(NextBatch(q, pathOk), cut)
  {
    SettleOne(q.settled, Settled(q.pending, false));
  }

  lemma StepHoldsSince(q: Log, e: Event, cut: Option<nat>)
    requires Sound(q) && Enabled(q, e) && HoldsSince(q, cut)
    ensures HoldsSince(Apply(q, e), if Cuts(q, e) then Some(|Appended(q.settled)|) else cut)
  {
    match e
    case Write(pathOk) =>
      var queued := q.(pending := q.pending + [q.made], made := q.made + 1);
      if !q.draining { NextBatchHoldsSince(queued.(draining := true), pathOk, cut); }
    case AppendDone(appended) =>
      LandedHoldsSince(q, q.phase.batch, appended, cut);
      NextBatchHoldsSince(Landed(q, q.phase.batch, appended), true, cut);
    case Flush(pathFound, truncates, ok) => FlushHoldsSince(q, pathFound, truncates, ok, cut);
    case StatDone(_) =>
    case TruncateDone(truncated) => if truncated { EmptiedHoldsSince(Apply(q, e)); }
  }

  /**
   * In every run the file holds exactly the lines appended since it was last emptied, in the order of their
   * appends and under the notice of that truncation; a file that was never emptied holds all of them.
   */
  lemma {:induction false} FileIsWhatWasAppendedSince(events: seq<Event>)
    requires Exec(events).Some?
    ensures HoldsSince(Exec(events).value, LastCut(events))
  {
    if events != [] {
      var front := events[..|events| - 1];
      FileIsWhatWasAppendedSince(front);
      LinesAreTheMade(front);
      StepHoldsSince(Exec(front).value, events[|events| - 1], LastCut(front));
    }
  }

  /** The last answer the drain got from the disk. */
  function LastAnswer(events: seq<Event>): (answer: Option<Event>)
    ensures answer.Some? ==> answer.value.StatDone? || answer.value.TruncateDone? || answer.value.AppendDone?
  {
    if events == [] then None
    else
      var last := events[|events| - 1];
      if last.Write? || last.Flush? then LastAnswer(events[..|events| - 1]) else Some(last)
  }

  /**
   * The drain truncates exactly when the last answer it got was a file over the limit, and appends exactly when
   * that was a file within it or the end of a truncation, whether or not this succeeded.
   */
  lemma {:induction false} DrainDoesWhatTheDiskSaid(events: seq<Event>)
    requires Exec(events).Some?
    ensures var phase, answer := Exec(events).value.phase, LastAnswer(events);
      && (phase.Truncating? <==> answer == Some(StatDone(true)))
      && (phase.Appending? <==> answer == Some(StatDone(false)) || (answer.Some? && answer.value.TruncateDone?))
  {
    if events != [] {
      DrainDoesWhatTheDiskSaid(events[..|events| - 1]);
      LinesAreTheMade(events[..|events| - 1]);
    }
  }

  /**
   * In every run lines can be written and flushed at any time, and the drain awaits exactly one answer of the disk:
   * that of a stat when it has just taken a batch, then that of a truncation if the stat asked for one, then that of
   * the append.
   */
  lemma PossibleIff(events: seq<Event>, e: Event)
    requires Exec(events).Some?
    ensures var answer := LastAnswer(events);
      Exec(events + [e]).Some? <==>
        match e
        case Write(_) => true
        case Flush(_, _, _) => true
        case StatDone(_) => InFlight(Exec(events).value) != [] && (answer.None? || answer.value.AppendDone?)
        case TruncateDone(_) => answer == Some(StatDone(true))
        case AppendDone(_) => answer == Some(StatDone(false)) || (answer.Some? && answer.value.TruncateDone?)
  {
    assert (events + [e])[..|events|] == events;
    LinesAreTheMade(events);
    DrainDoesWhatTheDiskSaid(events);
  }

  // ------------------------------------------------------------------------------ which lines are dropped

  /** The path of the log is known from the first write on whose lookup did not throw. */
  lemma {:induction false} PathKnownIff(events: seq<Event>)
    requires Exec(events).Some?
    ensures Exec(events).value.pathKnown <==> Write(true) in events
  {
    if events != [] {
      var front := events[..|events| - 1];
      PathKnownIff(front);
      LinesAreTheMade(front);
      assert events == front + [events[|events| - 1]];
    }
  }

  /** The lines an event appends: the batch in flight when its append is done, or the queue when it is flushed. */
  function Appends(q: Log, e: Event): seq<nat> {
    match e
    case AppendDone(appended) => if appended then InFlight(q) else []
    case Flush(_, _, ok) => if ok then q.pending else []
    case _ => []
  }

  /** The lines an event drops: those of a failed append, and one written before any lookup of the path succeeded. */
  function Drops(q: Log, e: Event, pathFound: bool): seq<nat> {
    match e
    case AppendDone(appended) => if appended then [] else InFlight(q)
    case Flush(_, _, ok) => if ok then [] else q.pending
    case Write(pathOk) => if pathOk || pathFound then [] else [q.made]
    case _ => []
  }

  predicate Settles(q: Log, r: Log, appends: seq<nat>, drops: seq<nat>) {
    Appended(r.settled) == Appended(q.settled) + appends && Dropped(r.settled) == Dropped(q.settled) + drops
  }

  lemma SettlesOne(q: Log, r: Log, s: Settled)
    requires r.settled == q.settled + [s]
    ensures s.ok ==> Settles(q, r, s.batch, [])
    ensures !s.ok ==> Settles(q, r, [], s.batch)
  {
    SettleOne(q.settled, s);
    SettlesNothing(q, q);
  }

  lemma SettlesNothing(q: Log, r: Log)
    requires r.settled == q.settled
    ensures Settles(q, r, [], [])
  {
    NothingBetween(Appended(q.settled), []);
    NothingBetween(Dropped(q.settled), []);
  }

  lemma StepSettles(q: Log, e: Event)
    requires Sound(q) && Enabled(q, e)
    ensures Settles(q, Apply(q, e), Appends(q, e), Drops(q, e, q.pathKnown))
  {
    var r := Apply(q, e);
    if r.settled == q.settled {
      SettlesNothing(q, r);
    } else {
      SettlesOne(q, r, r.settled[|r.settled| - 1]);
    }
  }

  /** In every run an event appends these lines and drops those, and settles no other. */
  lemma SettledIff(events: seq<Event>, e: Event)
    requires Exec(events).Some? && Enabled(Exec(events).value, e)
    ensures var q := Exec(events).value; Settles(q, Apply(q, e), Appends(q, e), Drops(q, e, Write(true) in events))
  {
    LinesAreTheMade(events);
    PathKnownIff(events);
    StepSettles(Exec(events).value, e);
  }

  // ----------------------------------------------------------------------------------------- call order

  predicate CallOrder(lines: seq<nat>) {
    forall i, j :: 0 <= i < j < |lines| ==> lines[i] < lines[j]
  }

  predicate NeverFlushed(events: seq<Event>) {
    forall i :: 0 <= i < |events| ==> !events[i].Flush?
  }

  lemma OrderOfParts(a: seq<nat>, b: seq<nat>)
    ensures CallOrder(a + b) <==> (
      CallOrder(a) && CallOrder(b) && forall i, j :: 0 <= i < |a| && 0 <= j < |b| ==> a[i] < b[j])
  {
    if CallOrder(a + b) {
      assert forall i :: 0 <= i < |a| ==> (a + b)[i] == a[i];
      assert forall j :: 0 <= j < |b| ==> (a + b)[|a| + j] == b[j];
    }
  }

  predicate Among(a: seq<nat>, b: seq<nat>) {
    forall x :: x in a ==> x in b
  }

  lemma OrderAmong(kept: seq<nat>, all: seq<nat>, batch: seq<nat>)
    requires CallOrder(all + batch) && CallOrder(kept) && Among(kept, all)
    ensures CallOrder(kept + batch) && Among(kept + batch, all + batch)
  {
    OrderOfParts(all, batch);
    forall i, j | 0 <= i < |kept| && 0 <= j < |batch| ensures kept[i] < batch[j] {
      assert kept[i] in all;
    }
    OrderOfParts(kept, batch);
  }

  lemma {:induction false} PartsAreInOrder(settled: seq<Settled>)
    requires CallOrder(Batches(settled))
    ensures CallOrder(Appended(settled)) && Among(Appended(settled), Batches(settled))
  {
    if settled != [] {
      var front := settled[..|settled| - 1];
      OrderOfParts(Batches(front), settled[|settled| - 1].batch);
      PartsAreInOrder(front);
      OrderAmong(Appended(front), Batches(front), settled[|settled| - 1].batch);
      NothingBetween(Appended(front), []);
    }
  }

  lemma {:induction false} LinesStayInOrder(events: seq<Event>)
    requires Exec(events).Some? && NeverFlushed(events)
    ensures AllLines(Exec(events).value) == Made(Exec(events).value.made)
  {
    if events != [] {
      var front := events[..|events| - 1];
      LinesStayInOrder(front);
      LinesAreTheMade(front);
      StepKeepsLines(Exec(front).value, events[|events| - 1]);
      MakeOne(Exec(front).value.made);
    }
  }

  /**
   * With no synchronous flush the batches that left the queue, the batch in flight and the queue are all lines
   * in call order; what was appended is that list without the batches whose append failed.
   */
  lemma WithoutFlushesOrderIsKept(events: seq<Event>)
    requires Exec(events).Some? && NeverFlushed(events)
    ensures var q := Exec(events).value;
      && Batches(q.settled) + InFlight(q) + q.pending == Made(q.made)
      && CallOrder(Appended(q.settled))
  {
    var q := Exec(events).value;
    LinesStayInOrder(events);
    var batches := Batches(q.settled);
    assert batches == AllLines(q)[..|batches|];
    PartsAreInOrder(q.settled);
  }

  // -------------------------------------------------------------------------------- what a flush can do

  /**
   * A successful flush leaves on this process's account exactly the batch that is in flight: everything else
   * ever made has been appended or was dropped before.
   */
  lemma FlushOwesOnlyTheBatchInFlight(events: seq<Event>, truncates: bool)
    requires Exec(events).Some?
    ensures var q := Exec(events).value; var r := Apply(q, Flush(true, truncates, true));
      && multiset(Made(r.made)) - multiset(Appended(r.settled)) - multiset(Dropped(r.settled)) == multiset(InFlight(r))
      && InFlight(r) == InFlight(q)
  {
    var q := Exec(events).value;
    var flush := Flush(true, truncates, true);
    LinesAreTheMade(events);
    StepKeepsAccounts(q, flush);
    WhereaboutsAreLines(Apply(q, flush));
  }

  /** Nothing that left the queue or is still in it is named by a later line. */
  predicate Orderly(q: Log) {
    CallOrder(Appended(q.settled) + InFlight(q) + q.pending)
  }

  /**
   * A flush keeps the order exactly when it appends nothing: there is a queue only while a batch is in flight,
   * so every line it manages to append overtakes that batch.
   */
  lemma FlushKeepsOrderIffItAppendsNothing(q: Log, pathFound: bool, truncates: bool, ok: bool)
    requires Sound(q) && Orderly(q)
    ensures Orderly(Flushed(q, pathFound, truncates, ok)) <==> q.pending == [] || !ok
  {
    var r := Flushed(q, pathFound, truncates, ok);
    var before, batch, waiting := Appended(q.settled), InFlight(q), q.pending;
    OrderOfParts(before + batch, waiting);
    if waiting != [] {
      SettleOne(q.settled, Settled(waiting, ok));
      if ok {
        OrderOfParts(before + waiting, batch);
        assert r.settled == q.settled + [Settled(waiting, true)];
        assert Appended(r.settled) + InFlight(r) + r.pending == before + waiting + batch;
        assert (before + waiting)[|before|] == waiting[0];
        assert (before + batch)[|before|] == batch[0];
      } else {
        assert Appended(r.settled) + InFlight(r) + r.pending == before + batch;
      }
    }
  }

  /** When the overtaken batch then lands, the file's lines are no longer in call order. */
  lemma OvertakenBatchLandsLate(q: Log, truncates: bool)
    requires Sound(q) && Orderly(q) && q.phase.Appending? && q.pending != []
    ensures var r := Apply(Apply(q, Flush(true, truncates, true)), AppendDone(true)); !CallOrder(Appended(r.settled))
  {
    var batch, waiting := q.phase.batch, q.pending;
    var mid := Apply(q, Flush(true, truncates, true));
    OrderOfParts(Appended(q.settled) + batch, waiting);
    SettleOne(q.settled, Settled(waiting, true));
    SettleOne(mid.settled, Settled(batch, true));
    var r := Apply(mid, AppendDone(true));
    var lines := Appended(r.settled);
    assert lines == Appended(q.settled) + waiting + batch;
    assert lines[|Appended(q.settled)|] == waiting[0];
    assert lines[|Appended(q.settled) + waiting|] == batch[0];
    assert (Appended(q.settled) + batch)[|Appended(q.settled)|] == batch[0];
  }

  /** The log a further run of events leaves. */
  function ExecFrom(q: Log, events: seq<Event>): Option<Log>
    decreases |events|
  {
    if events == [] then Some(q)
    else if Enabled(q, events[0]) then ExecFrom(Apply(q, events[0]), events[1..])
    else None
  }

  /** The drain's append is not over yet, and no other flush applies the size limit. */
  predicate BeforeTheAppend(events: seq<Event>) {
    forall i :: 0 <= i < |events| ==> !events[i].AppendDone? && !(events[i].Flush? && events[i].truncates)
  }

  predicate InFile(q: Log, lines: seq<nat>) {
    forall i :: 0 <= i < |lines| ==> Written(lines[i]) in q.file
  }

  /** The lines are in the file in every continuation up to the drain's next append. */
  ghost predicate StayInFile(q: Log, lines: seq<nat>) {
    forall events :: BeforeTheAppend(events) && ExecFrom(q, events).Some? ==> InFile(ExecFrom(q, events).value, lines)
  }

  lemma {:induction false} AppendingTruncatesNothing(q: Log, events: seq<Event>, lines: seq<nat>)
    requires Sound(q) && q.phase.Appending? && InFile(q, lines)
    requires BeforeTheAppend(events) && ExecFrom(q, events).Some?
    ensures InFile(ExecFrom(q, events).value, lines)
    decreases |events|
  {
    if events != [] {
      var next := Apply(q, events[0]);
      StepKeepsSound(q, events[0]);
      assert next.phase == q.phase && q.file <= next.file;
      AppendingTruncatesNothing(next, events[1..], lines);
    }
  }

  /** Between its stat and its append the drain may still empty the file, whatever was put there meanwhile. */
  lemma TruncationIsAhead(q: Log) returns (events: seq<Event>)
    requires q.phase.Statting? || q.phase.Truncating?
    ensures BeforeTheAppend(events) && ExecFrom(q, events).Some? && ExecFrom(q, events).value.file == [TruncationNotice]
  {
    var last := [TruncateDone(true)];
    assert last[1..] == [];
    if q.phase.Truncating? {
      events := last;
      assert ExecFrom(Apply(q, events[0]), events[1..]) == Some(Apply(q, events[0]));
    } else {
      events := [StatDone(true)] + last;
      var truncating := Apply(q, StatDone(true));
      assert events[1..] == last;
      assert ExecFrom(truncating, last) == Some(Apply(truncating, TruncateDone(true)));
    }
  }

  lemma FlushedIsInFile(q: Log, truncates: bool)
    ensures InFile(Apply(q, Flush(true, truncates, true)), q.pending)
  {
    var r := Apply(q, Flush(true, truncates, true));
    forall i | 0 <= i < |q.pending| ensures Written(q.pending[i]) in r.file {
      assert Lines(q.pending)[i] == Written(q.pending[i]);
      assert r.file[|r.file| - |q.pending| + i] == Lines(q.pending)[i];
    }
  }

  /**
   * What a successful flush appended stays in the file up to the drain's next append if and only if the drain was
   * already appending, or there was nothing to flush: until then the drain may still truncate the file.
   */
  lemma FlushedLinesStayIff(events: seq<Event>, truncates: bool)
    requires Exec(events).Some?
    ensures var q := Exec(events).value;
      StayInFile(Apply(q, Flush(true, truncates, true)), q.pending) <==> q.phase.Appending? || q.pending == []
  {
    var q := Exec(events).value;
    var r := Apply(q, Flush(true, truncates, true));
    LinesAreTheMade(events);
    FlushedIsInFile(q, truncates);
    if q.phase.Appending? {
      StepKeepsSound(q, Flush(true, truncates, true));
      forall more | BeforeTheAppend(more) && ExecFrom(r, more).Some? ensures InFile(ExecFrom(r, more).value, q.pending) {
        AppendingTruncatesNothing(r, more, q.pending);
      }
    } else if q.pending != [] {
      var more := TruncationIsAhead(r);
      assert !InFile(ExecFrom(r, more).value, q.pending) by {
        assert Written(q.pending[0]) !in [TruncationNotice];
      }
    }
  }

  lemma ExecStep(events: seq<Event>, e: Event)
    requires Exec(events).Some? && Enabled(Exec(events).value, e)
    ensures Exec(events + [e]) == Some(Apply(Exec(events).value, e))
  {
    assert (events + [e])[..|events|] == events;
  }

  /** Two lines, a flush while the drain stats the file, and a truncation: the second line was appended and is gone. */
  lemma FlushedLineIsErased()
    ensures var end := Exec([Write(true)] + [Write(true)] + [Flush(true, false, true)] + [StatDone(true)] + [TruncateDone(true)]);
      && end.Some? && Appended(end.value.settled) == [1] && end.value.file == [TruncationNotice]
  {
    var first := [Write(true)];
    assert first == [] + [Write(true)];
    ExecStep([], Write(true));
    var one := WriteLine(NEW_LOG, true);
    assert NEW_LOG.pending + [NEW_LOG.made] == [0];
    assert one == Log([], true, Statting([0]), true, [], 1, []);
    ExecStep(first, Write(true));
    var q := WriteLine(one, true);
    assert one.pending + [one.made] == [1];
    assert q == Log([1], true, Statting([0]), true, [], 2, []);
    ExecStep(first + [Write(true)], Flush(true, false, true));
    var r := Flushed(q, true, false, true);
    SettleOne([], Settled([1], true));
    assert r.settled == [] + [Settled([1], true)] && r.phase == Statting([0]);
    ExecStep(first + [Write(true)] + [Flush(true, false, true)], StatDone(true));
    ExecStep(first + [Write(true)] + [Flush(true, false, true)] + [StatDone(true)], TruncateDone(true));
  }
}
