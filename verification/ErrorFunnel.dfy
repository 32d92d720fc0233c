/**
 * logError (errorLog.ts): the session budget, then the identical-line cap, then the file sink, and the counter of
 * what the two caps withheld. Sources that name the error log itself, and payloads no fingerprint could be taken
 * of, pass the budget unseen.
 */
module ErrorFunnel {
  import opened Prelude
  import Budget = ErrorBudget
  import Repeat = ErrorRepeat
  import opened ErrorLog

  /** What a line says: one of the budget's notices, a payload under its source, or the notice of a repeat. */
  datatype Text = BudgetNotice(notice: Budget.Notice) | Payload(source: string, body: string) | RepeatNotice(source: string)

  /** `texts` says what the line of each number says; it, `calls` and `notices` are history variables. */
  datatype Funnel = Funnel(
    books: Budget.Books, seen: map<string, nat>, log: Log, texts: seq<Text>, calls: nat, suppressed: nat, notices: nat)

  const NEW_FUNNEL := Funnel(Budget.FRESH_BOOKS, map[], NEW_LOG, [], 0, 0, 0)

  datatype Step =
    | LogError(source: string, body: string, fingerprint: Option<string>, pathOk: bool, pathOkAgain: bool)
    | Disk(event: Event)
    | NewSession

  function NoteError(books: Budget.Books, fingerprint: Option<string>): (Budget.Books, Budget.Verdict) {
    match fingerprint
    case None => (books, Budget.Verdict(true, None))
    case Some(f) => Budget.Spend(books, f)
  }

  function Tick(b: bool): nat {
    if b then 1 else 0
  }

  function WriteText(f: Funnel, text: Option<Text>, pathOk: bool): Funnel {
    if text.None? then f else f.(log := WriteLine(f.log, pathOk), texts := f.texts + [text.value])
  }

  function NoticeText(notice: Option<Budget.Notice>): Option<Text> {
    if notice.Some? then Some(BudgetNotice(notice.value)) else None
  }

  /** The budget's verdict; its notice is written whatever the verdict says. */
  function Budgeted(f: Funnel, fingerprint: Option<string>, pathOk: bool): (Funnel, bool) {
    var (books, verdict) := NoteError(f.books, fingerprint);
    (WriteText(f.(books := books, notices := f.notices + Tick(verdict.notice.Some?)), NoticeText(verdict.notice), pathOk),
     verdict.report)
  }

  function CapText(decision: Repeat.Decision, source: string, body: string): Option<Text> {
    if decision.write then Some(Payload(source, body))
    else if decision.notice then Some(RepeatNotice(source))
    else None
  }

  /** The identical-line cap, and the line or the notice it lets through. */
  function Capped(f: Funnel, source: string, body: string, pathOk: bool): Funnel {
    var (seen, decision) := Repeat.Note(f.seen, Repeat.Key(source, body));
    WriteText(
      f.(seen := seen, suppressed := f.suppressed + Tick(decision.suppressed), notices := f.notices + Tick(decision.notice)),
      CapText(decision, source, body), pathOk)
  }

  /** What is left of a call once the budget has spoken. */
  function Rest(f: Funnel, report: bool, source: string, body: string, pathOk: bool): Funnel {
    if report then Capped(f, source, body, pathOk) else f.(suppressed := f.suppressed + 1)
  }

  function Logged(f: Funnel, source: string, body: string, fingerprint: Option<string>, pathOk: bool, pathOkAgain: bool): Funnel {
    var (g, report) := Budgeted(f.(calls := f.calls + 1), fingerprint, pathOk);
    Rest(g, report, source, body, pathOkAgain)
  }

  predicate Enabled(f: Funnel, step: Step) {
    step.Disk? ==> !step.event.Write? && ErrorLog.Enabled(f.log, step.event)
  }

  /** A new session forgets the budget; the identical-line cap and the sink live as long as the process. */
  function Apply(f: Funnel, step: Step): Funnel
    requires Enabled(f, step)
  {
    match step
    case LogError(source, body, fingerprint, pathOk, pathOkAgain) =>
      Logged(f, source, body, fingerprint, pathOk, pathOkAgain)
    case Disk(event) => f.(log := ErrorLog.Apply(f.log, event))
    case NewSession => f.(books := Budget.FRESH_BOOKS)
  }

  function Exec(steps: seq<Step>): Option<Funnel> {
    if steps == [] then Some(NEW_FUNNEL)
    else
      var before := Exec(steps[..|steps| - 1]);
      var last := steps[|steps| - 1];
      if before.None? || !Enabled(before.value, last) then None else Some(Apply(before.value, last))
  }

  /** The module's state: the two caps, the sink, and the counter telemetry reads. */
  class Logger {
    const budget: Budget.Session
    const repeats: Repeat.Session
    const sink: Sink
    var suppressed: nat
    ghost var texts: seq<Text>
    ghost var calls: nat
    ghost var notices: nat

    constructor ()
      ensures State() == NEW_FUNNEL
      ensures fresh(budget) && fresh(repeats) && fresh(sink)
    {
      budget := new Budget.Session();
      repeats := new Repeat.Session();
      sink := new Sink();
      texts, suppressed, calls, notices := [], 0, 0, 0;
    }

    ghost function State(): Funnel
      reads this, budget, repeats, sink
    {
      Funnel(budget.State(), repeats.seen, sink.State(), texts, calls, suppressed, notices)
    }

    method AskBudget(fingerprint: Option<string>, line: nat, pathOk: bool) returns (report: bool, next: nat)
      requires line == sink.made
      modifies `notices, `texts, budget, sink
      ensures next == sink.made
      ensures State() == Budgeted(old(State()), fingerprint, pathOk).0
      ensures report == Budgeted(old(State()), fingerprint, pathOk).1
    {
      var verdict := Budget.Verdict(true, None);
      next := line;
      if fingerprint.Some? { verdict := budget.Ask(fingerprint.value); }
      notices := notices + Tick(verdict.notice.Some?);
      if verdict.notice.Some? {
        sink.Write(line, pathOk);
        texts := texts + [BudgetNotice(verdict.notice.value)];
        next := line + 1;
      }
      report := verdict.report;
    }

    method AskRepeat(source: string, body: string, line: nat, pathOk: bool)
      requires line == sink.made
      modifies `notices, `texts, `suppressed, repeats, sink
      ensures State() == Capped(old(State()), source, body, pathOk)
    {
      var decision := repeats.Ask(source, body);
      if decision.suppressed { suppressed := suppressed + 1; }
      notices := notices + Tick(decision.notice);
      if !decision.write && !decision.notice { return; }
      sink.Write(line, pathOk);
      texts := texts + [if decision.write then Payload(source, body) else RepeatNotice(source)];
    }

    method Log(source: string, body: string, fingerprint: Option<string>, line: nat, pathOk: bool, pathOkAgain: bool)
      requires line == sink.made
      modifies this, budget, repeats, sink
      ensures State() == Logged(old(State()), source, body, fingerprint, pathOk, pathOkAgain)
    {
      calls := calls + 1;
      ghost var called := State();
      assert called == old(State()).(calls := old(State()).calls + 1);
      ghost var goal := Logged(old(State()), source, body, fingerprint, pathOk, pathOkAgain);
      var report, next := AskBudget(fingerprint, line, pathOk);
      ghost var asked := State();
      assert goal == Rest(asked, report, source, body, pathOkAgain);
      if !report {
        suppressed := suppressed + 1;
        return;
      }
      AskRepeat(source, body, next, pathOkAgain);
    }
  }

  // ------------------------------------------------------------------------------------------ the ledger

  /** Lines appended, in flight, waiting or dropped, and occurrences withheld. */
  function Accounted(f: Funnel): nat {
    |Appended(f.log.settled)| + |InFlight(f.log)| + |f.log.pending| + |Dropped(f.log.settled)| + f.suppressed
  }

  /** Every line has a number and a text, and is in one of the four places. */
  predicate Numbered(f: Funnel) {
    Sound(f.log) && |AllLines(f.log)| == f.log.made == |f.texts|
  }

  lemma WriteIsMade(f: Funnel, text: Option<Text>, pathOk: bool)
    requires Numbered(f)
    ensures Numbered(WriteText(f, text, pathOk)) && WriteText(f, text, pathOk).log.made == f.log.made + Tick(text.Some?)
  {
    if text.Some? {
      assert WriteLine(f.log, pathOk) == ErrorLog.Apply(f.log, Write(pathOk));
      StepKeepsSound(f.log, Write(pathOk));
      StepKeepsLines(f.log, Write(pathOk));
    }
  }

  predicate Balanced(f: Funnel) {
    Numbered(f) && f.log.made + f.suppressed == f.calls + f.notices
  }

  /** A repeat notice is the one line that replaces a withheld occurrence; everything else is one for one. */
  lemma DecisionBalances(seen: map<string, nat>, key: string)
    ensures var d := Repeat.Note(seen, key).1;
      && Tick(d.write || d.notice) + Tick(d.suppressed) == 1 + Tick(d.notice)
      && !(d.write && d.notice)
  {
  }

  /** Between the two caps the call is counted and nothing stands for it yet. */
  predicate OwesOne(f: Funnel) {
    Numbered(f) && f.log.made + f.suppressed + 1 == f.calls + f.notices
  }

  lemma BudgetOwesOne(f: Funnel, fingerprint: Option<string>, pathOk: bool)
    requires OwesOne(f)
    ensures OwesOne(Budgeted(f, fingerprint, pathOk).0)
  {
    var (books, verdict) := NoteError(f.books, fingerprint);
    var noted := f.(books := books, notices := f.notices + Tick(verdict.notice.Some?));
    WriteIsMade(noted, NoticeText(verdict.notice), pathOk);
  }

  lemma CapPays(f: Funnel, source: string, body: string, pathOk: bool)
    requires OwesOne(f)
    ensures Balanced(Capped(f, source, body, pathOk))
  {
    var (seen, decision) := Repeat.Note(f.seen, Repeat.Key(source, body));
    var counted :=
      f.(seen := seen, suppressed := f.suppressed + Tick(decision.suppressed), notices := f.notices + Tick(decision.notice));
    DecisionBalances(f.seen, Repeat.Key(source, body));
    WriteIsMade(counted, CapText(decision, source, body), pathOk);
  }

  lemma LogErrorBalances(f: Funnel, source: string, body: string, fingerprint: Option<string>, pathOk: bool, pathOkAgain: bool)
    requires Balanced(f)
    ensures Balanced(Logged(f, source, body, fingerprint, pathOk, pathOkAgain))
  {
    var called := f.(calls := f.calls + 1);
    BudgetOwesOne(called, fingerprint, pathOk);
    var (g, report) := Budgeted(called, fingerprint, pathOk);
    if report { CapPays(g, source, body, pathOkAgain); }
  }

  lemma StepBalances(f: Funnel, step: Step)
    requires Balanced(f) && Enabled(f, step)
    ensures Balanced(Apply(f, step))
  {
    match step
    case LogError(source, body, fingerprint, pathOk, pathOkAgain) =>
      LogErrorBalances(f, source, body, fingerprint, pathOk, pathOkAgain);
    case Disk(event) =>
      StepKeepsSound(f.log, event);
      StepKeepsLines(f.log, event);
      if event.Flush? {
        assert |multiset(AllLines(ErrorLog.Apply(f.log, event)))| == |multiset(AllLines(f.log))|;
      }
    case NewSession =>
  }

  /**
   * At every moment of every process: lines appended, in flight, waiting and dropped, plus the occurrences
   * withheld, are the calls plus the notices.
   */
  lemma {:induction false} LedgerBalances(steps: seq<Step>)
    requires Exec(steps).Some?
    ensures var f := Exec(steps).value; Balanced(f) && Accounted(f) == f.calls + f.notices
  {
    var f := Exec(steps).value;
    if steps == [] {
      assert AllLines(NEW_LOG) == [];
    } else {
      LedgerBalances(steps[..|steps| - 1]);
      StepBalances(Exec(steps[..|steps| - 1]).value, steps[|steps| - 1]);
    }
    WhereaboutsAreLines(f.log);
  }
}
