/** What the error log says and when its two counters add up, in terms of what its callers logged. */
module ErrorCounters {
  import opened Prelude
  import opened Tally
  import Budget = ErrorBudget
  import Repeat = ErrorRepeat
  import Log = ErrorLog
  import opened ErrorFunnel

  /** The fingerprints of each session's calls, the current session last. */
  function Sessions(steps: seq<Step>): (r: seq<seq<string>>)
    ensures r != []
  {
    if steps == [] then [[]]
    else
      var before := Sessions(steps[..|steps| - 1]);
      var last := steps[|steps| - 1];
      if last.NewSession? then before + [[]]
      else if last.LogError? && last.fingerprint.Some? then
        before[|before| - 1 := before[|before| - 1] + [last.fingerprint.value]]
      else before
  }

  function Current(steps: seq<Step>): seq<string> {
    var all := Sessions(steps);
    all[|all| - 1]
  }

  /** The lines all calls asked for, as the identical-line cap names them. */
  function Keys(steps: seq<Step>): seq<string> {
    if steps == [] then []
    else
      var before := Keys(steps[..|steps| - 1]);
      var last := steps[|steps| - 1];
      if last.LogError? then before + [Repeat.Key(last.source, last.body)] else before
  }

  // ------------------------------------------------------------------------------ what the log says

  /**
   * An occurrence is reported unless its fingerprint is beyond the first two hundred of the session, or has been
   * seen a hundred times in it; `before` are the session's fingerprints up to then.
   */
  predicate IsReported(before: seq<string>, fingerprint: Option<string>) {
    match fingerprint
    case None => true
    case Some(f) =>
      f in Tracked(before + [f], 200) && Count(before, f) < 100
  }

  /** The hundredth occurrence of a tracked fingerprint and the very first of the two hundred and first bring a notice. */
  function BudgetSays(before: seq<string>, fingerprint: Option<string>): seq<Text> {
    match fingerprint
    case None => []
    case Some(f) =>
      if f in Tracked(before + [f], 200) then
        if Count(before, f) == 99 then [BudgetNotice(Budget.BudgetSpent(f))] else []
      else if f !in Distinct(before) && |Distinct(before)| == 200 then
        [BudgetNotice(Budget.NoRoomForNewOnes)]
      else []
  }

  /** A copy is withheld if its line is among the first five hundred reported ones and came five times before. */
  predicate IsRepeat(keys: seq<string>, key: string) {
    key in Tracked(keys, 500) && Count(keys, key) >= 5
  }

  function CapSays(keys: seq<string>, source: string, body: string): seq<Text> {
    var key := Repeat.Key(source, body);
    if !IsRepeat(keys, key) then [Payload(source, body)]
    else if Count(keys, key) == 5 then [RepeatNotice(source)]
    else []
  }

  /** The lines of the reported occurrences. */
  function ReportedKeys(steps: seq<Step>): seq<string> {
    if steps == [] then []
    else
      var front := steps[..|steps| - 1];
      var last := steps[|steps| - 1];
      if last.LogError? && IsReported(Current(front), last.fingerprint)
      then ReportedKeys(front) + [Repeat.Key(last.source, last.body)]
      else ReportedKeys(front)
  }

  /** All texts the log was asked to write, in order. */
  function Said(steps: seq<Step>): seq<Text> {
    if steps == [] then []
    else
      var front := steps[..|steps| - 1];
      var last := steps[|steps| - 1];
      if !last.LogError? then Said(front)
      else
        Said(front) + BudgetSays(Current(front), last.fingerprint)
        + (if IsReported(Current(front), last.fingerprint) then CapSays(ReportedKeys(front), last.source, last.body) else [])
  }

  /** The occurrences that left no payload line. */
  function Withheld(steps: seq<Step>): nat {
    if steps == [] then 0
    else
      var front := steps[..|steps| - 1];
      var last := steps[|steps| - 1];
      Withheld(front)
      + (if last.LogError? && (!IsReported(Current(front), last.fingerprint)
                               || IsRepeat(ReportedKeys(front), Repeat.Key(last.source, last.body))) then 1 else 0)
  }

  function Calls(steps: seq<Step>): nat {
    if steps == [] then 0 else Calls(steps[..|steps| - 1]) + (if steps[|steps| - 1].LogError? then 1 else 0)
  }

  /** The budget's part of a call, in terms of what the session has seen. */
  lemma BudgetedSays(f: Funnel, before: seq<string>, fingerprint: Option<string>, pathOk: bool)
    requires f.books == Budget.After(before)
    ensures var (g, report) := Budgeted(f, fingerprint, pathOk);
      && g.texts == f.texts + BudgetSays(before, fingerprint) && report == IsReported(before, fingerprint)
      && g.seen == f.seen && g.suppressed == f.suppressed && g.calls == f.calls
  {
    if fingerprint.Some? {
      Budget.VerdictIsExact(before, fingerprint.value);
      NoticeIsOneOfTwo(before, fingerprint.value);
      TrackedGrows(before, fingerprint.value, Budget.MAX_BUDGETED_FINGERPRINTS);
    }
  }

  /** The identical-line cap's part of a reported call. */
  lemma CappedSays(f: Funnel, keys: seq<string>, source: string, body: string, pathOk: bool)
    requires f.seen == Repeat.After(keys)
    ensures var g := Capped(f, source, body, pathOk); var key := Repeat.Key(source, body);
      && g.texts == f.texts + CapSays(keys, source, body) && g.seen == Repeat.After(keys + [key])
      && g.suppressed == f.suppressed + (if IsRepeat(keys, key) then 1 else 0) && g.calls == f.calls
  {
    var key := Repeat.Key(source, body);
    Repeat.DecisionIsExact(keys, key);
    assert (keys + [key])[..|keys|] == keys;
  }

  /** What a state holds of the run that led to it. */
  predicate Tells(f: Funnel, steps: seq<Step>) {
    && f.texts == Said(steps) && f.seen == Repeat.After(ReportedKeys(steps))
    && f.suppressed == Withheld(steps) && f.calls == Calls(steps)
  }

  lemma OneMoreCall(steps: seq<Step>, call: Step)
    requires call.LogError?
    ensures var reported := IsReported(Current(steps), call.fingerprint);
      var key := Repeat.Key(call.source, call.body);
      var more := steps + [call];
      && Said(more) == Said(steps) + BudgetSays(Current(steps), call.fingerprint)
                       + (if reported then CapSays(ReportedKeys(steps), call.source, call.body) else [])
      && ReportedKeys(more) == (if reported then ReportedKeys(steps) + [key] else ReportedKeys(steps))
      && Withheld(more) == Withheld(steps) + (if !reported || IsRepeat(ReportedKeys(steps), key) then 1 else 0)
      && Calls(more) == Calls(steps) + 1
  {
    assert (steps + [call])[..|steps|] == steps;
  }

  /** From the state `g` the budget left, the rest of the call. */
  lemma RestTells(f: Funnel, g: Funnel, report: bool, steps: seq<Step>, call: Step)
    requires call.LogError? && Tells(f, steps) && report == IsReported(Current(steps), call.fingerprint)
    requires g.texts == f.texts + BudgetSays(Current(steps), call.fingerprint)
    requires g.seen == f.seen && g.suppressed == f.suppressed && g.calls == f.calls + 1
    ensures Tells(Rest(g, report, call.source, call.body, call.pathOkAgain), steps + [call])
  {
    OneMoreCall(steps, call);
    if report { CappedSays(g, ReportedKeys(steps), call.source, call.body, call.pathOkAgain); }
  }

  lemma CallIsBudgetThenRest(f: Funnel, call: Step)
    requires call.LogError?
    ensures var v := Budgeted(f.(calls := f.calls + 1), call.fingerprint, call.pathOk);
      Apply(f, call) == Rest(v.0, v.1, call.source, call.body, call.pathOkAgain)
  {
  }

  lemma CallTells(f: Funnel, steps: seq<Step>, call: Step)
    requires call.LogError? && f.books == Budget.After(Current(steps)) && Tells(f, steps)
    ensures Tells(Apply(f, call), steps + [call])
  {
    var called := f.(calls := f.calls + 1);
    var v := Budgeted(called, call.fingerprint, call.pathOk);
    BudgetedSays(called, Current(steps), call.fingerprint, call.pathOk);
    RestTells(f, v.0, v.1, steps, call);
    CallIsBudgetThenRest(f, call);
  }

  /**
   * In every run the lines ever made are, in order, what the calls alone say: the payload of each occurrence that is
   * reported and no repeat, and the notices where they fall; every other occurrence is counted as suppressed.
   */
  lemma {:induction false} LogSaysWhatWasReported(steps: seq<Step>)
    requires Exec(steps).Some?
    ensures var f := Exec(steps).value;
      && f.texts == Said(steps) && f.log.made == |Said(steps)|
      && f.suppressed == Withheld(steps) && f.calls == Calls(steps)
      && Tells(f, steps)
  {
    LedgerBalances(steps);
    if steps != [] {
      var front := steps[..|steps| - 1];
      var last := steps[|steps| - 1];
      LogSaysWhatWasReported(front);
      BooksFollowTheSession(front);
      assert front + [last] == steps;
      if last.LogError? { CallTells(Exec(front).value, front, last); }
    }
  }

  /** Errors are logged, flushed and begun anew at any time; the disk answers what the sink is waiting for. */
  lemma PossibleIff(steps: seq<Step>, step: Step)
    requires Exec(steps).Some?
    ensures Exec(steps + [step]).Some? <==>
      match step
      case LogError(_, _, _, _, _) => true
      case NewSession => true
      case Disk(event) => event.Flush? || (!event.Write? && Log.Enabled(Exec(steps).value.log, event))
  {
    assert (steps + [step])[..|steps|] == steps;
  }

  // ------------------------------------------------------------------------------ when the counters add up

  /** No more issues than the budget has room for, and none that spends it. */
  ghost predicate Modest(fingerprints: seq<string>) {
    && |Distinct(fingerprints)| <= Budget.MAX_BUDGETED_FINGERPRINTS
    && forall f :: Count(fingerprints, f) < Budget.MAX_REPORTS_PER_FINGERPRINT
  }

  /** None of the first five hundred lines more than five times. */
  predicate Varied(keys: seq<string>) {
    forall k :: k in Tracked(keys, Repeat.MAX_TRACKED_ERROR_KEYS) ==> Count(keys, k) <= Repeat.MAX_IDENTICAL_ERROR_LINES
  }

  ghost predicate Ordinary(steps: seq<Step>) {
    && (forall i :: 0 <= i < |Sessions(steps)| ==> Modest(Sessions(steps)[i]))
    && Varied(Keys(steps))
  }

  /** In a modest session everything is reported, and the next occurrence brings a notice iff it ends that. */
  lemma ModestIsReported(fingerprints: seq<string>, f: string)
    requires Modest(fingerprints)
    ensures var verdict := Budget.Spend(Budget.After(fingerprints), f).1;
      && (verdict.notice.Some? <==> !Modest(fingerprints + [f]))
      && (verdict.notice.None? ==> verdict.report)
  {
    Budget.VerdictIsExact(fingerprints, f);
    Append(fingerprints, f);
    TrackedGrows(fingerprints, f, Budget.MAX_BUDGETED_FINGERPRINTS);
    CountedIffDistinct(fingerprints, f);
    NoticeIsOneOfTwo(fingerprints, f);
    var more := fingerprints + [f];
    if Count(fingerprints, f) == Budget.MAX_REPORTS_PER_FINGERPRINT - 1 {
      assert Count(more, f) == Budget.MAX_REPORTS_PER_FINGERPRINT;
    }
  }

  lemma NoticeIsOneOfTwo(fingerprints: seq<string>, f: string)
    ensures var notice := Budget.Spend(Budget.After(fingerprints), f).1.notice;
      notice == None || notice == Some(Budget.NoRoomForNewOnes) || notice == Some(Budget.BudgetSpent(f))
  {
  }

  lemma ModestShrinks(fingerprints: seq<string>, f: string)
    requires Modest(fingerprints + [f])
    ensures Modest(fingerprints)
  {
    Append(fingerprints, f);
    forall g ensures Count(fingerprints, g) < Budget.MAX_REPORTS_PER_FINGERPRINT {
      assert Count(fingerprints + [f], g) >= Count(fingerprints, g);
    }
  }

  /** While no line is one too many, the next brings a notice iff it is. */
  lemma VariedBringsNoNotice(keys: seq<string>, k: string)
    requires Varied(keys)
    ensures Repeat.Note(Repeat.After(keys), k).1.notice <==> !Varied(keys + [k])
  {
    Repeat.DecisionIsExact(keys, k);
    Append(keys, k);
    TrackedGrows(keys, k, Repeat.MAX_TRACKED_ERROR_KEYS);
    CountedIffDistinct(keys, k);
  }

  lemma VariedShrinks(keys: seq<string>, k: string)
    requires Varied(keys + [k])
    ensures Varied(keys)
  {
    Append(keys, k);
    TrackedGrows(keys, k, Repeat.MAX_TRACKED_ERROR_KEYS);
    forall x | x in Tracked(keys, Repeat.MAX_TRACKED_ERROR_KEYS)
      ensures Count(keys, x) <= Repeat.MAX_IDENTICAL_ERROR_LINES
    {
      assert Count(keys + [k], x) >= Count(keys, x);
    }
  }

  lemma {:induction false} BooksFollowTheSession(steps: seq<Step>)
    requires Exec(steps).Some?
    ensures Exec(steps).value.books == Budget.After(Current(steps))
  {
    if steps != [] {
      var front := steps[..|steps| - 1];
      var last := steps[|steps| - 1];
      BooksFollowTheSession(front);
      if last.LogError? && last.fingerprint.Some? {
        assert Current(steps) == Current(front) + [last.fingerprint.value];
        assert Current(steps)[..|Current(front)|] == Current(front);
      }
    }
  }

  /** In a modest session the budget says something exactly when the occurrence ends that, and until then it reports. */
  lemma BudgetSpeaksIff(f: Funnel, before: seq<string>, fingerprint: Option<string>, pathOk: bool)
    requires Modest(before) && f.books == Budget.After(before)
    ensures var (g, report) := Budgeted(f, fingerprint, pathOk);
      var modest := fingerprint.Some? ==> Modest(before + [fingerprint.value]);
      && g.notices >= f.notices && (g.notices == f.notices <==> modest) && (modest ==> report) && g.seen == f.seen
  {
    if fingerprint.Some? { ModestIsReported(before, fingerprint.value); }
  }

  lemma CapSpeaksIff(f: Funnel, keys: seq<string>, source: string, body: string, pathOk: bool)
    requires Varied(keys) && f.seen == Repeat.After(keys)
    ensures var g := Capped(f, source, body, pathOk); var key := Repeat.Key(source, body);
      && (g.notices == f.notices <==> Varied(keys + [key])) && g.notices >= f.notices
      && g.seen == Repeat.After(keys + [key])
  {
    VariedBringsNoNotice(keys, Repeat.Key(source, body));
    assert (keys + [Repeat.Key(source, body)])[..|keys|] == keys;
  }

  lemma RestBringsNotice(notices: nat, g: Funnel, report: bool, keys: seq<string>, call: Step, modest: bool)
    requires call.LogError? && Varied(keys) && g.seen == Repeat.After(keys)
    requires g.notices >= notices && (g.notices == notices <==> modest) && (modest ==> report)
    ensures var h := Rest(g, report, call.source, call.body, call.pathOkAgain); var key := Repeat.Key(call.source, call.body);
      && (h.notices == notices <==> modest && Varied(keys + [key]))
      && (modest ==> h.seen == Repeat.After(keys + [key]))
  {
    if report { CapSpeaksIff(g, keys, call.source, call.body, call.pathOkAgain); }
  }

  /** One call in an ordinary run: what the caller can count decides whether a notice is written. */
  lemma CallBringsNotice(f: Funnel, steps: seq<Step>, call: Step)
    requires call.LogError? && Modest(Current(steps)) && Varied(Keys(steps))
    requires f.books == Budget.After(Current(steps)) && f.seen == Repeat.After(Keys(steps))
    ensures var g := Apply(f, call); var key := Repeat.Key(call.source, call.body);
      var modest := call.fingerprint.Some? ==> Modest(Current(steps) + [call.fingerprint.value]);
      && (g.notices == f.notices <==> modest && Varied(Keys(steps) + [key]))
      && (modest ==> g.seen == Repeat.After(Keys(steps) + [key]))
  {
    var called := f.(calls := f.calls + 1);
    var v := Budgeted(called, call.fingerprint, call.pathOk);
    BudgetSpeaksIff(called, Current(steps), call.fingerprint, call.pathOk);
    RestBringsNotice(f.notices, v.0, v.1, Keys(steps), call,
                     call.fingerprint.Some? ==> Modest(Current(steps) + [call.fingerprint.value]));
    CallIsBudgetThenRest(f, call);
  }

  lemma NothingIsModest()
    ensures Modest([])
  {
    assert forall f: string :: Count<string>([], f) == 0;
  }

  lemma NoticesOnlyGrow(f: Funnel, step: Step)
    requires Enabled(f, step)
    ensures Apply(f, step).notices >= f.notices
  {
  }

  lemma OrdinaryShrinks(steps: seq<Step>)
    requires steps != [] && Ordinary(steps)
    ensures Ordinary(steps[..|steps| - 1])
  {
    var front := steps[..|steps| - 1];
    var last := steps[|steps| - 1];
    var before, after := Sessions(front), Sessions(steps);
    forall i | 0 <= i < |before| ensures Modest(before[i]) {
      assert Modest(after[i]);
      if after[i] != before[i] { ModestShrinks(before[i], last.fingerprint.value); }
    }
    if last.LogError? { VariedShrinks(Keys(front), Repeat.Key(last.source, last.body)); }
  }

  lemma OrdinaryGrows(steps: seq<Step>)
    requires steps != [] && Ordinary(steps[..|steps| - 1])
    ensures var last := steps[|steps| - 1]; var front := steps[..|steps| - 1];
      Ordinary(steps) <==> (last.LogError? ==>
        && (last.fingerprint.Some? ==> Modest(Current(front) + [last.fingerprint.value]))
        && Varied(Keys(front) + [Repeat.Key(last.source, last.body)]))
  {
    var front := steps[..|steps| - 1];
    var before, after := Sessions(front), Sessions(steps);
    var last := steps[|steps| - 1];
    var n := |before| - 1;
    NothingIsModest();
    assert Modest(before[n]) && before[n] == Current(front);
    if last.NewSession? {
      assert after == before + [[]];
    } else if last.LogError? && last.fingerprint.Some? {
      assert after[n] == Current(front) + [last.fingerprint.value];
      assert forall i :: 0 <= i < n ==> after[i] == before[i];
    }
  }

  /** No notice was ever written exactly when the run was an ordinary one; and then every line was asked for. */
  lemma {:induction false} NoNoticeIffOrdinary(steps: seq<Step>)
    requires Exec(steps).Some?
    ensures Exec(steps).value.notices == 0 <==> Ordinary(steps)
    ensures Ordinary(steps) ==> Exec(steps).value.seen == Repeat.After(Keys(steps))
  {
    if steps == [] {
      NothingIsModest();
    } else {
      var front := steps[..|steps| - 1];
      var last := steps[|steps| - 1];
      NoNoticeIffOrdinary(front);
      BooksFollowTheSession(front);
      NoticesOnlyGrow(Exec(front).value, last);
      if Ordinary(front) {
        OrdinaryGrows(steps);
        assert Modest(Current(front));
        if last.LogError? { CallBringsNotice(Exec(front).value, front, last); }
      } else if Ordinary(steps) {
        OrdinaryShrinks(steps);
      }
    }
  }

  /**
   * On a quiet, healthy disk the two counters telemetry adds up are the number of calls if and only if every
   * session had at most 200 issues and none of them a hundred times, and none of the first five hundred lines of
   * the process came more than five times.
   */
  lemma CountersAreTheCallsIff(steps: seq<Step>)
    requires Exec(steps).Some?
    requires Log.InFlight(Exec(steps).value.log) == [] && Log.Dropped(Exec(steps).value.log.settled) == []
    ensures var f := Exec(steps).value;
      |Log.Appended(f.log.settled)| + f.suppressed == f.calls <==> Ordinary(steps)
  {
    LedgerBalances(steps);
    NoNoticeIffOrdinary(steps);
  }
}
