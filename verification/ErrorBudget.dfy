/** The per-fingerprint session budget (errorBudget.ts): at most a hundred reports of each of two hundred issues. */
module ErrorBudget {
  import opened Prelude
  import opened Tally

  const MAX_REPORTS_PER_FINGERPRINT: nat := 100
  const MAX_BUDGETED_FINGERPRINTS: nat := 200

  /** The one-off lines that explain a silence; their wording is left out. */
  datatype Notice = NoRoomForNewOnes | BudgetSpent(fingerprint: string)

  datatype Verdict = Verdict(report: bool, notice: Option<Notice>)

  datatype Books = Books(spent: map<string, nat>, ceilingAnnounced: bool)

  const FRESH_BOOKS := Books(map[], false)

  function Spend(b: Books, fingerprint: string): (Books, Verdict) {
    if fingerprint !in b.spent && |b.spent| >= MAX_BUDGETED_FINGERPRINTS then
      if b.ceilingAnnounced then (b, Verdict(false, None))
      else (b.(ceilingAnnounced := true), Verdict(false, Some(NoRoomForNewOnes)))
    else
      var n := (if fingerprint in b.spent then b.spent[fingerprint] else 0) + 1;
      (b.(spent := b.spent[fingerprint := Min(n, MAX_REPORTS_PER_FINGERPRINT + 1)]),
       Verdict(n <= MAX_REPORTS_PER_FINGERPRINT,
               if n == MAX_REPORTS_PER_FINGERPRINT then Some(BudgetSpent(fingerprint)) else None))
  }

  /** The module's two variables, and the function that updates them. */
  class Session {
    var spent: map<string, nat>
    var ceilingAnnounced: bool

    constructor ()
      ensures State() == FRESH_BOOKS
    {
      spent, ceilingAnnounced := map[], false;
    }

    function State(): Books
      reads this
    {
      Books(spent, ceilingAnnounced)
    }

    method Ask(fingerprint: string) returns (verdict: Verdict)
      modifies this
      ensures (State(), verdict) == Spend(old(State()), fingerprint)
    {
      var known := fingerprint in spent;
      if !known && |spent| >= MAX_BUDGETED_FINGERPRINTS {
        if ceilingAnnounced { return Verdict(false, None); }
        ceilingAnnounced := true;
        return Verdict(false, Some(NoRoomForNewOnes));
      }
      var n := (if known then spent[fingerprint] else 0) + 1;
      spent := spent[fingerprint := if n > MAX_REPORTS_PER_FINGERPRINT then MAX_REPORTS_PER_FINGERPRINT + 1 else n];
      if n < MAX_REPORTS_PER_FINGERPRINT { return Verdict(true, None); }
      if n == MAX_REPORTS_PER_FINGERPRINT { return Verdict(true, Some(BudgetSpent(fingerprint))); }
      return Verdict(false, None);
    }

    method Reset()
      modifies this
      ensures State() == FRESH_BOOKS
    {
      spent := map[];
      ceilingAnnounced := false;
    }
  }

  // --------------------------------------------------------------------------------------- a whole session

  function After(calls: seq<string>): Books {
    if calls == [] then FRESH_BOOKS
    else Spend(After(calls[..|calls| - 1]), calls[|calls| - 1]).0
  }

  predicate Knows(b: Books, calls: seq<string>) {
    && b.spent.Keys == KeySet(Tracked(calls, MAX_BUDGETED_FINGERPRINTS))
    && (forall f :: f in b.spent ==> b.spent[f] == Min(Count(calls, f), MAX_REPORTS_PER_FINGERPRINT + 1))
    && (b.ceilingAnnounced <==> |Distinct(calls)| > MAX_BUDGETED_FINGERPRINTS)
  }

  lemma TableSize(b: Books, calls: seq<string>)
    requires Knows(b, calls)
    ensures |b.spent| == Min(|Distinct(calls)|, MAX_BUDGETED_FINGERPRINTS)
  {
    DistinctHasNoRepeats(calls);
    KeySetSize(Tracked(calls, MAX_BUDGETED_FINGERPRINTS));
    assert |b.spent| == |b.spent.Keys|;
  }

  lemma SpendKnows(b: Books, calls: seq<string>, f: string)
    requires Knows(b, calls)
    ensures Knows(Spend(b, f).0, calls + [f])
  {
    TableSize(b, calls);
    SpendKeepsKeys(b, calls, f);
    SpendCounts(b, calls, f);
    Append(calls, f);
  }

  lemma SpendKeepsKeys(b: Books, calls: seq<string>, f: string)
    requires Knows(b, calls) && |b.spent| == Min(|Distinct(calls)|, MAX_BUDGETED_FINGERPRINTS)
    ensures Spend(b, f).0.spent.Keys == KeySet(Tracked(calls + [f], MAX_BUDGETED_FINGERPRINTS))
  {
    TrackedGrows(calls, f, MAX_BUDGETED_FINGERPRINTS);
  }

  lemma SpendCounts(b: Books, calls: seq<string>, f: string)
    requires Knows(b, calls)
    ensures forall g :: g in Spend(b, f).0.spent ==>
      Spend(b, f).0.spent[g] == Min(Count(calls + [f], g), MAX_REPORTS_PER_FINGERPRINT + 1)
  {
    Append(calls, f);
    CountedIffDistinct(calls, f);
    if f !in b.spent && |b.spent| < MAX_BUDGETED_FINGERPRINTS { CountOfUntracked(b, calls, f); }
  }

  /** A fingerprint that the table may still take in has not occurred. */
  lemma CountOfUntracked(b: Books, calls: seq<string>, f: string)
    requires Knows(b, calls) && f !in b.spent && |b.spent| < MAX_BUDGETED_FINGERPRINTS
    ensures Count(calls, f) == 0
  {
    TableSize(b, calls);
    CountedIffDistinct(calls, f);
  }

  lemma {:induction false} BooksAreRight(calls: seq<string>)
    ensures Knows(After(calls), calls)
  {
    if calls != [] {
      var front := calls[..|calls| - 1];
      BooksAreRight(front);
      SpendKnows(After(front), front, calls[|calls| - 1]);
      assert front + [calls[|calls| - 1]] == calls;
    }
  }

  /**
   * After any session, the next occurrence of a fingerprint is reported exactly when the fingerprint is among
   * the first two hundred and this is one of its first hundred occurrences; the hundredth carries the notice,
   * and the very first fingerprint to find no room carries the other.
   */
  lemma VerdictIsExact(calls: seq<string>, f: string)
    ensures var verdict := Spend(After(calls), f).1;
      var tracked := f in Tracked(calls + [f], 200);
      && (verdict.report <==> tracked && Count(calls, f) < 100)
      && (verdict.notice == Some(BudgetSpent(f)) <==> tracked && Count(calls, f) == 99)
      && (verdict.notice == Some(NoRoomForNewOnes)
        <==> f !in Distinct(calls) && |Distinct(calls)| == 200)
  {
    BooksAreRight(calls);
    TableSize(After(calls), calls);
    TrackedGrows(calls, f, MAX_BUDGETED_FINGERPRINTS);
    CountedIffDistinct(calls, f);
  }

  function ReportsOf(calls: seq<string>, f: string): nat {
    if calls == [] then 0
    else
      var front := calls[..|calls| - 1];
      var last := calls[|calls| - 1];
      ReportsOf(front, f) + (if last == f && Spend(After(front), last).1.report then 1 else 0)
  }

  function Reports(calls: seq<string>): nat {
    if calls == [] then 0
    else
      var front := calls[..|calls| - 1];
      Reports(front) + (if Spend(After(front), calls[|calls| - 1]).1.report then 1 else 0)
  }

  /** A tracked fingerprint is reported as often as it occurs, up to a hundred times; any other never. */
  lemma {:induction false} ReportsAreCapped(calls: seq<string>, f: string)
    ensures ReportsOf(calls, f)
      == if f in Tracked(calls, MAX_BUDGETED_FINGERPRINTS) then Min(Count(calls, f), MAX_REPORTS_PER_FINGERPRINT) else 0
  {
    if calls != [] {
      var front := calls[..|calls| - 1];
      var last := calls[|calls| - 1];
      assert front + [last] == calls;
      ReportsAreCapped(front, f);
      Append(front, last);
      TrackedGrows(front, last, MAX_BUDGETED_FINGERPRINTS);
      CountedIffDistinct(front, f);
      VerdictIsExact(front, last);
    }
  }

  /** All reports of a session are the capped counts of the tracked fingerprints, never more than 20 000. */
  lemma {:induction false} ReportsAreBounded(calls: seq<string>)
    ensures Reports(calls)
      == CappedTotal(Tracked(calls, MAX_BUDGETED_FINGERPRINTS), calls, MAX_REPORTS_PER_FINGERPRINT)
    ensures Reports(calls) <= 20000
  {
    var tracked := Tracked(calls, MAX_BUDGETED_FINGERPRINTS);
    if calls == [] {
      assert tracked == [];
    } else {
      var front := calls[..|calls| - 1];
      assert front + [calls[|calls| - 1]] == calls;
      ReportsAreBounded(front);
      VerdictIsExact(front, calls[|calls| - 1]);
      TrackedTotalGrows(front, calls[|calls| - 1], MAX_BUDGETED_FINGERPRINTS, MAX_REPORTS_PER_FINGERPRINT);
    }
    CappedTotalIsBounded(tracked, calls, MAX_REPORTS_PER_FINGERPRINT);
    assert |tracked| * MAX_REPORTS_PER_FINGERPRINT <= MAX_BUDGETED_FINGERPRINTS * MAX_REPORTS_PER_FINGERPRINT;
  }
}
