/**
 * The counter writes of the telemetry ingest (telemetry.ts, `writeCounters`): any number of containers,
 * each writing one batch to four tables in one optimistic transaction under a randomly drawn shard.
 */
module TelemetryCounters {
  import opened Prelude
  import opened RetryLadder
  import opened Upsert

  const SHARD_COUNT: nat := 32

  type Shard = s: nat | s < SHARD_COUNT
  type Pid = nat

  datatype CounterId = CounterId(metric: string, dim: string)
  datatype FunnelId = FunnelId(funnel: string, step: string, outcome: string, appVersion: string)
  datatype ErrorId = ErrorId(version: string, fingerprint: string)
  datatype PerfId = PerfId(windowMode: string, machineClass: string, locked: string, stallBucket: string, tailBucket: string)

  /** Primary keys: the two hot tables are sharded, the funnel and error tables are not. */
  datatype ShardedKey<+I> = ShardedKey(shard: Shard, day: string, cohort: string, id: I)
  datatype PlainKey<+I> = PlainKey(day: string, cohort: string, id: I)

  datatype ErrorCell = ErrorCell(count: int, exemplar: Option<string>)

  /** What the rollup hands over for one batch: rows whose ids are distinct. */
  datatype Rollup = Rollup(
    counters: seq<Row<CounterId, int>>, funnels: seq<Row<FunnelId, int>>,
    errors: seq<Row<ErrorId, ErrorCell>>, perf: seq<Row<PerfId, int>>)

  datatype Batch = Batch(day: string, cohort: string, shard: Shard, roll: Rollup)

  datatype Tables = Tables(
    usage: map<ShardedKey<CounterId>, int>, funnel: map<PlainKey<FunnelId>, int>,
    errors: map<PlainKey<ErrorId>, ErrorCell>, perf: map<ShardedKey<PerfId>, int>)

  function Add(a: int, b: int): int { a + b }

  /** Counts accumulate; the exemplar already stored wins. */
  function AddError(a: ErrorCell, b: ErrorCell): ErrorCell {
    ErrorCell(a.count + b.count, if a.exemplar.Some? then a.exemplar else b.exemplar)
  }

  function Sharded<I, V>(b: Batch, rows: seq<Row<I, V>>): seq<Row<ShardedKey<I>, V>> {
    seq(|rows|, i requires 0 <= i < |rows| => Row(ShardedKey(b.shard, b.day, b.cohort, rows[i].key), rows[i].value))
  }

  function Plain<I, V>(b: Batch, rows: seq<Row<I, V>>): seq<Row<PlainKey<I>, V>> {
    seq(|rows|, i requires 0 <= i < |rows| => Row(PlainKey(b.day, b.cohort, rows[i].key), rows[i].value))
  }

  /** A draw from the random source, turned into a shard; nothing the client sent enters it. */
  function PickShard(draw: real): (s: int)
    requires 0.0 <= draw < 1.0
    ensures 0 <= s < 32
  {
    (draw * SHARD_COUNT as real).Floor
  }

  predicate DistinctIds(roll: Rollup) {
    DistinctKeys(roll.counters) && DistinctKeys(roll.funnels) && DistinctKeys(roll.errors) && DistinctKeys(roll.perf)
  }

  /** All four tables after one batch, whose rows went in one after the other. */
  function Write(t: Tables, b: Batch): Tables {
    Tables(
      UpsertEach(t.usage, Sharded(b, b.roll.counters), Add),
      UpsertEach(t.funnel, Plain(b, b.roll.funnels), Add),
      UpsertEach(t.errors, Plain(b, b.roll.errors), AddError),
      UpsertEach(t.perf, Sharded(b, b.roll.perf), Add))
  }

  lemma ShardedDistinct<I, V>(b: Batch, rows: seq<Row<I, V>>)
    requires DistinctKeys(rows)
    ensures DistinctKeys(Sharded(b, rows)) && DistinctKeys(Plain(b, rows))
  {
  }

  /** The body of the transaction as the code runs it: chunk by chunk, statement by statement. */
  method WriteCounters(t: Tables, b: Batch) returns (u: Tables)
    requires DistinctIds(b.roll)
    ensures u == Write(t, b)
  {
    ShardedDistinct(b, b.roll.counters);
    ShardedDistinct(b, b.roll.funnels);
    ShardedDistinct(b, b.roll.errors);
    ShardedDistinct(b, b.roll.perf);
    var usage := WriteRows(t.usage, Sharded(b, b.roll.counters), Add);
    var funnel := WriteRows(t.funnel, Plain(b, b.roll.funnels), Add);
    var errors := WriteRows(t.errors, Plain(b, b.roll.errors), AddError);
    var perf := WriteRows(t.perf, Sharded(b, b.roll.perf), Add);
    u := Tables(usage, funnel, errors, perf);
  }

  // -------------------------------------------------------------------------------- the transactions

  datatype Phase = Ready(attempt: nat) | Open(attempt: nat, snapshot: Tables) | Counted | Lost | GaveUp

  datatype Writer = Writer(batch: Batch, phase: Phase)

  /** `committed` is a history variable: who committed, in commit order. */
  datatype State = State(tables: Tables, writers: map<Pid, Writer>, committed: seq<Pid>)

  datatype Step = Start(p: Pid, batch: Batch) | Begin(p: Pid) | Commit(p: Pid, acked: bool) | Conflict(p: Pid) | Fail(p: Pid)

  predicate Same<K(==), V(==)>(keys: set<K>, a: map<K, V>, b: map<K, V>) {
    forall k :: k in keys ==> (k in a <==> k in b) && (k in a && k in b ==> a[k] == b[k])
  }

  /** No row this batch writes has changed since the snapshot: otherwise the commit is aborted with 40001. */
  predicate Unraced(snapshot: Tables, now: Tables, b: Batch) {
    && Same(KeysOf(Sharded(b, b.roll.counters)), snapshot.usage, now.usage)
    && Same(KeysOf(Plain(b, b.roll.funnels)), snapshot.funnel, now.funnel)
    && Same(KeysOf(Plain(b, b.roll.errors)), snapshot.errors, now.errors)
    && Same(KeysOf(Sharded(b, b.roll.perf)), snapshot.perf, now.perf)
  }

  /** A commit publishes the rows it wrote, as computed from its snapshot, and no other row. */
  function Publish<K, V>(now: map<K, V>, keys: set<K>, computed: map<K, V>): map<K, V>
    requires keys <= computed.Keys
  {
    map k | k in now.Keys + keys :: if k in keys then computed[k] else now[k]
  }

  lemma WriteCoversKeys(t: Tables, b: Batch)
    requires DistinctIds(b.roll)
    ensures KeysOf(Sharded(b, b.roll.counters)) <= Write(t, b).usage.Keys
    ensures KeysOf(Plain(b, b.roll.funnels)) <= Write(t, b).funnel.Keys
    ensures KeysOf(Plain(b, b.roll.errors)) <= Write(t, b).errors.Keys
    ensures KeysOf(Sharded(b, b.roll.perf)) <= Write(t, b).perf.Keys
  {
    ShardedDistinct(b, b.roll.counters);
    ShardedDistinct(b, b.roll.funnels);
    ShardedDistinct(b, b.roll.errors);
    ShardedDistinct(b, b.roll.perf);
    UpsertEachIsStatement(t.usage, Sharded(b, b.roll.counters), Add);
    UpsertEachIsStatement(t.funnel, Plain(b, b.roll.funnels), Add);
    UpsertEachIsStatement(t.errors, Plain(b, b.roll.errors), AddError);
    UpsertEachIsStatement(t.perf, Sharded(b, b.roll.perf), Add);
  }

  function Published(snapshot: Tables, now: Tables, b: Batch): Tables
    requires DistinctIds(b.roll)
  {
    WriteCoversKeys(snapshot, b);
    var mine := Write(snapshot, b);
    Tables(
      Publish(now.usage, KeysOf(Sharded(b, b.roll.counters)), mine.usage),
      Publish(now.funnel, KeysOf(Plain(b, b.roll.funnels)), mine.funnel),
      Publish(now.errors, KeysOf(Plain(b, b.roll.errors)), mine.errors),
      Publish(now.perf, KeysOf(Sharded(b, b.roll.perf)), mine.perf))
  }

  predicate Enabled(s: State, step: Step) {
    match step
    case Start(p, b) => p !in s.writers && DistinctIds(b.roll)
    case Begin(p) => p in s.writers && s.writers[p].phase.Ready?
    case Commit(p, _) =>
      p in s.writers && s.writers[p].phase.Open? && DistinctIds(s.writers[p].batch.roll)
      && Unraced(s.writers[p].phase.snapshot, s.tables, s.writers[p].batch)
    case Conflict(p) => p in s.writers && s.writers[p].phase.Open?
    case Fail(p) => p in s.writers && (s.writers[p].phase.Ready? || s.writers[p].phase.Open?)
  }

  function Goto(s: State, p: Pid, phase: Phase): State
    requires p in s.writers
  {
    s.(writers := s.writers[p := s.writers[p].(phase := phase)])
  }

  function Apply(s: State, step: Step): State
    requires Enabled(s, step)
  {
    match step
    case Start(p, b) => s.(writers := s.writers[p := Writer(b, Ready(1))])
    case Begin(p) => Goto(s, p, Open(s.writers[p].phase.attempt, s.tables))
    case Commit(p, acked) =>
      var w := s.writers[p];
      Goto(s, p, if acked then Counted else Lost).(
        tables := Published(w.phase.snapshot, s.tables, w.batch), committed := s.committed + [p])
    case Conflict(p) =>
      var n := s.writers[p].phase.attempt;
      Goto(s, p, if n >= MAX_ATTEMPTS then GaveUp else Ready(n + 1))
    case Fail(p) => Goto(s, p, GaveUp)
  }

  /** The state a schedule reaches from given tables, or None when it takes a step that is not enabled. */
  function Exec(start: Tables, steps: seq<Step>): Option<State> {
    if steps == [] then Some(State(start, map[], []))
    else
      var before := Exec(start, steps[..|steps| - 1]);
      var last := steps[|steps| - 1];
      if before.Some? && Enabled(before.value, last) then Some(Apply(before.value, last)) else None
  }

  // ------------------------------------------------------------------------------------- the refinement

  predicate CommittersKnown(s: State) {
    forall i :: 0 <= i < |s.committed| ==> s.committed[i] in s.writers
  }

  function Batches(s: State): seq<Batch>
    requires CommittersKnown(s)
  {
    seq(|s.committed|, i requires 0 <= i < |s.committed| => s.writers[s.committed[i]].batch)
  }

  /** The plain, unsharded reading: the batches one after the other, on nobody else's time. */
  function WriteAll(t: Tables, batches: seq<Batch>): Tables {
    if batches == [] then t else Write(WriteAll(t, batches[..|batches| - 1]), batches[|batches| - 1])
  }

  predicate HasCommitted(phase: Phase) {
    phase.Counted? || phase.Lost?
  }

  predicate CommitsOnce(s: State, p: Pid)
    requires p in s.writers
  {
    (p in s.committed <==> HasCommitted(s.writers[p].phase)) && DistinctIds(s.writers[p].batch.roll)
  }

  ghost predicate Inv(start: Tables, s: State) {
    && CommittersKnown(s)
    && (forall p {:trigger CommitsOnce(s, p)} :: p in s.writers ==> CommitsOnce(s, p))
    && (forall i, j :: 0 <= i < j < |s.committed| ==> s.committed[i] != s.committed[j])
    && s.tables == WriteAll(start, Batches(s))
  }

  lemma PublishIsUpsert<K(!new), V(!new)>(snapshot: map<K, V>, now: map<K, V>, rows: seq<Row<K, V>>, merge: (V, V) -> V)
    requires DistinctKeys(rows) && Same(KeysOf(rows), snapshot, now)
    requires KeysOf(rows) <= UpsertEach(snapshot, rows, merge).Keys
    ensures Publish(now, KeysOf(rows), UpsertEach(snapshot, rows, merge)) == UpsertEach(now, rows, merge)
  {
    UpsertEachIsStatement(snapshot, rows, merge);
    UpsertEachIsStatement(now, rows, merge);
    var u := Publish(now, KeysOf(rows), UpsertEach(snapshot, rows, merge));
    forall i | 0 <= i < |rows|
      ensures rows[i].key in KeysOf(rows)
    {
    }
    assert StatementLeaves(now, rows, merge, u);
    StatementIsUpsertEach(now, rows, merge, u);
  }

  /** An unraced commit leaves the tables as if its batch had run alone, at the moment it committed. */
  lemma CommitIsAtomic(snapshot: Tables, now: Tables, b: Batch)
    requires DistinctIds(b.roll) && Unraced(snapshot, now, b)
    ensures Published(snapshot, now, b) == Write(now, b)
  {
    ShardedDistinct(b, b.roll.counters);
    ShardedDistinct(b, b.roll.funnels);
    ShardedDistinct(b, b.roll.errors);
    ShardedDistinct(b, b.roll.perf);
    WriteCoversKeys(snapshot, b);
    PublishIsUpsert(snapshot.usage, now.usage, Sharded(b, b.roll.counters), Add);
    PublishIsUpsert(snapshot.funnel, now.funnel, Plain(b, b.roll.funnels), Add);
    PublishIsUpsert(snapshot.errors, now.errors, Plain(b, b.roll.errors), AddError);
    PublishIsUpsert(snapshot.perf, now.perf, Sharded(b, b.roll.perf), Add);
  }

  lemma CommitRefines(s: State, p: Pid, acked: bool)
    requires CommittersKnown(s) && Enabled(s, Commit(p, acked))
    ensures var t := Apply(s, Commit(p, acked));
      CommittersKnown(t) && Batches(t) == Batches(s) + [s.writers[p].batch] && t.tables == Write(s.tables, s.writers[p].batch)
  {
    CommitIsAtomic(s.writers[p].phase.snapshot, s.tables, s.writers[p].batch);
  }

  lemma CommitKeepsInv(start: Tables, s: State, p: Pid, acked: bool)
    requires Inv(start, s) && Enabled(s, Commit(p, acked))
    ensures Inv(start, Apply(s, Commit(p, acked)))
  {
    var t := Apply(s, Commit(p, acked));
    CommitRefines(s, p, acked);
    assert CommitsOnce(s, p);
    assert Batches(t)[..|s.committed|] == Batches(s);
    CommitKeepsWriters(s, t, p);
  }

  lemma CommitKeepsWriters(s: State, t: State, p: Pid)
    requires p in s.writers && p in t.writers && t.committed == s.committed + [p] && t.writers.Keys == s.writers.Keys
    requires CommitsOnce(s, p) && HasCommitted(t.writers[p].phase) && t.writers[p].batch == s.writers[p].batch
    requires forall x :: x in s.writers && x != p ==> t.writers[x] == s.writers[x]
    requires forall x {:trigger CommitsOnce(s, x)} :: x in s.writers ==> CommitsOnce(s, x)
    ensures forall x {:trigger CommitsOnce(t, x)} :: x in t.writers ==> CommitsOnce(t, x)
  {
    forall x | x in t.writers ensures CommitsOnce(t, x) {
      assert CommitsOnce(s, x);
    }
  }

  /** Any other step leaves tables and commits alone. */
  lemma MoveKeepsInv(start: Tables, s: State, p: Pid, w: Writer)
    requires Inv(start, s) && !HasCommitted(w.phase) && DistinctIds(w.batch.roll)
    requires p in s.writers ==> !HasCommitted(s.writers[p].phase)
    ensures Inv(start, s.(writers := s.writers[p := w]))
  {
    var t := s.(writers := s.writers[p := w]);
    assert p !in s.committed by {
      if p in s.writers { assert CommitsOnce(s, p); }
    }
    assert Batches(t) == Batches(s);
    forall x | x in t.writers ensures CommitsOnce(t, x) {
      if x != p { assert CommitsOnce(s, x); }
    }
  }

  lemma StepKeepsInv(start: Tables, s: State, step: Step)
    requires Inv(start, s) && Enabled(s, step)
    ensures Inv(start, Apply(s, step))
  {
    if step.Commit? {
      CommitKeepsInv(start, s, step.p, step.acked);
    } else {
      assert step.p in s.writers ==> CommitsOnce(s, step.p);
      MoveKeepsInv(start, s, step.p, Apply(s, step).writers[step.p]);
    }
  }

  /**
   * REFINEMENT, over every interleaving: the four tables are exactly what the committed batches leave when
   * written one after the other in commit order; each writer commits at most once, an acknowledged one
   * exactly once, and one that gave up not at all.
   */
  lemma {:induction false} InterleavingsAreSequential(start: Tables, steps: seq<Step>)
    requires Exec(start, steps).Some?
    ensures Inv(start, Exec(start, steps).value)
  {
    if steps != [] {
      InterleavingsAreSequential(start, steps[..|steps| - 1]);
      StepKeepsInv(start, Exec(start, steps[..|steps| - 1]).value, steps[|steps| - 1]);
    }
  }

  // ---------------------------------------------------------------------------------- what the tables say

  function Get<K>(t: map<K, int>, k: K): int {
    if k in t then t[k] else 0
  }

  /** What a list of rows says of one id. */
  function Amount<I(==)>(rows: seq<Row<I, int>>, id: I): int {
    if rows == [] then 0
    else Amount(rows[..|rows| - 1], id) + (if rows[|rows| - 1].key == id then rows[|rows| - 1].value else 0)
  }

  /** The merge view of one counter: the frozen table plus every shard (usage_daily_all, perf_daily_all). */
  function SumShards<I(==)>(t: map<ShardedKey<I>, int>, day: string, cohort: string, id: I, shards: nat): int
    requires shards <= SHARD_COUNT
  {
    if shards == 0 then 0
    else SumShards(t, day, cohort, id, shards - 1) + Get(t, ShardedKey(shards - 1, day, cohort, id))
  }

  function Merged<I(==)>(frozen: map<PlainKey<I>, int>, t: map<ShardedKey<I>, int>, k: PlainKey<I>): int {
    Get(frozen, k) + SumShards(t, k.day, k.cohort, k.id, SHARD_COUNT)
  }

  function Contribution<I(==)>(b: Batch, rows: seq<Row<I, int>>, k: PlainKey<I>): int {
    if b.day == k.day && b.cohort == k.cohort then Amount(rows, k.id) else 0
  }

  function Sum(batches: seq<Batch>, f: Batch -> int): int {
    if batches == [] then 0 else Sum(batches[..|batches| - 1], f) + f(batches[|batches| - 1])
  }

  lemma {:induction false} UpsertAddsAmount<K>(t: map<K, int>, rows: seq<Row<K, int>>, k: K)
    ensures Get(UpsertEach(t, rows, Add), k) == Get(t, k) + Amount(rows, k)
  {
    if rows != [] { UpsertAddsAmount(t, rows[..|rows| - 1], k); }
  }

  lemma {:induction false} AmountOfSharded<I>(b: Batch, rows: seq<Row<I, int>>, key: ShardedKey<I>)
    ensures Amount(Sharded(b, rows), key)
      == if key.shard == b.shard && key.day == b.day && key.cohort == b.cohort then Amount(rows, key.id) else 0
  {
    if rows != [] {
      AmountOfSharded(b, rows[..|rows| - 1], key);
      assert Sharded(b, rows)[..|rows| - 1] == Sharded(b, rows[..|rows| - 1]);
    }
  }

  lemma {:induction false} AmountOfPlain<I>(b: Batch, rows: seq<Row<I, int>>, key: PlainKey<I>)
    ensures Amount(Plain(b, rows), key) == Contribution(b, rows, key)
  {
    if rows != [] {
      AmountOfPlain(b, rows[..|rows| - 1], key);
      assert Plain(b, rows)[..|rows| - 1] == Plain(b, rows[..|rows| - 1]);
    }
  }

  /** Whatever shard the batch drew, the sum over the shards below `shards` grows by its rows, if that shard is among them. */
  lemma {:induction false} WriteAddsToSum<I>(t: map<ShardedKey<I>, int>, b: Batch, rows: seq<Row<I, int>>, k: PlainKey<I>, shards: nat)
    requires shards <= SHARD_COUNT
    ensures SumShards(UpsertEach(t, Sharded(b, rows), Add), k.day, k.cohort, k.id, shards)
      == SumShards(t, k.day, k.cohort, k.id, shards) + (if b.shard < shards then Contribution(b, rows, k) else 0)
    decreases shards
  {
    if shards > 0 {
      WriteAddsToSum(t, b, rows, k, shards - 1);
      var key := ShardedKey(shards - 1, k.day, k.cohort, k.id);
      UpsertAddsAmount(t, Sharded(b, rows), key);
      AmountOfSharded(b, rows, key);
    }
  }

  lemma {:induction false} SequenceMerges(start: Tables, batches: seq<Batch>, usageFrozen: map<PlainKey<CounterId>, int>,
    perfFrozen: map<PlainKey<PerfId>, int>, c: PlainKey<CounterId>, p: PlainKey<PerfId>, f: PlainKey<FunnelId>)
    ensures var t := WriteAll(start, batches);
      && Merged(usageFrozen, t.usage, c)
         == Merged(usageFrozen, start.usage, c) + Sum(batches, (b: Batch) => Contribution(b, b.roll.counters, c))
      && Merged(perfFrozen, t.perf, p)
         == Merged(perfFrozen, start.perf, p) + Sum(batches, (b: Batch) => Contribution(b, b.roll.perf, p))
      && Get(t.funnel, f) == Get(start.funnel, f) + Sum(batches, (b: Batch) => Contribution(b, b.roll.funnels, f))
  {
    if batches != [] {
      var front := batches[..|batches| - 1];
      var b := batches[|batches| - 1];
      SequenceMerges(start, front, usageFrozen, perfFrozen, c, p, f);
      var t := WriteAll(start, front);
      WriteAddsToSum(t.usage, b, b.roll.counters, c, SHARD_COUNT);
      WriteAddsToSum(t.perf, b, b.roll.perf, p, SHARD_COUNT);
      UpsertAddsAmount(t.funnel, Plain(b, b.roll.funnels), f);
      AmountOfPlain(b, b.roll.funnels, f);
    }
  }

  /**
   * CONSERVATION, over every interleaving, every retry and every choice of shards: each merged counter is
   * its frozen value plus the contributions of exactly the committed batches, as if never sharded.
   */
  lemma MergedCountersAreExact(start: Tables, steps: seq<Step>, usageFrozen: map<PlainKey<CounterId>, int>,
    perfFrozen: map<PlainKey<PerfId>, int>, c: PlainKey<CounterId>, p: PlainKey<PerfId>, f: PlainKey<FunnelId>)
    requires Exec(start, steps).Some?
    ensures var s := Exec(start, steps).value;
      && CommittersKnown(s)
      && Merged(usageFrozen, s.tables.usage, c)
         == Merged(usageFrozen, start.usage, c) + Sum(Batches(s), (b: Batch) => Contribution(b, b.roll.counters, c))
      && Merged(perfFrozen, s.tables.perf, p)
         == Merged(perfFrozen, start.perf, p) + Sum(Batches(s), (b: Batch) => Contribution(b, b.roll.perf, p))
      && Get(s.tables.funnel, f) == Get(start.funnel, f) + Sum(Batches(s), (b: Batch) => Contribution(b, b.roll.funnels, f))
  {
    InterleavingsAreSequential(start, steps);
    SequenceMerges(start, Batches(Exec(start, steps).value), usageFrozen, perfFrozen, c, p, f);
  }

  // -------------------------------------------------------------------------------------- the error store

  function ErrorAt(t: map<PlainKey<ErrorId>, ErrorCell>, k: PlainKey<ErrorId>): ErrorCell {
    if k in t then t[k] else ErrorCell(0, None)
  }

  /** The cell a batch proposes for one key (an empty one when it proposes none). */
  function Proposed(b: Batch, k: PlainKey<ErrorId>): ErrorCell {
    ProposedBy(Plain(b, b.roll.errors), k)
  }

  function ProposedBy(rows: seq<Row<PlainKey<ErrorId>, ErrorCell>>, k: PlainKey<ErrorId>): ErrorCell {
    if rows == [] then ErrorCell(0, None)
    else
      var before := ProposedBy(rows[..|rows| - 1], k);
      if rows[|rows| - 1].key == k then AddError(before, rows[|rows| - 1].value) else before
  }

  /** The first exemplar anybody proposed, in commit order. */
  function FirstExemplar(batches: seq<Batch>, k: PlainKey<ErrorId>): Option<string> {
    if batches == [] then None
    else
      var before := FirstExemplar(batches[..|batches| - 1], k);
      if before.Some? then before else Proposed(batches[|batches| - 1], k).exemplar
  }

  lemma {:induction false} UpsertAddsErrors(t: map<PlainKey<ErrorId>, ErrorCell>, rows: seq<Row<PlainKey<ErrorId>, ErrorCell>>, k: PlainKey<ErrorId>)
    ensures ErrorAt(UpsertEach(t, rows, AddError), k) == AddError(ErrorAt(t, k), ProposedBy(rows, k))
  {
    if rows != [] {
      var front := rows[..|rows| - 1];
      UpsertAddsErrors(t, front, k);
      UpsertOneError(UpsertEach(t, front, AddError), rows[|rows| - 1], k);
    }
  }

  lemma UpsertOneError(t: map<PlainKey<ErrorId>, ErrorCell>, row: Row<PlainKey<ErrorId>, ErrorCell>, k: PlainKey<ErrorId>)
    ensures ErrorAt(UpsertOne(t, row, AddError), k) == if row.key == k then AddError(ErrorAt(t, k), row.value) else ErrorAt(t, k)
  {
  }

  lemma {:induction false} SequenceErrors(start: Tables, batches: seq<Batch>, k: PlainKey<ErrorId>)
    ensures ErrorAt(WriteAll(start, batches).errors, k).count
      == ErrorAt(start.errors, k).count + Sum(batches, (b: Batch) => Proposed(b, k).count)
    ensures ErrorAt(WriteAll(start, batches).errors, k).exemplar
      == if ErrorAt(start.errors, k).exemplar.Some? then ErrorAt(start.errors, k).exemplar else FirstExemplar(batches, k)
  {
    if batches != [] {
      var b := batches[|batches| - 1];
      SequenceErrors(start, batches[..|batches| - 1], k);
      UpsertAddsErrors(WriteAll(start, batches[..|batches| - 1]).errors, Plain(b, b.roll.errors), k);
    }
  }

  /** Over every interleaving: error counts add up, and the stored exemplar is the first one ever proposed. */
  lemma ErrorStoreIsExact(start: Tables, steps: seq<Step>, k: PlainKey<ErrorId>)
    requires Exec(start, steps).Some?
    ensures var s := Exec(start, steps).value;
      && CommittersKnown(s)
      && ErrorAt(s.tables.errors, k).count == ErrorAt(start.errors, k).count + Sum(Batches(s), (b: Batch) => Proposed(b, k).count)
      && ErrorAt(s.tables.errors, k).exemplar
         == (if ErrorAt(start.errors, k).exemplar.Some? then ErrorAt(start.errors, k).exemplar else FirstExemplar(Batches(s), k))
  {
    InterleavingsAreSequential(start, steps);
    SequenceErrors(start, Batches(Exec(start, steps).value), k);
  }

  /** Once an exemplar is stored, no step of any later schedule changes it. */
  lemma StepKeepsExemplar(start: Tables, s: State, step: Step, k: PlainKey<ErrorId>)
    requires Inv(start, s) && Enabled(s, step) && ErrorAt(s.tables.errors, k).exemplar.Some?
    ensures ErrorAt(Apply(s, step).tables.errors, k).exemplar == ErrorAt(s.tables.errors, k).exemplar
  {
    if step.Commit? {
      var w := s.writers[step.p];
      CommitIsAtomic(w.phase.snapshot, s.tables, w.batch);
      UpsertAddsErrors(s.tables.errors, Plain(w.batch, w.batch.roll.errors), k);
    }
  }
}
