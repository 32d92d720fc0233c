/**
 * POST /v1/feedback as a protocol: any number of containers run `accept` (submit.ts) against one
 * optimistic database (db.ts), one database step at a time and in any order.
 *
 * A transaction reads a snapshot and holds no lock. It may commit only while the rows it writes are
 * as its snapshot had them, it may be aborted with 40001 at any time (and then commits nothing), and
 * an INSERT of a key that exists fails with 23505. A commit whose acknowledgement is lost took effect
 * although the caller answers 500.
 */
module SubmitProtocol {
  import opened Prelude
  import opened RetryLadder

  const IDEMP_TTL_MS: int := 7 * 24 * 60 * 60 * 1000
  const QUOTA_TTL_MS: int := 3 * 24 * 60 * 60 * 1000

  type ReportId = string
  type Pid = nat

  datatype Key = Key(install: string, client: string)
  datatype QuotaKey = QuotaKey(install: string, day: string)
  datatype QuotaRow = QuotaRow(n: nat, expiresAt: int)
  datatype IdempRow = IdempRow(reportId: ReportId, expiresAt: int)

  /** The tables ingest writes; `reports` maps a report id to the install that sent it. */
  datatype Database = Database(
    quota: map<QuotaKey, QuotaRow>, idemp: map<Key, IdempRow>, reports: map<ReportId, string>)

  /** A request as the handler holds it: its pair, its UTC day and the clock of its container. */
  datatype Request = Request(key: Key, day: string, now: int)

  /** The hand-written config row, or its cached copy: a field that is absent or of another type is None. */
  datatype ConfigRow = ConfigRow(accepting: Option<bool>, maxPerDay: Option<int>)

  datatype Config = Config(accepting: bool, cap: int)

  /** What step 3 learns: the config row, this deployment's fallback cap, and the profile row. */
  datatype Context = Context(row: ConfigRow, fallback: int, blocked: bool)

  function ToConfig(row: ConfigRow, fallback: int): Config {
    Config(row.accepting.GetOr(true),
           if row.maxPerDay.Some? && row.maxPerDay.value > 0 then row.maxPerDay.value else fallback)
  }

  datatype Reply = Created(id: ReportId) | Replayed(id: ReportId) | Closed | Blocked | QuotaExceeded | Internal

  datatype Pc =
    | Start
    | QuotaReady(attempt: nat)
    | QuotaOpen(attempt: nat, seen: Option<QuotaRow>)
    | Paid
    | ReportReady(attempt: nat, id: ReportId)
    | ReportOpen(attempt: nat, id: ReportId, taken: bool)
    | LookingUp
    | Replied(reply: Reply)

  /** `cap` is the quota cap this process evaluated, once it has loaded its context. */
  datatype Process = Process(req: Request, cap: int, pc: Pc)

  /** Who created a report, and for which pair and day; `wrote` below is the inverse. */
  datatype Creation = Creation(key: Key, day: string, pid: Pid)

  /** History variables: they are written by steps and read by no step. */
  datatype History = History(
    created: map<ReportId, Creation>,
    wrote: map<Pid, ReportId>,
    paid: set<Pid>,
    sweptKeys: multiset<Key>,
    sweptUnits: multiset<QuotaKey>)

  datatype State = State(db: Database, procs: map<Pid, Process>, hist: History)

  const INIT: State :=
    State(Database(map[], map[], map[]), map[], History(map[], map[], {}, multiset{}, multiset{}))

  datatype Step =
    | Arrive(p: Pid, req: Request)
    | Load(p: Pid, ctx: Context)
    | BeginQuota(p: Pid)
    | CommitQuota(p: Pid, acked: bool)
    | SweepQuota(p: Pid, row: QuotaKey)
    | SweepIdemp(p: Pid, key: Key)
    | Mint(p: Pid, id: ReportId)
    | BeginReport(p: Pid)
    | CommitReport(p: Pid, acked: bool)
    | DuplicateReport(p: Pid)
    | Conflict(p: Pid)
    | Lookup(p: Pid)
    | Fail(p: Pid)

  function QuotaKeyOf(req: Request): QuotaKey {
    QuotaKey(req.key.install, req.day)
  }

  predicate Enabled(s: State, step: Step) {
    if step.Arrive? then step.p !in s.procs
    else step.p in s.procs && EnabledAt(s, step, s.procs[step.p])
  }

  predicate EnabledAt(s: State, step: Step, me: Process)
    requires !step.Arrive? && step.p in s.procs && me == s.procs[step.p]
  {
    match step
    case Load(_, _) => me.pc.Start?
    case BeginQuota(_) => me.pc.QuotaReady?
    case CommitQuota(p, _) => me.pc.QuotaOpen? && (QuotaRefused(me) || MayTake(s, p))
    case SweepQuota(_, row) => me.pc.Paid? && row in s.db.quota && s.db.quota[row].expiresAt < me.req.now
    case SweepIdemp(p, key) => me.pc.Paid? && MaySweepIdemp(s, p, key)
    case Mint(_, _) => me.pc.Paid?
    case BeginReport(_) => me.pc.ReportReady?
    case CommitReport(p, _) => MayWrite(s, p)
    case DuplicateReport(_) => me.pc.ReportOpen? && (me.pc.taken || Taken(s.db, me.pc.id, me.req.key))
    case Conflict(_) => me.pc.QuotaOpen? || me.pc.ReportOpen?
    case Lookup(_) => me.pc.LookingUp?
    case Fail(_) => !me.pc.Replied?
  }

  /** The quota transaction may commit a unit: the row is still the one its snapshot read. */
  predicate MayTake(s: State, p: Pid) {
    && p in s.procs && s.procs[p].pc.QuotaOpen? && !QuotaRefused(s.procs[p])
    && QuotaRowNow(s.db, QuotaKeyOf(s.procs[p].req)) == s.procs[p].pc.seen
  }

  /** The report transaction may commit: both keys are free, in its snapshot and still. */
  predicate MayWrite(s: State, p: Pid) {
    && p in s.procs && s.procs[p].pc.ReportOpen? && !s.procs[p].pc.taken
    && !Taken(s.db, s.procs[p].pc.id, s.procs[p].req.key)
  }

  /** The janitor removes a row whose stamp is before the sweeping container's clock. */
  predicate MaySweepIdemp(s: State, p: Pid, key: Key) {
    p in s.procs && key in s.db.idemp && s.db.idemp[key].expiresAt < s.procs[p].req.now
  }

  function QuotaRowNow(db: Database, q: QuotaKey): Option<QuotaRow> {
    if q in db.quota then Some(db.quota[q]) else None
  }

  /** Would the two INSERTs of step 6 meet an existing primary key? */
  predicate Taken(db: Database, id: ReportId, key: Key) {
    id in db.reports || key in db.idemp
  }

  function Apply(s: State, step: Step): State
    requires Enabled(s, step)
  {
    if step.Arrive? then s.(procs := s.procs[step.p := Process(step.req, 0, Start)])
    else
      var me := s.procs[step.p];
      match step
      case Load(p, ctx) =>
        s.(procs := s.procs[p := me.(cap := ToConfig(ctx.row, ctx.fallback).cap, pc := Loaded(s.db, me.req.key, ctx))])
      case BeginQuota(p) => Goto(s, p, QuotaOpen(me.pc.attempt, QuotaRowNow(s.db, QuotaKeyOf(me.req))))
      case CommitQuota(p, acked) =>
        if QuotaRefused(me) then Goto(s, p, Replied(if acked then QuotaExceeded else Internal))
        else TakeUnit(s, p, acked)
      case SweepQuota(_, row) => ApplySweepQuota(s, row)
      case SweepIdemp(_, key) => ApplySweepIdemp(s, key)
      case Mint(p, id) => Goto(s, p, ReportReady(1, id))
      case BeginReport(p) => Goto(s, p, ReportOpen(me.pc.attempt, me.pc.id, Taken(s.db, me.pc.id, me.req.key)))
      case CommitReport(p, acked) => WriteReport(s, p, acked)
      case DuplicateReport(p) => Goto(s, p, LookingUp)
      case Conflict(p) => Goto(s, p, AfterConflict(me.pc))
      case Lookup(p) =>
        Goto(s, p, Replied(if me.req.key in s.db.idemp then Replayed(s.db.idemp[me.req.key].reportId) else Internal))
      case Fail(p) => Goto(s, p, Replied(Internal))
  }

  function Goto(s: State, p: Pid, pc: Pc): State
    requires p in s.procs
  {
    s.(procs := s.procs[p := s.procs[p].(pc := pc)])
  }

  /** Step 3: the kill switch, the block list and the idempotency probe, in that order. */
  function Loaded(db: Database, key: Key, ctx: Context): Pc {
    if !ToConfig(ctx.row, ctx.fallback).accepting then Replied(Closed)
    else if ctx.blocked then Replied(Blocked)
    else if key in db.idemp then Replied(Replayed(db.idemp[key].reportId))
    else QuotaReady(1)
  }

  /** A 40001 sends the transaction round the ladder again until the fifth attempt has failed. */
  function AfterConflict(pc: Pc): Pc
    requires pc.QuotaOpen? || pc.ReportOpen?
  {
    if pc.attempt >= MAX_ATTEMPTS then Replied(Internal)
    else if pc.QuotaOpen? then QuotaReady(pc.attempt + 1)
    else ReportReady(pc.attempt + 1, pc.id)
  }

  /** The UPDATE arm's guard is false: zero rows come back. The INSERT arm has no guard. */
  predicate QuotaRefused(me: Process)
    requires me.pc.QuotaOpen?
  {
    me.pc.seen.Some? && me.pc.seen.value.n >= me.cap
  }

  /** Step 4: one unit of the day is taken; the INSERT arm starts the count at one. */
  function TakeUnit(s: State, p: Pid, acked: bool): State
    requires MayTake(s, p)
  {
    var me := s.procs[p];
    var n := if me.pc.seen.None? then 1 else me.pc.seen.value.n + 1;
    Goto(s, p, if acked then Paid else Replied(Internal)).(
      db := s.db.(quota := s.db.quota[QuotaKeyOf(me.req) := QuotaRow(n, me.req.now + QUOTA_TTL_MS)]),
      hist := s.hist.(paid := s.hist.paid + {p}))
  }

  /** Step 6 commits its two rows together. */
  function WriteReport(s: State, p: Pid, acked: bool): State
    requires MayWrite(s, p)
  {
    var me := s.procs[p];
    var id := me.pc.id;
    Goto(s, p, Replied(if acked then Created(id) else Internal)).(
      db := s.db.(
        reports := s.db.reports[id := me.req.key.install],
        idemp := s.db.idemp[me.req.key := IdempRow(id, me.req.now + IDEMP_TTL_MS)]),
      hist := s.hist.(created := s.hist.created[id := Creation(me.req.key, me.req.day, p)], wrote := s.hist.wrote[p := id]))
  }

  function ApplySweepQuota(s: State, q: QuotaKey): State
    requires q in s.db.quota
  {
    s.(db := s.db.(quota := s.db.quota - {q}),
       hist := s.hist.(sweptUnits := s.hist.sweptUnits[q := s.hist.sweptUnits[q] + s.db.quota[q].n]))
  }

  function ApplySweepIdemp(s: State, key: Key): State
    requires key in s.db.idemp
  {
    s.(db := s.db.(idemp := s.db.idemp - {key}),
       hist := s.hist.(sweptKeys := s.hist.sweptKeys[key := s.hist.sweptKeys[key] + 1]))
  }

  /** The state a schedule reaches from empty tables, or None when it takes a step that is not enabled. */
  function Exec(steps: seq<Step>): Option<State> {
    if steps == [] then Some(INIT)
    else
      var before := Exec(steps[..|steps| - 1]);
      var last := steps[|steps| - 1];
      if before.Some? && Enabled(before.value, last) then Some(Apply(before.value, last)) else None
  }

  // -------------------------------------------------------------------- what a state is asked about

  function ReportsOf(s: State, k: Key): set<ReportId> {
    CreatedFor(s.hist.created, k)
  }

  function CreatedFor(created: map<ReportId, Creation>, k: Key): set<ReportId> {
    set r | r in created && created[r].key == k
  }

  function ReportsOn(s: State, q: QuotaKey): set<ReportId> {
    set r | r in s.hist.created && QuotaKey(s.hist.created[r].key.install, s.hist.created[r].day) == q
  }

  /** The processes that answered 201 for a pair. */
  function AnsweredCreated(s: State, k: Key): set<Pid> {
    set p | p in s.procs && s.procs[p].req.key == k && s.procs[p].pc.Replied? && s.procs[p].pc.reply.Created?
  }

  function PaidOn(s: State, q: QuotaKey): set<Pid> {
    set p | p in s.hist.paid && p in s.procs && QuotaKeyOf(s.procs[p].req) == q
  }

  function QuotaCount(s: State, q: QuotaKey): nat {
    if q in s.db.quota then s.db.quota[q].n else 0
  }

  /** An ok reply, 200 or 201, and the report it names. */
  predicate AnsweredOk(s: State, p: Pid, k: Key, id: ReportId) {
    p in s.procs && s.procs[p].req.key == k && (s.procs[p].pc == Replied(Created(id)) || s.procs[p].pc == Replied(Replayed(id)))
  }

  // -------------------------------------------------------------------------------- the invariants

  /** Tables and history agree: a report is an insert by one process, which has answered since. */
  ghost predicate TablesInv(s: State) {
    && s.hist.created.Keys == s.db.reports.Keys
    && (forall r {:trigger CreatorIn(s, r)} :: r in s.hist.created ==> CreatorIn(s, r))
    && (forall k {:trigger RowPointsHome(s, k)} :: k in s.db.idemp ==> RowPointsHome(s, k))
  }

  /** The creator of `r` carries r's pair and day, has paid, and answered `r` or lost its acknowledgement. */
  predicate CreatorIn(s: State, r: ReportId)
    requires r in s.hist.created
  {
    var c := s.hist.created[r];
    && r in s.db.reports && s.db.reports[r] == c.key.install
    && c.pid in s.procs && c.pid in s.hist.paid
    && s.procs[c.pid].req.key == c.key && s.procs[c.pid].req.day == c.day
    && s.procs[c.pid].pc.Replied?
    && c.pid in s.hist.wrote && s.hist.wrote[c.pid] == r
  }

  predicate RowPointsHome(s: State, k: Key)
    requires k in s.db.idemp
  {
    var r := s.db.idemp[k].reportId;
    && r in s.hist.created && s.hist.created[r].key == k
    && s.hist.created[r].pid in s.procs
    && s.db.idemp[k].expiresAt == s.procs[s.hist.created[r].pid].req.now + IDEMP_TTL_MS
  }

  ghost predicate RepliesInv(s: State) {
    forall p {:trigger ReplyIsTrue(s, p)} :: p in s.procs ==> ReplyIsTrue(s, p)
  }

  /** An ok reply names a report of the replier's own pair; a 201 names the one it created. */
  predicate ReplyIsTrue(s: State, p: Pid)
    requires p in s.procs
  {
    match s.procs[p].pc
    case Replied(Created(id)) => id in s.hist.created && s.hist.created[id].pid == p && s.hist.created[id].key == s.procs[p].req.key
    case Replied(Replayed(id)) => id in s.hist.created && s.hist.created[id].key == s.procs[p].req.key
    case _ => true
  }

  predicate PastQuota(pc: Pc) {
    pc.Paid? || pc.ReportReady? || pc.ReportOpen? || pc.LookingUp?
  }

  ghost predicate PaidInv(s: State) {
    && s.hist.paid <= s.procs.Keys && s.hist.wrote.Keys <= s.procs.Keys
    && (forall p {:trigger PaysOnce(s, p)} :: p in s.procs ==> PaysOnce(s, p))
  }

  /** A process past the quota gate has paid; one before it has not; one that created a report has answered. */
  predicate PaysOnce(s: State, p: Pid)
    requires p in s.procs
  {
    var pc := s.procs[p].pc;
    && (PastQuota(pc) ==> p in s.hist.paid)
    && (p in s.hist.paid ==> PastQuota(pc) || pc.Replied?)
    && (p in s.hist.wrote ==> pc.Replied?)
    && AttemptInLadder(pc)
  }

  predicate AttemptInLadder(pc: Pc) {
    pc.QuotaReady? || pc.QuotaOpen? || pc.ReportReady? || pc.ReportOpen? ==> 1 <= pc.attempt <= MAX_ATTEMPTS
  }

  /** CONSERVATION: every report of a pair is accounted for by its live row or by a swept one. */
  ghost predicate ReportLedger(s: State) {
    forall k {:trigger PairBalanced(s, k)} :: PairBalanced(s, k)
  }

  predicate PairBalanced(s: State, k: Key) {
    |ReportsOf(s, k)| == s.hist.sweptKeys[k] + (if k in s.db.idemp then 1 else 0)
  }

  /** CONSERVATION: every unit of quota taken on a day is in the live counter or in a swept one. */
  ghost predicate QuotaLedger(s: State) {
    forall q {:trigger DayBalanced(s, q)} :: DayBalanced(s, q)
  }

  predicate DayBalanced(s: State, q: QuotaKey) {
    |PaidOn(s, q)| == s.hist.sweptUnits[q] + QuotaCount(s, q)
  }

  /** Some payer of the day evaluated a cap at or above the count (the INSERT arm counts as a cap of 1). */
  ghost predicate CapInv(s: State) {
    forall q {:trigger HasCapWitness(s, q)} :: q in s.db.quota ==> HasCapWitness(s, q)
  }

  ghost predicate HasCapWitness(s: State, q: QuotaKey) {
    exists p :: CapWitness(s, q, p)
  }

  predicate CapWitness(s: State, q: QuotaKey, p: Pid) {
    p in PaidOn(s, q) && QuotaCount(s, q) <= Max(1, s.procs[p].cap)
  }

  /** A swept pair was swept by a clock more than the TTL past the clock of one of its creators. */
  ghost predicate SweepInv(s: State) {
    forall k {:trigger WasSweptLate(s, k)} :: k in s.hist.sweptKeys ==> WasSweptLate(s, k)
  }

  ghost predicate WasSweptLate(s: State, k: Key) {
    exists p, r :: SweptLate(s, k, p, r)
  }

  predicate SweptLate(s: State, k: Key, p: Pid, r: ReportId) {
    && p in s.procs && r in s.hist.created && s.hist.created[r].key == k && s.hist.created[r].pid in s.procs
    && s.procs[p].req.now > s.procs[s.hist.created[r].pid].req.now + IDEMP_TTL_MS
  }

  ghost predicate Inv(s: State) {
    TablesInv(s) && RepliesInv(s) && PaidInv(s) && ReportLedger(s) && QuotaLedger(s) && CapInv(s) && SweepInv(s)
  }

  // ---------------------------------------------------------------------------------- preservation

  /** The payers of `s` are the payers of `t`, with the same request and cap. */
  ghost predicate SamePayers(s: State, t: State) {
    && t.hist.paid == s.hist.paid && s.hist.paid <= s.procs.Keys && s.hist.paid <= t.procs.Keys
    && forall p :: p in s.hist.paid ==> t.procs[p].req == s.procs[p].req && t.procs[p].cap == s.procs[p].cap
  }

  lemma QuotaFrame(s: State, t: State)
    requires QuotaLedger(s) && CapInv(s) && SamePayers(s, t)
    requires t.db.quota == s.db.quota && t.hist.sweptUnits == s.hist.sweptUnits
    ensures QuotaLedger(t) && CapInv(t)
  {
    forall q ensures DayBalanced(t, q) {
      assert DayBalanced(s, q);
      assert PaidOn(t, q) == PaidOn(s, q);
    }
    forall q | q in t.db.quota ensures HasCapWitness(t, q) { CapWitnessFrame(s, t, q); }
  }

  lemma CapWitnessFrame(s: State, t: State, q: QuotaKey)
    requires CapInv(s) && q in s.db.quota && QuotaCount(t, q) == QuotaCount(s, q)
    requires s.hist.paid <= t.hist.paid
    requires forall p :: p in s.hist.paid && p in s.procs ==>
      p in t.procs && t.procs[p].req == s.procs[p].req && t.procs[p].cap == s.procs[p].cap
    ensures HasCapWitness(t, q)
  {
    assert HasCapWitness(s, q);
    var p :| CapWitness(s, q, p);
    assert t.procs[p].cap == s.procs[p].cap;
    assert p in PaidOn(t, q);
    assert CapWitness(t, q, p);
  }

  lemma ReportFrame(s: State, t: State)
    requires ReportLedger(s)
    requires t.hist.created == s.hist.created && t.hist.sweptKeys == s.hist.sweptKeys && t.db.idemp.Keys == s.db.idemp.Keys
    ensures ReportLedger(t)
  {
    forall k ensures PairBalanced(t, k) {
      assert PairBalanced(s, k);
      assert ReportsOf(t, k) == ReportsOf(s, k);
      assert k in t.db.idemp.Keys <==> k in s.db.idemp.Keys;
    }
  }

  /** No creation happened, rows only went away, and no process that had answered changed. */
  lemma TablesFrame(s: State, t: State)
    requires TablesInv(s) && s.hist.paid <= t.hist.paid
    requires t.hist.created == s.hist.created && t.hist.wrote == s.hist.wrote && t.db.reports == s.db.reports
    requires forall k :: k in t.db.idemp ==> k in s.db.idemp && t.db.idemp[k] == s.db.idemp[k]
    requires forall p :: p in s.procs && s.procs[p].pc.Replied? ==> p in t.procs && t.procs[p] == s.procs[p]
    ensures TablesInv(t)
  {
    forall r | r in t.hist.created ensures CreatorIn(t, r) {
      assert CreatorIn(s, r);
      assert t.procs[s.hist.created[r].pid] == s.procs[s.hist.created[r].pid];
    }
    forall k | k in t.db.idemp ensures RowPointsHome(t, k) {
      assert RowPointsHome(s, k);
      var r := s.db.idemp[k].reportId;
      assert CreatorIn(s, r);
      assert t.procs[s.hist.created[r].pid] == s.procs[s.hist.created[r].pid];
    }
  }

  /** Creations only accumulate and at most one process moved, truthfully. */
  lemma RepliesFrame(s: State, t: State, p: Pid)
    requires RepliesInv(s)
    requires forall x :: x in t.procs && x != p ==> x in s.procs && t.procs[x] == s.procs[x]
    requires forall r :: r in s.hist.created ==> r in t.hist.created && t.hist.created[r] == s.hist.created[r]
    requires p in t.procs ==> ReplyIsTrue(t, p)
    ensures RepliesInv(t)
  {
    forall x | x in t.procs ensures ReplyIsTrue(t, x) {
      if x != p {
        assert ReplyIsTrue(s, x);
        assert t.procs[x] == s.procs[x];
      }
    }
  }

  /** At most one process moved or paid, in order. */
  lemma PaidFrame(s: State, t: State, p: Pid)
    requires PaidInv(s) && p in t.procs && PaysOnce(t, p)
    requires t.procs.Keys == s.procs.Keys + {p} && t.hist.paid - {p} == s.hist.paid - {p}
    requires t.hist.wrote.Keys - {p} == s.hist.wrote.Keys - {p}
    requires forall x :: x in t.procs && x != p ==> t.procs[x] == s.procs[x]
    ensures PaidInv(t)
  {
    forall x | x in t.procs ensures PaysOnce(t, x) {
      if x != p {
        assert PaysOnce(s, x);
        assert t.procs[x] == s.procs[x];
        assert x in t.hist.paid <==> x in t.hist.paid - {p};
        assert x in s.hist.paid <==> x in s.hist.paid - {p};
        assert x in t.hist.wrote <==> x in t.hist.wrote.Keys - {p};
        assert x in s.hist.wrote <==> x in s.hist.wrote.Keys - {p};
      }
    }
    forall x | x in t.hist.paid || x in t.hist.wrote ensures x in t.procs.Keys {
      if x != p { assert x in t.hist.paid - {p} || x in t.hist.wrote.Keys - {p}; }
    }
  }

  /** Clocks and creations only accumulate, so the evidence of a late sweep stays. */
  lemma SweepInvFrame(s: State, t: State)
    requires SweepInv(s) && t.hist.sweptKeys == s.hist.sweptKeys
    requires forall x :: x in s.procs ==> x in t.procs && t.procs[x].req == s.procs[x].req
    requires forall r :: r in s.hist.created ==> r in t.hist.created && t.hist.created[r] == s.hist.created[r]
    ensures SweepInv(t)
  {
    forall k | k in t.hist.sweptKeys ensures WasSweptLate(t, k) { WasSweptLateFrame(s, t, k); }
  }

  lemma WasSweptLateFrame(s: State, t: State, k: Key)
    requires SweepInv(s) && k in s.hist.sweptKeys
    requires forall x :: x in s.procs ==> x in t.procs && t.procs[x].req == s.procs[x].req
    requires forall r :: r in s.hist.created ==> r in t.hist.created && t.hist.created[r] == s.hist.created[r]
    ensures WasSweptLate(t, k)
  {
    assert WasSweptLate(s, k);
    var p, r :| SweptLate(s, k, p, r);
    assert t.hist.created[r] == s.hist.created[r];
    assert t.procs[p].req == s.procs[p].req;
    assert t.procs[s.hist.created[r].pid].req == s.procs[s.hist.created[r].pid].req;
    assert SweptLate(t, k, p, r);
  }

  /** A step that moves or admits one process and touches neither tables nor history. */
  lemma ProcessKeepsInv(s: State, p: Pid, me: Process)
    requires Inv(s)
    requires p in s.procs ==> s.procs[p].req == me.req && !s.procs[p].pc.Replied?
    requires p in s.procs && p in s.hist.paid ==> s.procs[p].cap == me.cap
    requires var t := s.(procs := s.procs[p := me]); ReplyIsTrue(t, p) && PaysOnce(t, p)
    ensures Inv(s.(procs := s.procs[p := me]))
  {
    var t := s.(procs := s.procs[p := me]);
    TablesFrame(s, t);
    RepliesFrame(s, t, p);
    PaidFrame(s, t, p);
    ReportFrame(s, t);
    QuotaFrame(s, t);
    SweepInvFrame(s, t);
  }

  lemma GotoKeepsInv(s: State, p: Pid, pc: Pc)
    requires Inv(s) && p in s.procs && !s.procs[p].pc.Replied? && AttemptInLadder(pc)
    requires PastQuota(pc) ==> PastQuota(s.procs[p].pc)
    requires PastQuota(s.procs[p].pc) ==> PastQuota(pc) || pc.Replied?
    requires ReplyIsTrue(Goto(s, p, pc), p)
    ensures Inv(Goto(s, p, pc))
  {
    assert PaysOnce(s, p);
    ProcessKeepsInv(s, p, s.procs[p].(pc := pc));
  }

  lemma ArriveKeepsInv(s: State, p: Pid, req: Request)
    requires Inv(s) && p !in s.procs
    ensures Inv(s.(procs := s.procs[p := Process(req, 0, Start)]))
  {
    NotYetWriting(s, p);
    ProcessKeepsInv(s, p, Process(req, 0, Start));
  }

  lemma NotYetWriting(s: State, p: Pid)
    requires Inv(s) && p !in s.procs
    ensures p !in s.hist.paid && p !in s.hist.wrote
  {
  }

  lemma LoadKeepsInv(s: State, p: Pid, ctx: Context)
    requires Inv(s) && Enabled(s, Load(p, ctx))
    ensures Inv(Apply(s, Load(p, ctx)))
  {
    var key := s.procs[p].req.key;
    assert PaysOnce(s, p);
    assert key in s.db.idemp ==> RowPointsHome(s, key);
    ProcessKeepsInv(s, p, Apply(s, Load(p, ctx)).procs[p]);
  }

  /** The quota statement commits: one payer more and one unit more, on the same day. */
  lemma TakeUnitKeepsInv(s: State, p: Pid, acked: bool)
    requires Inv(s) && MayTake(s, p)
    ensures Inv(TakeUnit(s, p, acked))
  {
    assert PaysOnce(s, p);
    var t := TakeUnit(s, p, acked);
    TablesFrame(s, t);
    RepliesFrame(s, t, p);
    PaidFrame(s, t, p);
    ReportFrame(s, t);
    TakeUnitKeepsLedger(s, p, acked);
    TakeUnitKeepsCap(s, p, acked);
    SweepInvFrame(s, t);
  }

  lemma TakeUnitKeepsLedger(s: State, p: Pid, acked: bool)
    requires QuotaLedger(s) && MayTake(s, p) && p !in s.hist.paid
    ensures QuotaLedger(TakeUnit(s, p, acked))
  {
    var t := TakeUnit(s, p, acked);
    forall q ensures DayBalanced(t, q) {
      assert DayBalanced(s, q);
      TakeUnitAddsPayer(s, p, acked, q);
    }
  }

  lemma TakeUnitAddsPayer(s: State, p: Pid, acked: bool, q: QuotaKey)
    requires MayTake(s, p) && p !in s.hist.paid
    ensures p !in PaidOn(s, q)
    ensures PaidOn(TakeUnit(s, p, acked), q) == PaidOn(s, q) + (if q == QuotaKeyOf(s.procs[p].req) then {p} else {})
  {
  }

  lemma TakeUnitKeepsCap(s: State, p: Pid, acked: bool)
    requires CapInv(s) && MayTake(s, p) && p !in s.hist.paid
    ensures CapInv(TakeUnit(s, p, acked))
  {
    var t := TakeUnit(s, p, acked);
    var mine := QuotaKeyOf(s.procs[p].req);
    assert CapWitness(t, mine, p);
    forall q | q in t.db.quota && q != mine ensures HasCapWitness(t, q) { CapWitnessFrame(s, t, q); }
  }

  /** Step 6 commits: one report more, its row with it, and a creator that has answered. */
  lemma WriteReportKeepsInv(s: State, p: Pid, acked: bool)
    requires Inv(s) && MayWrite(s, p)
    ensures Inv(WriteReport(s, p, acked))
  {
    assert PaysOnce(s, p);
    var t := WriteReport(s, p, acked);
    WriteReportKeepsTables(s, p, acked);
    RepliesFrame(s, t, p);
    PaidFrame(s, t, p);
    WriteReportKeepsLedger(s, p, acked);
    QuotaFrame(s, t);
    SweepInvFrame(s, t);
  }

  lemma WriteReportKeepsTables(s: State, p: Pid, acked: bool)
    requires TablesInv(s) && MayWrite(s, p) && p in s.hist.paid && p !in s.hist.wrote
    ensures TablesInv(WriteReport(s, p, acked))
  {
    var t := WriteReport(s, p, acked);
    forall r | r in t.hist.created ensures CreatorIn(t, r) {
      if r in s.hist.created { assert CreatorIn(s, r); }
    }
    forall k | k in t.db.idemp ensures RowPointsHome(t, k) {
      if k != s.procs[p].req.key {
        assert RowPointsHome(s, k);
        assert CreatorIn(s, s.db.idemp[k].reportId);
      }
    }
  }

  lemma WriteReportKeepsLedger(s: State, p: Pid, acked: bool)
    requires ReportLedger(s) && MayWrite(s, p) && s.hist.created.Keys == s.db.reports.Keys
    ensures ReportLedger(WriteReport(s, p, acked))
  {
    var t := WriteReport(s, p, acked);
    forall k ensures PairBalanced(t, k) {
      assert PairBalanced(s, k);
      WriteReportAddsOne(s, p, acked, k);
    }
  }

  lemma WriteReportAddsOne(s: State, p: Pid, acked: bool, k: Key)
    requires MayWrite(s, p) && s.hist.created.Keys == s.db.reports.Keys
    ensures |ReportsOf(WriteReport(s, p, acked), k)| == |ReportsOf(s, k)| + (if k == s.procs[p].req.key then 1 else 0)
  {
    var me := s.procs[p];
    assert me.pc.id !in s.hist.created.Keys;
    CreatedForGrows(s.hist.created, me.pc.id, Creation(me.req.key, me.req.day, p), k);
  }

  lemma CreatedForGrows(created: map<ReportId, Creation>, id: ReportId, c: Creation, k: Key)
    requires id !in created
    ensures |CreatedFor(created[id := c], k)| == |CreatedFor(created, k)| + (if k == c.key then 1 else 0)
  {
    assert id !in CreatedFor(created, k);
    assert CreatedFor(created[id := c], k) == CreatedFor(created, k) + (if k == c.key then {id} else {});
  }

  lemma SweepQuotaKeepsInv(s: State, row: QuotaKey)
    requires Inv(s) && row in s.db.quota
    ensures Inv(ApplySweepQuota(s, row))
  {
    var t := ApplySweepQuota(s, row);
    TablesFrame(s, t);
    UnmovedKeepsReplies(s, t);
    ReportFrame(s, t);
    SweepInvFrame(s, t);
    forall q ensures DayBalanced(t, q) {
      assert DayBalanced(s, q);
      assert PaidOn(t, q) == PaidOn(s, q);
    }
    forall q | q in t.db.quota ensures HasCapWitness(t, q) { CapWitnessFrame(s, t, q); }
  }

  lemma UnmovedKeepsReplies(s: State, t: State)
    requires RepliesInv(s) && PaidInv(s)
    requires t.procs == s.procs && t.hist.created == s.hist.created && t.hist.paid == s.hist.paid && t.hist.wrote == s.hist.wrote
    ensures RepliesInv(t) && PaidInv(t)
  {
    forall x | x in t.procs ensures ReplyIsTrue(t, x) && PaysOnce(t, x) {
      assert ReplyIsTrue(s, x) && PaysOnce(s, x);
    }
  }

  lemma SweepIdempKeepsInv(s: State, p: Pid, key: Key)
    requires Inv(s) && MaySweepIdemp(s, p, key)
    ensures Inv(ApplySweepIdemp(s, key))
  {
    var t := ApplySweepIdemp(s, key);
    TablesFrame(s, t);
    UnmovedKeepsReplies(s, t);
    QuotaFrame(s, t);
    forall k ensures PairBalanced(t, k) {
      assert PairBalanced(s, k);
      assert ReportsOf(t, k) == ReportsOf(s, k);
    }
    SweepIdempIsLate(s, p, key);
  }

  lemma SweepIdempIsLate(s: State, p: Pid, key: Key)
    requires TablesInv(s) && SweepInv(s) && MaySweepIdemp(s, p, key)
    ensures SweepInv(ApplySweepIdemp(s, key))
  {
    var t := ApplySweepIdemp(s, key);
    assert RowPointsHome(s, key);
    assert SweptLate(t, key, p, s.db.idemp[key].reportId);
    forall k | k in t.hist.sweptKeys && k != key ensures WasSweptLate(t, k) { WasSweptLateFrame(s, t, k); }
  }

  lemma StepKeepsInv(s: State, step: Step)
    requires Inv(s) && Enabled(s, step)
    ensures Inv(Apply(s, step))
  {
    match step
    case Arrive(p, req) => ArriveKeepsInv(s, p, req);
    case Load(p, ctx) => LoadKeepsInv(s, p, ctx);
    case CommitQuota(p, acked) =>
      if QuotaRefused(s.procs[p]) { AnswerKeepsInv(s, p, if acked then QuotaExceeded else Internal); }
      else { TakeUnitKeepsInv(s, p, acked); }
    case SweepQuota(_, row) => SweepQuotaKeepsInv(s, row);
    case SweepIdemp(p, key) => SweepIdempKeepsInv(s, p, key);
    case CommitReport(p, acked) => WriteReportKeepsInv(s, p, acked);
    case Lookup(p) => LookupKeepsInv(s, p);
    case Fail(p) => AnswerKeepsInv(s, p, Internal);
    case _ => MoveKeepsInv(s, step);
  }

  lemma AnswerKeepsInv(s: State, p: Pid, reply: Reply)
    requires Inv(s) && p in s.procs && !s.procs[p].pc.Replied? && !reply.Created? && !reply.Replayed?
    ensures Inv(Goto(s, p, Replied(reply)))
  {
    GotoKeepsInv(s, p, Replied(reply));
  }

  lemma LookupKeepsInv(s: State, p: Pid)
    requires Inv(s) && Enabled(s, Lookup(p))
    ensures Inv(Apply(s, Lookup(p)))
  {
    var key := s.procs[p].req.key;
    assert key in s.db.idemp ==> RowPointsHome(s, key);
    GotoKeepsInv(s, p, Replied(if key in s.db.idemp then Replayed(s.db.idemp[key].reportId) else Internal));
  }

  /** The steps that open a transaction, mint an id, or go round the ladder. */
  lemma MoveKeepsInv(s: State, step: Step)
    requires Inv(s) && Enabled(s, step)
    requires step.BeginQuota? || step.Mint? || step.BeginReport? || step.DuplicateReport? || step.Conflict?
    ensures Inv(Apply(s, step))
  {
    assert PaysOnce(s, step.p);
    var t := Apply(s, step);
    assert t == Goto(s, step.p, t.procs[step.p].pc);
    GotoKeepsInv(s, step.p, t.procs[step.p].pc);
  }

  lemma InitInv()
    ensures Inv(INIT)
  {
    forall k ensures PairBalanced(INIT, k) { assert ReportsOf(INIT, k) == {}; }
    forall q ensures DayBalanced(INIT, q) { assert PaidOn(INIT, q) == {}; }
  }

  /** Every state of every schedule satisfies every invariant above. */
  lemma {:induction false} ReachableInv(steps: seq<Step>)
    requires Exec(steps).Some?
    ensures Inv(Exec(steps).value)
  {
    if steps == [] {
      InitInv();
    } else {
      ReachableInv(steps[..|steps| - 1]);
      StepKeepsInv(Exec(steps[..|steps| - 1]).value, steps[|steps| - 1]);
    }
  }
}
