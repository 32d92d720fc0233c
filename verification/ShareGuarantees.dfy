/** What every run of the share service guarantees publishers and readers. */
module ShareGuarantees {
  import opened Prelude
  import opened ShareHistory
  import opened ShareStore
  import CardMap
  import PageHistory

  /**
   * In every reachable state and at every later instant until the next request: the share is there up to its
   * reported expiry and no longer, its card is there exactly as long when it has one, and so is its history
   * when it was ever re-published. Where there is no share, there is no card and no history.
   */
  lemma RowsExpireTogether(world: World, start: int, steps: seq<Step>, id: string, later: int)
    requires ReAccepts(world) && Exec(world, start, steps).Some? && Exec(world, start, steps).value.now <= later
    ensures var s := Exec(world, start, steps).value; var cell := CellOf(s, id); var live := Live(cell.share, s.now);
      && (Live(cell.share, later).Some? <==> live.Some? && later < ExpiresAt(live.value))
      && (Live(cell.card, later).Some? <==> Live(cell.share, later).Some? && live.value.hasCard)
      && (Live(cell.hist, later).Some? <==> Live(cell.share, later).Some? && ReplacedOf(s, id) != [])
  {
    var s := Exec(world, start, steps).value;
    EveryShareFits(world, start, steps, id);
    TimePasses(world, CellOf(s, id), s.now, later, PastOf(s, id));
  }

  /**
   * A view at time t leaves the share between 150 and 180 days: the full 180 exactly when it refreshed, or when
   * something else wrote the share at that very instant.
   */
  lemma ViewLeaves150To180Days(world: World, cell: Cell, now: int, request: Request, before: Past)
    requires Fits(world, cell, now, before) && Live(cell.share, now).Some?
    requires request.ReadProfile? || request.ReadPage?
    ensures var after := Handle(world, cell, now, request).0; var record := Live(cell.share, now).value;
      && Live(after.share, now).Some?
      && now + 150 * DAY_MS <= after.share.value.until <= now + 180 * DAY_MS
      && (after.share.value.until == now + 180 * DAY_MS
          <==> now - record.lastSeenAt > 30 * DAY_MS || record.lastSeenAt == now)
  {
    TouchFits(world, cell, now, before);
  }

  /** So the documented 180 days from the last read do not hold: a view thirty days in changes nothing. */
  lemma ViewOnDayThirtyLeaves150(world: World, envelope: Json, created: int)
    ensures var record := ShareRecord(envelope, created, created, created, "", false, []);
      var cell := Cell(Stored(record, created), None, None); var read := created + 30 * DAY_MS;
      && Handle(world, cell, read, ReadProfile).0 == cell
      && Live(cell.share, read + 150 * DAY_MS).None?
  {
  }

  /**
   * Without the hypothesis that a stored envelope is accepted again: after an update the history expires with
   * its share exactly when the replaced envelope was still accepted, there was no history, or the old expiry
   * was the new one.
   */
  lemma UpdateKeepsHistoryInStepIff(world: World, cell: Cell, now: int, body: Body)
    requires Live(cell.share, now).Some? && ClockFits(cell, now, Live(cell.share, now).value)
    ensures var record := ReadRecord(cell.share, now).value; var after := UpdateCell(world, cell, now, record, body);
      (Live(after.hist, now).Some? ==> after.hist.value.until == after.share.value.until) <==>
        world.accept(record.envelope).Some? || Live(cell.hist, now).None? || record.lastSeenAt == now
  {
  }

  // ------------------------------------------------------------------------------------ what a run can do to a share

  /** The state a further run leads to. */
  function ExecFrom(world: World, s: State, steps: seq<Step>): Option<State>
    decreases |steps|
  {
    if steps == [] then Some(s)
    else if Enabled(s, steps[0]) then ExecFrom(world, Apply(world, s, steps[0]), steps[1..])
    else None
  }

  predicate CreatesAgain(step: Step, id: string) {
    step.Ask? && step.id == id && step.request.Create?
  }

  /** The step asks for a change of the share with a token that opens it. */
  predicate UsesTheToken(world: World, step: Step, id: string, tokenHash: string) {
    && step.Ask? && step.id == id && (step.request.Update? || step.request.Remove?)
    && step.request.bearer.Some? && world.digest(step.request.bearer.value) == tokenHash
  }

  predicate UpdatesWithToken(world: World, step: Step, id: string, tokenHash: string) {
    UsesTheToken(world, step, id, tokenHash) && step.request.Update?
  }

  /** The share's record but for the last-seen stamp, as readers get it. */
  predicate SameShare(row: ShareRecord, record: ShareRecord) {
    row.(lastSeenAt := record.lastSeenAt, cardMap := CardMap.ReadMap(row.cardMap)) == record && record.lastSeenAt <= row.lastSeenAt
  }

  /** One step leaves the share as it is, or takes it down because it expired or somebody had the token. */
  predicate Kept(world: World, s: State, id: string, record: ShareRecord) {
    && ShareFits(world, s, id)
    && (Live(CellOf(s, id).share, s.now).Some? ==> SameShare(Live(CellOf(s, id).share, s.now).value, record))
  }

  lemma SameShareAgain(row: ShareRecord, record: ShareRecord, spots: seq<CardMap.Hotspot>)
    requires SameShare(row, record) && MapFits(row, spots)
    ensures SameShare(row.(cardMap := CardMap.ReadMap(row.cardMap)), record)
  {
    ReadAgain(row, spots);
    CardMap.ReadMapSettles(spots);
  }

  lemma TouchKeepsShare(cell: Cell, now: int, row: ShareRecord, record: ShareRecord, spots: seq<CardMap.Hotspot>)
    requires cell.share.Some? && cell.share.value.value == row && row.lastSeenAt <= now
    requires SameShare(row, record) && MapFits(row, spots)
    ensures var after := TouchCell(cell, now, row.(cardMap := CardMap.ReadMap(row.cardMap))).share;
      after.Some? && SameShare(after.value.value, record) && after.value.until >= Min(cell.share.value.until, now + SHARE_TTL_MS)
  {
    SameShareAgain(row, record, spots);
  }

  /** What a request that re-publishes nothing does to the record of a live share. */
  lemma HandleKeepsShare(world: World, cell: Cell, now: int, request: Request, past: Past, record: ShareRecord)
    requires Fits(world, cell, now, past) && Live(cell.share, now).Some? && SameShare(Live(cell.share, now).value, record)
    requires !request.Create?
    requires request.Update? && request.bearer.Some? ==> world.digest(request.bearer.value) != record.tokenHash
    ensures var after := Live(Handle(world, cell, now, request).0.share, now);
      && (after.Some? ==> SameShare(after.value, record))
      && (after.None? ==> request.Remove? && request.bearer.Some? && world.digest(request.bearer.value) == record.tokenHash)
  {
    if request.Update? {
      UpdateOutcome(world, cell, now, request);
    } else if request.Remove? {
      RemovalOutcome(world, cell, now, request);
    } else {
      ReadOutcome(world, cell, now, request);
      TouchKeepsShare(cell, now, Live(cell.share, now).value, record, SpotsOf(world, past.last.value.card));
    }
  }

  lemma StepKeepsShare(world: World, s: State, step: Step, id: string, record: ShareRecord)
    requires ReAccepts(world) && Enabled(s, step) && Kept(world, s, id, record)
    requires !CreatesAgain(step, id) && !UpdatesWithToken(world, step, id, record.tokenHash)
    ensures Kept(world, Apply(world, s, step), id, record)
    ensures var was := Live(CellOf(s, id).share, s.now); var t := Apply(world, s, step);
      && t.now >= s.now
      && (was.Some? && !UsesTheToken(world, step, id, record.tokenHash) && t.now < ExpiresAt(record) ==>
            Live(CellOf(t, id).share, t.now).Some?)
  {
    StepKeepsFits(world, s, step, id);
    if step.Ask? && step.id == id {
      AskKeepsShare(world, s, step.request, id, record);
    } else {
      assert CellOf(Apply(world, s, step), id) == CellOf(s, id);
    }
  }

  lemma AskKeepsShare(world: World, s: State, request: Request, id: string, record: ShareRecord)
    requires ShareFits(world, s, id) && !request.Create?
    requires Live(CellOf(s, id).share, s.now).Some? ==> SameShare(Live(CellOf(s, id).share, s.now).value, record)
    requires request.Update? && request.bearer.Some? ==> world.digest(request.bearer.value) != record.tokenHash
    ensures var was := Live(CellOf(s, id).share, s.now); var after := Live(Handle(world, CellOf(s, id), s.now, request).0.share, s.now);
      && (after.Some? ==> was.Some? && SameShare(after.value, record))
      && (was.Some? && after.None? ==> request.Remove? && request.bearer.Some? && world.digest(request.bearer.value) == record.tokenHash)
  {
    var cell := CellOf(s, id);
    if Live(cell.share, s.now).Some? {
      HandleKeepsShare(world, cell, s.now, request, PastOf(s, id), record);
    } else {
      NothingComesBack(world, cell, s.now, request);
    }
  }

  lemma NothingComesBack(world: World, cell: Cell, now: int, request: Request)
    requires Live(cell.share, now).None? && !request.Create?
    ensures Handle(world, cell, now, request).0 == cell
  {
  }

  predicate Strangers(world: World, steps: seq<Step>, id: string, tokenHash: string) {
    forall i :: 0 <= i < |steps| ==> !CreatesAgain(steps[i], id) && !UsesTheToken(world, steps[i], id, tokenHash)
  }

  predicate NobodyRepublishes(world: World, steps: seq<Step>, id: string, tokenHash: string) {
    forall i :: 0 <= i < |steps| ==> !CreatesAgain(steps[i], id) && !UpdatesWithToken(world, steps[i], id, tokenHash)
  }

  lemma {:induction false} RunKeepsShare(world: World, s: State, steps: seq<Step>, id: string, record: ShareRecord)
    requires ReAccepts(world) && Kept(world, s, id, record) && ExecFrom(world, s, steps).Some?
    requires NobodyRepublishes(world, steps, id, record.tokenHash)
    ensures var t := ExecFrom(world, s, steps).value;
      && Kept(world, t, id, record) && t.now >= s.now
      && ((Live(CellOf(s, id).share, s.now).Some? && Strangers(world, steps, id, record.tokenHash) && t.now < ExpiresAt(record))
          ==> Live(CellOf(t, id).share, t.now).Some?)
    decreases |steps|
  {
    if steps != [] {
      StepKeepsShare(world, s, steps[0], id, record);
      assert NobodyRepublishes(world, steps[1..], id, record.tokenHash);
      assert Strangers(world, steps, id, record.tokenHash) ==> Strangers(world, steps[1..], id, record.tokenHash);
      RunKeepsShare(world, Apply(world, s, steps[0]), steps[1..], id, record);
    }
  }

  /**
   * Whatever the world does to a live share without a re-publication under its token: as long as it is there it has
   * the token, the creation, the envelope, the card flag and the hotspots it had, and only its last-seen stamp moves.
   */
  lemma OnlyUpdatesChangeTheShare(world: World, start: int, steps: seq<Step>, id: string, more: seq<Step>)
    requires ReAccepts(world) && Exec(world, start, steps).Some?
    requires var s := Exec(world, start, steps).value;
      && ReadRecord(CellOf(s, id).share, s.now).Some? && ExecFrom(world, s, more).Some?
      && NobodyRepublishes(world, more, id, ReadRecord(CellOf(s, id).share, s.now).value.tokenHash)
    ensures var s := Exec(world, start, steps).value; var t := ExecFrom(world, s, more).value;
      var record := ReadRecord(CellOf(s, id).share, s.now).value; var later := ReadRecord(CellOf(t, id).share, t.now);
      later.Some? ==> later.value == record.(lastSeenAt := later.value.lastSeenAt)
  {
    EveryShareFits(world, start, steps, id);
    var s := Exec(world, start, steps).value;
    RunKeepsShare(world, s, more, id, ReadRecord(CellOf(s, id).share, s.now).value);
  }

  /** Without the token nobody takes a share down: it is there at least until the expiry it had. */
  lemma OnlyTheTokenRemoves(world: World, start: int, steps: seq<Step>, id: string, more: seq<Step>)
    requires ReAccepts(world) && Exec(world, start, steps).Some?
    requires var s := Exec(world, start, steps).value;
      && ReadRecord(CellOf(s, id).share, s.now).Some? && ExecFrom(world, s, more).Some?
      && Strangers(world, more, id, ReadRecord(CellOf(s, id).share, s.now).value.tokenHash)
    ensures var s := Exec(world, start, steps).value; var t := ExecFrom(world, s, more).value;
      t.now < ExpiresAt(ReadRecord(CellOf(s, id).share, s.now).value) ==> ReadRecord(CellOf(t, id).share, t.now).Some?
  {
    EveryShareFits(world, start, steps, id);
    var s := Exec(world, start, steps).value;
    RunKeepsShare(world, s, more, id, ReadRecord(CellOf(s, id).share, s.now).value);
  }

  predicate NothingLeft(s: State, id: string) {
    var cell := CellOf(s, id);
    Live(cell.share, s.now).None? && Live(cell.card, s.now).None? && Live(cell.hist, s.now).None?
  }

  predicate NeverAgain(steps: seq<Step>, id: string) {
    forall i :: 0 <= i < |steps| ==> !CreatesAgain(steps[i], id)
  }

  lemma {:induction false} GoneStaysGone(world: World, s: State, steps: seq<Step>, id: string)
    requires NothingLeft(s, id) && ExecFrom(world, s, steps).Some? && NeverAgain(steps, id)
    ensures NothingLeft(ExecFrom(world, s, steps).value, id)
    decreases |steps|
  {
    if steps != [] {
      assert NothingLeft(Apply(world, s, steps[0]), id);
      assert NeverAgain(steps[1..], id);
      GoneStaysGone(world, Apply(world, s, steps[0]), steps[1..], id);
    }
  }

  /** The right token takes all three rows, in whatever state; no request then finds anything unless the id is created again. */
  lemma RemovedIsGone(world: World, s: State, id: string, bearer: Option<string>, more: seq<Step>, request: Request)
    requires Handle(world, CellOf(s, id), s.now, Remove(bearer)).1.Removed?
    requires ExecFrom(world, s, [Ask(id, Remove(bearer))] + more).Some? && NeverAgain(more, id) && !request.Create?
    ensures var t := ExecFrom(world, s, [Ask(id, Remove(bearer))] + more).value;
      && NothingLeft(t, id)
      && Handle(world, CellOf(t, id), t.now, request) == (CellOf(t, id), NotFound)
  {
    assert ([Ask(id, Remove(bearer))] + more)[1..] == more;
    GoneStaysGone(world, Apply(world, s, Ask(id, Remove(bearer))), more, id);
  }

  predicate NobodyAsks(steps: seq<Step>, id: string) {
    forall i :: 0 <= i < |steps| ==> !(steps[i].Ask? && steps[i].id == id)
  }

  lemma {:induction false} LeftAlone(world: World, s: State, steps: seq<Step>, id: string)
    requires NobodyAsks(steps, id) && ExecFrom(world, s, steps).Some?
    ensures CellOf(ExecFrom(world, s, steps).value, id) == CellOf(s, id) && ExecFrom(world, s, steps).value.now >= s.now
    decreases |steps|
  {
    if steps != [] {
      assert NobodyAsks(steps[1..], id);
      LeftAlone(world, Apply(world, s, steps[0]), steps[1..], id);
    }
  }

  /** The expiry that is reported is that of the row, which is there. */
  lemma ReportIsTheExpiry(world: World, cell: Cell, now: int, request: Request, before: Past)
    requires ReAccepts(world) && Fits(world, cell, now, before) && (request.Create? ==> Live(cell.share, now).None?)
    ensures var (after, reply) := Handle(world, cell, now, request);
      reply.Created? || reply.Updated? || reply.ProfileReply? ==>
        Live(after.share, now).Some? && after.share.value.until == reply.expiresAt
  {
    HandleKeepsFits(world, cell, now, request, before);
  }

  /** The expiry a reply reports: in every run in which nobody asks for the share again, it is there exactly until then. */
  lemma ReportedExpiryIsReal(world: World, start: int, steps: seq<Step>, id: string, request: Request, more: seq<Step>)
    requires ReAccepts(world) && Exec(world, start, steps).Some? && NobodyAsks(more, id)
    requires var s := Exec(world, start, steps).value;
      && Enabled(s, Ask(id, request)) && ExecFrom(world, s, [Ask(id, request)] + more).Some?
    ensures var s := Exec(world, start, steps).value; var reply := Handle(world, CellOf(s, id), s.now, request).1;
      var t := ExecFrom(world, s, [Ask(id, request)] + more).value;
      reply.Created? || reply.Updated? || reply.ProfileReply? ==>
        (Live(CellOf(t, id).share, t.now).Some? <==> t.now < reply.expiresAt)
  {
    var s := Exec(world, start, steps).value;
    EveryShareFits(world, start, steps, id);
    ReportIsTheExpiry(world, CellOf(s, id), s.now, request, PastOf(s, id));
    assert ([Ask(id, request)] + more)[1..] == more;
    LeftAlone(world, Apply(world, s, Ask(id, request)), more, id);
  }

  /** In every run anything may be asked next, except that a share still served is not created again. */
  lemma PossibleIff(world: World, start: int, steps: seq<Step>, step: Step)
    requires Exec(world, start, steps).Some?
    ensures var s := Exec(world, start, steps).value;
      Exec(world, start, steps + [step]).Some? <==>
        !(step.Ask? && step.request.Create? && Live(CellOf(s, step.id).share, s.now).Some?)
  {
    assert (steps + [step])[..|steps|] == steps;
  }

  function Elapsed(steps: seq<Step>): nat {
    if steps == [] then 0 else (match steps[0] case Tick(ms) => ms case Ask(_, _) => 0) + Elapsed(steps[1..])
  }

  lemma {:induction false} TimeGoesOn(world: World, s: State, steps: seq<Step>)
    requires ExecFrom(world, s, steps).Some?
    ensures ExecFrom(world, s, steps).value.now == s.now + Elapsed(steps)
    decreases |steps|
  {
    if steps != [] { TimeGoesOn(world, Apply(world, s, steps[0]), steps[1..]); }
  }

  /** In every run a share that nobody asks for after its publication is there for exactly 180 days. */
  lemma PublishedFor180Days(world: World, start: int, steps: seq<Step>, id: string, request: Request, more: seq<Step>)
    requires ReAccepts(world) && Exec(world, start, steps).Some? && NobodyAsks(more, id)
    requires var s := Exec(world, start, steps).value;
      && Enabled(s, Ask(id, request)) && ExecFrom(world, s, [Ask(id, request)] + more).Some?
    ensures var s := Exec(world, start, steps).value; var reply := Handle(world, CellOf(s, id), s.now, request).1;
      var t := ExecFrom(world, s, [Ask(id, request)] + more).value;
      reply.Created? || reply.Updated? ==> (Live(CellOf(t, id).share, t.now).Some? <==> Elapsed(more) < 180 * 24 * 60 * 60 * 1000)
  {
    var s := Exec(world, start, steps).value;
    ReportedExpiryIsReal(world, start, steps, id, request, more);
    assert ([Ask(id, request)] + more)[1..] == more;
    TimeGoesOn(world, Apply(world, s, Ask(id, request)), more);
  }

  /** The same run without its requests for card images. */
  function WithoutCardReads(steps: seq<Step>): seq<Step> {
    if steps == [] then []
    else
      var last := steps[|steps| - 1];
      WithoutCardReads(steps[..|steps| - 1]) + (if last.Ask? && last.request.ReadCard? then [] else [last])
  }

  ghost predicate SameShares(s: State, t: State) {
    s.now == t.now && forall id {:trigger CellOf(s, id)} :: CellOf(s, id) == CellOf(t, id) && PastOf(s, id) == PastOf(t, id)
  }

  lemma SameStep(world: World, s: State, t: State, step: Step)
    requires SameShares(s, t) && Enabled(s, step)
    ensures Enabled(t, step) && SameShares(Apply(world, s, step), Apply(world, t, step))
  {
    if step.Ask? { assert CellOf(s, step.id) == CellOf(t, step.id); }
    var a, b := Apply(world, s, step), Apply(world, t, step);
    forall id ensures CellOf(a, id) == CellOf(b, id) && PastOf(a, id) == PastOf(b, id) {
      assert CellOf(s, id) == CellOf(t, id);
    }
  }

  lemma CardReadIsNoStep(world: World, s: State, t: State, id: string)
    requires SameShares(s, t)
    ensures SameShares(Apply(world, s, Ask(id, ReadCard)), t)
  {
    var a := Apply(world, s, Ask(id, ReadCard));
    forall other ensures CellOf(a, other) == CellOf(t, other) && PastOf(a, other) == PastOf(t, other) {
      assert CellOf(s, other) == CellOf(t, other);
    }
  }

  lemma ExecStep(world: World, start: int, steps: seq<Step>, step: Step)
    requires Exec(world, start, steps).Some? && Enabled(Exec(world, start, steps).value, step)
    ensures Exec(world, start, steps + [step]) == Some(Apply(world, Exec(world, start, steps).value, step))
  {
    assert (steps + [step])[..|steps|] == steps;
  }

  /** Fetching card images, however often and of whatever shares, keeps nothing alive and changes nothing. */
  lemma {:induction false} CardReadsAreInvisible(world: World, start: int, steps: seq<Step>)
    requires Exec(world, start, steps).Some?
    ensures Exec(world, start, WithoutCardReads(steps)).Some?
    ensures SameShares(Exec(world, start, steps).value, Exec(world, start, WithoutCardReads(steps)).value)
  {
    if steps != [] {
      var n := |steps| - 1;
      var last := steps[n];
      CardReadsAreInvisible(world, start, steps[..n]);
      var s := Exec(world, start, steps[..n]).value;
      var fewer := WithoutCardReads(steps[..n]);
      var t := Exec(world, start, fewer).value;
      if last.Ask? && last.request.ReadCard? {
        CardReadIsNoStep(world, s, t, last.id);
        assert WithoutCardReads(steps) == fewer;
      } else {
        SameStep(world, s, t, last);
        ExecStep(world, start, fewer, last);
        assert WithoutCardReads(steps) == fewer + [last];
      }
    }
  }

  // ------------------------------------------------------------------------------------ what readers are shown

  /** What is answered to a request, given whether the share is there and what was last published under its id. */
  predicate AnswersFor(world: World, request: Request, reply: Reply, live: bool, last: Option<Publication>)
    requires live ==> last.Some?
  {
    match request
    case Create(upload, _) => if Acceptable(world, upload) then reply.Created? else reply == Refused
    case Update(bearer, upload) =>
      if !live then reply == NotFound
      else if !HasToken(world, bearer, last.value) then reply == Unauthorized
      else if Acceptable(world, upload) then reply.Updated?
      else reply == Refused
    case Remove(bearer) =>
      if !live then reply == NotFound
      else if !HasToken(world, bearer, last.value) then reply == Unauthorized
      else reply == Removed
    case ReadProfile => if live then reply.ProfileReply? else reply == NotFound
    case ReadPage => if live then reply.PageReply? else reply == NotFound
    case ReadCard => reply == if live && last.value.card.Some? then CardReply(last.value.card.value.card) else NotFound
  }

  predicate Acceptable(world: World, upload: Upload) {
    upload.Upload? && world.accept(upload.raw).Some?
  }

  /** The bearer's digest is that of the token the share was created with. */
  predicate HasToken(world: World, bearer: Option<string>, p: Publication) {
    bearer.Some? && world.digest(bearer.value) == world.digest(p.token)
  }

  /**
   * In every run each request is answered as what was last published demands: 404 without a share, 401 without the
   * token of the creation, a refusal of what is not accepted, else success; and the card fetched is the last one brought.
   */
  lemma RepliesAreExact(world: World, start: int, steps: seq<Step>, id: string, request: Request)
    requires ReAccepts(world) && Exec(world, start, steps).Some? && Enabled(Exec(world, start, steps).value, Ask(id, request))
    ensures var s := Exec(world, start, steps).value; var cell := CellOf(s, id);
      var live := Live(cell.share, s.now).Some?;
      && (live ==> PastOf(s, id).last.Some?)
      && AnswersFor(world, request, Handle(world, cell, s.now, request).1, live, PastOf(s, id).last)
  {
    EveryShareFits(world, start, steps, id);
    var s := Exec(world, start, steps).value;
    if request.Create? || request.Update? || request.Remove? {
      WritesAreAnswered(world, CellOf(s, id), s.now, request, PastOf(s, id));
    } else {
      ReadsAreAnswered(world, CellOf(s, id), s.now, request, PastOf(s, id));
    }
  }

  lemma WritesAreAnswered(world: World, cell: Cell, now: int, request: Request, past: Past)
    requires request.Create? || request.Update? || request.Remove?
    requires Live(cell.share, now).Some? ==>
      past.last.Some? && Live(cell.share, now).value.tokenHash == world.digest(past.last.value.token)
    ensures AnswersFor(world, request, Handle(world, cell, now, request).1, Live(cell.share, now).Some?, past.last)
  {
  }

  lemma ReadsAreAnswered(world: World, cell: Cell, now: int, request: Request, past: Past)
    requires !request.Create? && !request.Update? && !request.Remove?
    requires Live(cell.share, now).Some? ==>
      past.last.Some? && world.accept(Live(cell.share, now).value.envelope).Some?
    requires Live(cell.card, now) == if Live(cell.share, now).Some? then CardOnShow(past.last.value) else None
    ensures AnswersFor(world, request, Handle(world, cell, now, request).1, Live(cell.share, now).Some?, past.last)
  {
  }

  /** A reply shows the last publication: what was accepted of it, its card flag and its instants. */
  predicate Shows(world: World, reply: Reply, p: Publication) {
    var accepted := world.accept(p.raw);
    && accepted.Some?
    && (reply.ProfileReply? ==>
      reply.envelope == accepted.value.envelope && reply.createdAt == p.createdAt && reply.updatedAt == p.updatedAt)
    && (reply.PageReply? ==>
      reply.profile == accepted.value.profile && reply.hasCard == p.card.Some? && reply.shownAt == p.updatedAt)
  }

  /**
   * In every run both views show what the validator made of the last upload that was created or re-published, when
   * the share was created and last published, and a card exactly when some publication since the creation brought one.
   */
  lemma ReadersSeeTheLastPublication(world: World, start: int, steps: seq<Step>, id: string, request: Request)
    requires ReAccepts(world) && Exec(world, start, steps).Some?
    ensures var s := Exec(world, start, steps).value; var reply := Handle(world, CellOf(s, id), s.now, request).1;
      reply.ProfileReply? || reply.PageReply? ==> PastOf(s, id).last.Some? && Shows(world, reply, PastOf(s, id).last.value)
  {
    EveryShareFits(world, start, steps, id);
  }

  /**
   * In every run both views show the hotspots that came with the last card, as they read back: those a publication
   * without a card left in place, and none without a card.
   */
  lemma ReadersSeeTheMapOfTheCard(world: World, start: int, steps: seq<Step>, id: string, request: Request)
    requires ReAccepts(world) && Exec(world, start, steps).Some?
    ensures var s := Exec(world, start, steps).value; var reply := Handle(world, CellOf(s, id), s.now, request).1;
      reply.ProfileReply? || reply.PageReply? ==>
        PastOf(s, id).last.Some? && reply.cardMap == CardMap.ReadMap(SpotsOf(world, PastOf(s, id).last.value.card))
  {
    EveryShareFits(world, start, steps, id);
    var s := Exec(world, start, steps).value;
    ViewShowsMap(world, CellOf(s, id), s.now, request);
    var live := Live(CellOf(s, id).share, s.now);
    if live.Some? { MapAsRead(world, live.value, PastOf(s, id).last.value); }
  }

  lemma ViewShowsMap(world: World, cell: Cell, now: int, request: Request)
    ensures var reply := Handle(world, cell, now, request).1; var record := ReadRecord(cell.share, now);
      && (reply.ProfileReply? ==> record.Some? && reply.cardMap == record.value.cardMap)
      && (reply.PageReply? ==> record.Some? && reply.cardMap == if record.value.hasCard then record.value.cardMap else [])
  {
  }

  lemma MapAsRead(world: World, record: ShareRecord, p: Publication)
    requires MapFits(record, SpotsOf(world, p.card)) && record.hasCard == p.card.Some?
    ensures CardMap.ReadMap(record.cardMap) == CardMap.ReadMap(SpotsOf(world, p.card))
    ensures !record.hasCard ==> CardMap.ReadMap(SpotsOf(world, p.card)) == []
  {
    ReadAgain(record, SpotsOf(world, p.card));
    CardMap.ReadMapOfNone();
  }

  /** A page and a profile show the newest thirty replaced states, newest first, each as it reads back. */
  lemma ReadersSeeTheNewestReplaced(world: World, start: int, steps: seq<Step>, id: string, request: Request)
    requires ReAccepts(world) && Exec(world, start, steps).Some?
    ensures var s := Exec(world, start, steps).value; var reply := Handle(world, CellOf(s, id), s.now, request).1;
      && (reply.ProfileReply? ==> reply.history == Newest(ReplacedOf(s, id)))
      && (reply.PageReply? ==> reply.past == Newest(ReplacedOf(s, id)))
  {
    var s := Exec(world, start, steps).value;
    EveryShareFits(world, start, steps, id);
    if Live(CellOf(s, id).share, s.now).Some? {
      TouchFits(world, CellOf(s, id), s.now, PastOf(s, id));
    }
  }

  /** The panel has a list for each shown state, and its changes lead from the oldest of them to the current one. */
  predicate PanelTells(current: Snapshot, shown: seq<Snapshot>, replaced: seq<Snapshot>, slot: string)
    requires replaced != []
  {
    var panel := PageHistory.HistoryPanel(current, shown);
    && |panel| == Min(|replaced|, 10)
    && var oldest := Clamp(replaced[|replaced| - |panel|]);
      PageHistory.Replay(panel, slot, PageHistory.Worn(oldest.items, slot).GetOr(""))
        == PageHistory.Worn(current.items, slot).GetOr("")
  }

  lemma PanelOfNewest(current: Snapshot, replaced: seq<Snapshot>, slot: string)
    requires replaced != []
    ensures PanelTells(current, Newest(replaced), replaced, slot)
  {
    NewestAt(replaced, 0);
    NewestAt(replaced, Min(|replaced|, PageHistory.HISTORY_ROWS) - 1);
    PageHistory.PanelLeadsToThePage(current, Newest(replaced), slot);
  }

  /** On every page of every run, the listed changes lead from the oldest shown state to the gear on the page. */
  lemma PageTellsTheWholeChange(world: World, start: int, steps: seq<Step>, id: string, slot: string)
    requires ReAccepts(world) && Exec(world, start, steps).Some?
    requires var s := Exec(world, start, steps).value;
      Handle(world, CellOf(s, id), s.now, ReadPage).1.PageReply? && ReplacedOf(s, id) != []
    ensures PastOf(Exec(world, start, steps).value, id).last.Some?
    ensures var s := Exec(world, start, steps).value; var reply := Handle(world, CellOf(s, id), s.now, ReadPage).1;
      var current := SnapshotOf(world, reply.profile, reply.shownAt);
      && current.items == reply.profile.cells && current == ShownState(world, PastOf(s, id).last.value)
      && PanelTells(current, reply.past, ReplacedOf(s, id), slot)
  {
    var s := Exec(world, start, steps).value;
    var reply := Handle(world, CellOf(s, id), s.now, ReadPage).1;
    ReadersSeeTheNewestReplaced(world, start, steps, id, ReadPage);
    ReadersSeeTheLastPublication(world, start, steps, id, ReadPage);
    PanelOfNewest(SnapshotOf(world, reply.profile, reply.shownAt), ReplacedOf(s, id), slot);
  }
}
