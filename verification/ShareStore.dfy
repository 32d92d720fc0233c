/**
 * A share and its clock (store.ts, handler.ts). A share is three rows of the key-value store, each with its own
 * expiry; every request names one share and reads the clock once. Requests are handled one after another.
 */
module ShareStore {
  import opened Prelude
  import opened ShareHistory
  import CardMap

  const DAY_MS: int := 24 * 60 * 60 * 1000
  const SHARE_TTL_MS: int := 180 * DAY_MS
  const VIEW_REFRESH_MS: int := 30 * DAY_MS

  type Card = seq<int>

  /** What a share page is drawn from; the display-only fields of a profile are left out. */
  datatype Profile = Profile(
    ac: real, scores: Option<Scores>, level: Option<real>, classes: seq<string>, cells: seq<Item>)

  datatype Accepted = Accepted(envelope: Json, profile: Profile)

  /** The functions this service takes from elsewhere: the shared validator, SHA-256, and Date formatting. */
  datatype World = World(accept: Json -> Option<Accepted>, digest: string -> string, iso: int -> string)

  /** The envelope as it is stored is accepted again, as itself. */
  ghost predicate ReAccepts(world: World) {
    forall raw: Json :: world.accept(raw).Some? ==> world.accept(world.accept(raw).value.envelope) == world.accept(raw)
  }

  /** An empty `cardMap` is one that is not there. */
  datatype ShareRecord = ShareRecord(
    envelope: Json, createdAt: int, updatedAt: int, lastSeenAt: int, tokenHash: string, hasCard: bool,
    cardMap: seq<CardMap.Hotspot>)

  datatype Entry<V> = Entry(value: V, until: int)

  /** The rows share:<id>, card:<id> and hist:<id>, expired or not. */
  datatype Cell = Cell(share: Option<Entry<ShareRecord>>, card: Option<Entry<Card>>, hist: Option<Entry<Json>>)

  function Live<V>(row: Option<Entry<V>>, now: int): Option<V> {
    if row.Some? && now < row.value.until then Some(row.value.value) else None
  }

  function Stored<V>(value: V, now: int): Option<Entry<V>> {
    Some(Entry(value, now + SHARE_TTL_MS))
  }

  /** The record as every handler reads it: the hotspots are sanitized again. */
  function ReadRecord(row: Option<Entry<ShareRecord>>, now: int): Option<ShareRecord> {
    match Live(row, now)
    case Some(record) => Some(record.(cardMap := CardMap.ReadMap(record.cardMap)))
    case None => None
  }

  /** The same bytes under a new TTL, if there are any. */
  function Renewed<V>(row: Option<Entry<V>>, now: int): Option<Entry<V>> {
    match Live(row, now)
    case Some(value) => Stored(value, now)
    case None => row
  }

  function ExpiresAt(record: ShareRecord): int {
    record.lastSeenAt + SHARE_TTL_MS
  }

  function SnapshotOf(world: World, profile: Profile, at: int): Snapshot {
    Snapshot(world.iso(at), profile.ac, profile.scores, profile.level, profile.classes, profile.cells)
  }

  // -------------------------------------------------------------------------------------------- the requests

  datatype Upload = Unreadable | Upload(raw: Json, card: Option<Card>, cardMap: Json)

  datatype Request =
    | Create(upload: Upload, token: string)
    | Update(bearer: Option<string>, upload: Upload)
    | Remove(bearer: Option<string>)
    | ReadProfile
    | ReadPage
    | ReadCard

  datatype Reply =
    | Refused
    | NotFound
    | Unauthorized
    | Created(expiresAt: int)
    | Updated(expiresAt: int)
    | Removed
    | ProfileReply(
        envelope: Json, cardMap: seq<CardMap.Hotspot>, history: seq<Snapshot>, createdAt: int, updatedAt: int, expiresAt: int)
    | PageReply(profile: Profile, hasCard: bool, cardMap: seq<CardMap.Hotspot>, shownAt: int, past: seq<Snapshot>)
    | CardReply(card: Card)

  /** What a create or an update carries, once it is read. */
  datatype Body = Body(accepted: Accepted, card: Option<Card>, cardMap: seq<CardMap.Hotspot>)

  /** Hotspots that come without a card are dropped; with one they have to name slots of the profile. */
  function BodyOf(world: World, upload: Upload): Option<Body> {
    if upload.Unreadable? then None
    else
      match world.accept(upload.raw)
      case None => None
      case Some(accepted) =>
        Some(Body(accepted, upload.card,
                  if upload.card.Some? then CardMap.Sanitized(upload.cardMap, Some(SlotsOf(accepted.profile))) else []))
  }

  function SlotsOf(profile: Profile): set<string> {
    set i | 0 <= i < |profile.cells| :: profile.cells[i].slot
  }

  predicate Opens(world: World, bearer: Option<string>, record: ShareRecord) {
    bearer.Some? && world.digest(bearer.value) == record.tokenHash
  }

  function CreateCell(world: World, cell: Cell, now: int, body: Body, token: string): Cell {
    Cell(
      Stored(ShareRecord(body.accepted.envelope, now, now, now, world.digest(token), body.card.Some?, body.cardMap), now),
      if body.card.Some? then Stored(body.card.value, now) else cell.card,
      cell.hist)
  }

  function UpdateCell(world: World, cell: Cell, now: int, record: ShareRecord, body: Body): Cell {
    var next := record.(
      envelope := body.accepted.envelope, updatedAt := now, lastSeenAt := now,
      hasCard := body.card.Some? || record.hasCard,
      cardMap := if body.card.Some? then body.cardMap else record.cardMap);
    Cell(
      Stored(next, now),
      if body.card.Some? then Stored(body.card.value, now) else if record.hasCard then Renewed(cell.card, now) else cell.card,
      match world.accept(record.envelope)
      case Some(replaced) =>
        Stored(PushHistory(Live(cell.hist, now), SnapshotOf(world, replaced.profile, record.updatedAt)), now)
      case None => cell.hist)
  }

  /** A view rewrites all three rows, and only when the last write or refresh is more than thirty days old. */
  function TouchCell(cell: Cell, now: int, record: ShareRecord): Cell {
    if now - record.lastSeenAt <= VIEW_REFRESH_MS then cell
    else Cell(
      Stored(record.(lastSeenAt := now), now),
      if record.hasCard then Renewed(cell.card, now) else cell.card,
      Renewed(cell.hist, now))
  }

  function TouchedRecord(record: ShareRecord, now: int): ShareRecord {
    if now - record.lastSeenAt <= VIEW_REFRESH_MS then record else record.(lastSeenAt := now)
  }

  const EMPTY_CELL := Cell(None, None, None)

  function OnCreate(world: World, cell: Cell, now: int, upload: Upload, token: string): (Cell, Reply) {
    match BodyOf(world, upload)
    case None => (cell, Refused)
    case Some(body) => (CreateCell(world, cell, now, body, token), Created(now + SHARE_TTL_MS))
  }

  function OnUpdate(world: World, cell: Cell, now: int, bearer: Option<string>, upload: Upload): (Cell, Reply) {
    var live := ReadRecord(cell.share, now);
    if live.None? then (cell, NotFound)
    else if !Opens(world, bearer, live.value) then (cell, Unauthorized)
    else
      match BodyOf(world, upload)
      case None => (cell, Refused)
      case Some(body) => (UpdateCell(world, cell, now, live.value, body), Updated(now + SHARE_TTL_MS))
  }

  function OnRemove(world: World, cell: Cell, now: int, bearer: Option<string>): (Cell, Reply) {
    var live := ReadRecord(cell.share, now);
    if live.None? then (cell, NotFound)
    else if !Opens(world, bearer, live.value) then (cell, Unauthorized)
    else (EMPTY_CELL, Removed)
  }

  function OnReadProfile(cell: Cell, now: int): (Cell, Reply) {
    var live := ReadRecord(cell.share, now);
    if live.None? then (cell, NotFound)
    else
      var touched := TouchedRecord(live.value, now);
      var after := TouchCell(cell, now, live.value);
      (after, ProfileReply(
        touched.envelope, touched.cardMap, ReadHistory(Live(after.hist, now)), touched.createdAt, touched.updatedAt,
        ExpiresAt(touched)))
  }

  function OnReadPage(world: World, cell: Cell, now: int): (Cell, Reply) {
    var live := ReadRecord(cell.share, now);
    if live.None? then (cell, NotFound)
    else
      match world.accept(live.value.envelope)
      case None => (cell, NotFound)
      case Some(accepted) =>
        var touched := TouchedRecord(live.value, now);
        var after := TouchCell(cell, now, live.value);
        (after, PageReply(
          accepted.profile, touched.hasCard, if touched.hasCard then touched.cardMap else [], touched.updatedAt,
          ReadHistory(Live(after.hist, now))))
  }

  function OnReadCard(cell: Cell, now: int): (Cell, Reply) {
    match Live(cell.card, now)
    case None => (cell, NotFound)
    case Some(card) => (cell, CardReply(card))
  }

  function Handle(world: World, cell: Cell, now: int, request: Request): (Cell, Reply) {
    match request
    case Create(upload, token) => OnCreate(world, cell, now, upload, token)
    case Update(bearer, upload) => OnUpdate(world, cell, now, bearer, upload)
    case Remove(bearer) => OnRemove(world, cell, now, bearer)
    case ReadProfile => OnReadProfile(cell, now)
    case ReadPage => OnReadPage(world, cell, now)
    case ReadCard => OnReadCard(cell, now)
  }

  // --------------------------------------------------------------------------------- what every state satisfies

  /** A card as it was brought, with the hotspots and the envelope that came with it. */
  datatype Brought = Brought(card: Card, cardMap: Json, raw: Json)

  /** The last publication of a share: what was uploaded, the last card brought since the creation, and the instants. */
  datatype Publication = Publication(raw: Json, card: Option<Brought>, token: string, createdAt: int, updatedAt: int)

  /** What a share has been through since its creation: the states it was re-published over, oldest first, and the last. */
  datatype Past = Past(replaced: seq<Snapshot>, last: Option<Publication>)

  function BroughtBy(upload: Upload): Option<Brought>
    requires upload.Upload?
  {
    if upload.card.Some? then Some(Brought(upload.card.value, upload.cardMap, upload.raw)) else None
  }

  /** The state a publication put on show. */
  function ShownState(world: World, p: Publication): Snapshot {
    match world.accept(p.raw)
    case None => Snapshot("", 0.0, None, None, [], [])
    case Some(a) =>
      Snapshot(world.iso(p.updatedAt), a.profile.ac, a.profile.scores, a.profile.level, a.profile.classes, a.profile.cells)
  }

  /** The hotspots that came with a card, as they were let in: on slots the profile that came with it has. */
  function SpotsOf(world: World, card: Option<Brought>): seq<CardMap.Hotspot> {
    if card.None? then []
    else
      match world.accept(card.value.raw)
      case None => []
      case Some(a) => CardMap.Sanitized(card.value.cardMap, Some(WornSlots(a.profile)))
  }

  function WornSlots(profile: Profile): set<string> {
    set cell | cell in profile.cells :: cell.slot
  }

  /** What a request and its reply make of the past; nothing of the rows is looked at. */
  function Remember(world: World, now: int, request: Request, reply: Reply, before: Past): Past {
    if request.Create? && reply.Created? && request.upload.Upload? then
      Past([], Some(Publication(request.upload.raw, BroughtBy(request.upload), request.token, now, now)))
    else if request.Update? && reply.Updated? && request.upload.Upload? && before.last.Some? then
      Past(before.replaced + [ShownState(world, before.last.value)],
           Some(Republished(before.last.value, request.upload, now)))
    else before
  }

  function Republished(p: Publication, upload: Upload, now: int): Publication
    requires upload.Upload?
  {
    p.(raw := upload.raw, card := if upload.card.Some? then BroughtBy(upload) else p.card, updatedAt := now)
  }

  predicate Fits(world: World, cell: Cell, now: int, past: Past) {
    var live := Live(cell.share, now);
    if live.None? then Live(cell.card, now).None? && Live(cell.hist, now).None?
    else
      && past.last.Some?
      && ClockFits(cell, now, live.value)
      && Live(cell.card, now) == CardOnShow(past.last.value)
      && HistoryFits(Live(cell.hist, now), past.replaced)
      && RecordFits(world, live.value, past.last.value)
      && MapFits(live.value, SpotsOf(world, past.last.value.card))
  }

  function CardOnShow(p: Publication): Option<Card> {
    if p.card.Some? then Some(p.card.value.card) else None
  }

  /** The record is that of the last publication, under the token of the creation. */
  predicate RecordFits(world: World, record: ShareRecord, p: Publication) {
    var accepted := world.accept(p.raw);
    && accepted.Some? && record.envelope == accepted.value.envelope && world.accept(record.envelope) == accepted
    && record.tokenHash == world.digest(p.token) && record.hasCard == p.card.Some?
    && record.createdAt == p.createdAt && record.updatedAt == p.updatedAt
  }

  predicate HistoryFits(hist: Option<Json>, replaced: seq<Snapshot>) {
    hist.Some? == (replaced != []) && ReadHistory(hist) == Newest(replaced)
  }

  /** The stored map is the uploaded one, or that one as it reads back; without a card there is none. */
  predicate MapFits(record: ShareRecord, spots: seq<CardMap.Hotspot>) {
    && CardMap.IsSanitized(spots)
    && (record.cardMap == spots || record.cardMap == CardMap.ReadMap(spots))
    && (!record.hasCard ==> record.cardMap == [])
  }

  predicate ClockFits(cell: Cell, now: int, record: ShareRecord)
    requires Live(cell.share, now).Some?
  {
    && cell.share.value.until == ExpiresAt(record)
    && (Live(cell.card, now).Some? ==> cell.card.value.until == ExpiresAt(record))
    && (Live(cell.hist, now).Some? ==> cell.hist.value.until == ExpiresAt(record))
    && record.createdAt <= record.updatedAt <= record.lastSeenAt <= now
  }

  lemma ReadAgain(record: ShareRecord, spots: seq<CardMap.Hotspot>)
    requires MapFits(record, spots)
    ensures CardMap.ReadMap(record.cardMap) == CardMap.ReadMap(spots)
    ensures MapFits(record.(cardMap := CardMap.ReadMap(record.cardMap)), spots)
  {
    CardMap.ReadMapSettles(spots);
    CardMap.ReadMapOfNone();
  }

  lemma SlotsAreTheWorn(profile: Profile)
    ensures SlotsOf(profile) == WornSlots(profile)
  {
    forall slot | slot in SlotsOf(profile) ensures slot in WornSlots(profile) {
      var i :| 0 <= i < |profile.cells| && profile.cells[i].slot == slot;
      assert profile.cells[i] in profile.cells;
    }
  }

  lemma BodyMapIsTheSpots(world: World, upload: Upload)
    requires BodyOf(world, upload).Some?
    ensures var body := BodyOf(world, upload).value;
      CardMap.IsSanitized(body.cardMap) && body.cardMap == SpotsOf(world, BroughtBy(upload))
  {
    if upload.card.Some? {
      SlotsAreTheWorn(world.accept(upload.raw).value.profile);
      CardMap.SanitizedOnce(upload.cardMap, Some(SlotsOf(world.accept(upload.raw).value.profile)));
    }
  }

  lemma CreateFits(world: World, cell: Cell, now: int, upload: Upload, token: string, before: Past)
    requires ReAccepts(world) && Fits(world, cell, now, before) && Live(cell.share, now).None?
    requires BodyOf(world, upload).Some?
    ensures Fits(world, CreateCell(world, cell, now, BodyOf(world, upload).value, token), now,
                 Past([], Some(Publication(upload.raw, BroughtBy(upload), token, now, now))))
  {
    assert Newest([]) == [];
    assert world.accept(world.accept(upload.raw).value.envelope) == world.accept(upload.raw);
    BodyMapIsTheSpots(world, upload);
  }

  /** Three rows written now fit what was published now. */
  lemma WrittenFits(world: World, after: Cell, now: int, record: ShareRecord, past: Past)
    requires past.last.Some? && after.share == Stored(record, now) && record.lastSeenAt == now
    requires record.createdAt <= record.updatedAt <= now
    requires Live(after.card, now) == CardOnShow(past.last.value)
    requires Live(after.card, now).Some? ==> after.card.value.until == now + SHARE_TTL_MS
    requires HistoryFits(Live(after.hist, now), past.replaced)
    requires Live(after.hist, now).Some? ==> after.hist.value.until == now + SHARE_TTL_MS
    requires RecordFits(world, record, past.last.value) && MapFits(record, SpotsOf(world, past.last.value.card))
    ensures Fits(world, after, now, past)
  {
  }

  lemma RepublishedRecordFits(world: World, row: ShareRecord, upload: Upload, now: int, p: Publication)
    requires ReAccepts(world) && BodyOf(world, upload).Some? && RecordFits(world, row, p) && MapFits(row, SpotsOf(world, p.card))
    ensures var body := BodyOf(world, upload).value; var next := Republished(p, upload, now);
      var record := ShareRecord(
        body.accepted.envelope, row.createdAt, now, now, row.tokenHash, body.card.Some? || row.hasCard,
        if body.card.Some? then body.cardMap else CardMap.ReadMap(row.cardMap));
      RecordFits(world, record, next) && MapFits(record, SpotsOf(world, next.card))
  {
    assert world.accept(world.accept(upload.raw).value.envelope) == world.accept(upload.raw);
    BodyMapIsTheSpots(world, upload);
    UpdateKeepsMap(row, BodyOf(world, upload).value, SpotsOf(world, p.card));
  }

  lemma UpdateFits(world: World, cell: Cell, now: int, upload: Upload, before: Past)
    requires ReAccepts(world) && Fits(world, cell, now, before) && Live(cell.share, now).Some?
    requires BodyOf(world, upload).Some?
    ensures var record := ReadRecord(cell.share, now).value; var last := before.last.value;
      Fits(world, UpdateCell(world, cell, now, record, BodyOf(world, upload).value), now,
           Past(before.replaced + [ShownState(world, last)], Some(Republished(last, upload, now))))
  {
    var row := Live(cell.share, now).value;
    var record := ReadRecord(cell.share, now).value;
    var body := BodyOf(world, upload).value;
    var last := before.last.value;
    var after := UpdateCell(world, cell, now, record, body);
    RepublishedRecordFits(world, row, upload, now, last);
    UpdateKeepsHistory(Live(cell.hist, now), ShownState(world, last), before.replaced);
    UpdateKeepsCard(world, cell, now, record, body, CardOnShow(last));
    UpdateWritesHistory(world, cell, now, record, body);
    UpdateWritesRecord(world, cell, now, record, body);
    WrittenFits(world, after, now, after.share.value.value,
                Past(before.replaced + [ShownState(world, last)], Some(Republished(last, upload, now))));
  }

  /** Whatever else an update does, it writes the record and the history under the new expiry. */
  lemma UpdateWritesRecord(world: World, cell: Cell, now: int, record: ShareRecord, body: Body)
    ensures var after := UpdateCell(world, cell, now, record, body);
      && after.share == Stored(
           ShareRecord(
             body.accepted.envelope, record.createdAt, now, now, record.tokenHash, body.card.Some? || record.hasCard,
             if body.card.Some? then body.cardMap else record.cardMap), now)
  {
  }

  lemma UpdateWritesHistory(world: World, cell: Cell, now: int, record: ShareRecord, body: Body)
    requires world.accept(record.envelope).Some?
    ensures var s := SnapshotOf(world, world.accept(record.envelope).value.profile, record.updatedAt);
      UpdateCell(world, cell, now, record, body).hist == Stored(PushHistory(Live(cell.hist, now), s), now)
  {
  }

  /** The card an update leaves: the one it brought, or the one before, under the expiry of the record. */
  lemma UpdateKeepsCard(world: World, cell: Cell, now: int, record: ShareRecord, body: Body, card: Option<Card>)
    requires Live(cell.card, now) == card && card.Some? == record.hasCard
    ensures var after := UpdateCell(world, cell, now, record, body);
      && Live(after.card, now) == (if body.card.Some? then body.card else card)
      && (Live(after.card, now).Some? ==> after.card.value.until == now + SHARE_TTL_MS)
  {
  }

  lemma UpdateKeepsMap(row: ShareRecord, body: Body, spots: seq<CardMap.Hotspot>)
    requires MapFits(row, spots) && CardMap.IsSanitized(body.cardMap)
    ensures var kept := if body.card.Some? then body.cardMap else CardMap.ReadMap(row.cardMap);
      var after := if body.card.Some? then body.cardMap else spots;
      && CardMap.IsSanitized(after)
      && (kept == after || kept == CardMap.ReadMap(after))
      && (!(body.card.Some? || row.hasCard) ==> kept == [])
  {
    ReadAgain(row, spots);
  }

  lemma UpdateKeepsHistory(hist: Option<Json>, s: Snapshot, replaced: seq<Snapshot>)
    requires HistoryFits(hist, replaced)
    ensures HistoryFits(Some(PushHistory(hist, s)), replaced + [s])
  {
    PushReadsBack(hist, s);
    NewestGrows(replaced, s);
  }

  lemma TouchFits(world: World, cell: Cell, now: int, before: Past)
    requires Fits(world, cell, now, before) && Live(cell.share, now).Some?
    ensures var after := TouchCell(cell, now, ReadRecord(cell.share, now).value);
      Fits(world, after, now, before) && Live(after.hist, now) == Live(cell.hist, now)
  {
    ReadAgain(Live(cell.share, now).value, SpotsOf(world, before.last.value.card));
  }

  /** The past after a request, given what is answered to it. */
  function PastAfter(world: World, cell: Cell, now: int, request: Request, before: Past): Past {
    Remember(world, now, request, Handle(world, cell, now, request).1, before)
  }

  lemma CreationKeepsFits(world: World, cell: Cell, now: int, request: Request, before: Past)
    requires ReAccepts(world) && Fits(world, cell, now, before) && request.Create? && Live(cell.share, now).None?
    ensures Fits(world, Handle(world, cell, now, request).0, now, PastAfter(world, cell, now, request, before))
  {
    if BodyOf(world, request.upload).Some? { CreateFits(world, cell, now, request.upload, request.token, before); }
  }

  /** An update that re-publishes; any other is turned away and leaves everything. */
  predicate Republishes(world: World, cell: Cell, now: int, request: Request) {
    var live := ReadRecord(cell.share, now);
    request.Update? && live.Some? && Opens(world, request.bearer, live.value) && BodyOf(world, request.upload).Some?
  }

  lemma UpdateOutcome(world: World, cell: Cell, now: int, request: Request)
    requires request.Update?
    ensures var live := ReadRecord(cell.share, now); var body := BodyOf(world, request.upload);
      var (after, reply) := Handle(world, cell, now, request);
      && (Republishes(world, cell, now, request) ==>
            after == UpdateCell(world, cell, now, live.value, body.value) && reply.Updated?)
      && (!Republishes(world, cell, now, request) ==> after == cell && !reply.Updated?)
  {
  }

  lemma RepublishKeepsFits(world: World, cell: Cell, now: int, request: Request, before: Past)
    requires ReAccepts(world) && Fits(world, cell, now, before) && request.Update?
    ensures Fits(world, Handle(world, cell, now, request).0, now, PastAfter(world, cell, now, request, before))
  {
    UpdateOutcome(world, cell, now, request);
    if Republishes(world, cell, now, request) { UpdateFits(world, cell, now, request.upload, before); }
  }

  /** A read leaves the rows as they are or touches them. */
  lemma ReadOutcome(world: World, cell: Cell, now: int, request: Request)
    requires request.ReadProfile? || request.ReadPage? || request.ReadCard?
    ensures var live := ReadRecord(cell.share, now); var after := Handle(world, cell, now, request).0;
      after == cell || (live.Some? && after == TouchCell(cell, now, live.value))
  {
  }

  /** A removal leaves everything, or nothing and then with the right token. */
  lemma RemovalOutcome(world: World, cell: Cell, now: int, request: Request)
    requires request.Remove?
    ensures var live := ReadRecord(cell.share, now); var after := Handle(world, cell, now, request).0;
      after == cell || (live.Some? && Opens(world, request.bearer, live.value) && after == EMPTY_CELL)
  {
  }

  lemma HandleKeepsFits(world: World, cell: Cell, now: int, request: Request, before: Past)
    requires ReAccepts(world) && Fits(world, cell, now, before)
    requires request.Create? ==> Live(cell.share, now).None?
    ensures Fits(world, Handle(world, cell, now, request).0, now, PastAfter(world, cell, now, request, before))
  {
    if request.Create? {
      CreationKeepsFits(world, cell, now, request, before);
    } else if request.Update? {
      RepublishKeepsFits(world, cell, now, request, before);
    } else if request.Remove? {
      RemovalOutcome(world, cell, now, request);
    } else {
      ReadOutcome(world, cell, now, request);
      if Live(cell.share, now).Some? { TouchFits(world, cell, now, before); }
    }
  }

  lemma TimePasses(world: World, cell: Cell, now: int, later: int, past: Past)
    requires Fits(world, cell, now, past) && now <= later
    ensures Fits(world, cell, later, past)
  {
  }

  // -------------------------------------------------------------------------------------------------- runs

  datatype Step = Ask(id: string, request: Request) | Tick(ms: nat)

  /** `past` is a history variable: steps write it and none reads it. */
  datatype State = State(cells: map<string, Cell>, past: map<string, Past>, now: int)

  function CellOf(s: State, id: string): Cell {
    if id in s.cells then s.cells[id] else EMPTY_CELL
  }

  function PastOf(s: State, id: string): Past {
    if id in s.past then s.past[id] else Past([], None)
  }

  function ReplacedOf(s: State, id: string): seq<Snapshot> {
    PastOf(s, id).replaced
  }

  /** Ids are drawn at random; a draw that hits a share still being served is not part of this model. */
  predicate Enabled(s: State, step: Step) {
    step.Ask? && step.request.Create? ==> Live(CellOf(s, step.id).share, s.now).None?
  }

  function Apply(world: World, s: State, step: Step): State {
    match step
    case Tick(ms) => s.(now := s.now + ms)
    case Ask(id, request) =>
      s.(cells := s.cells[id := Handle(world, CellOf(s, id), s.now, request).0],
         past := s.past[id := PastAfter(world, CellOf(s, id), s.now, request, PastOf(s, id))])
  }

  function Exec(world: World, start: int, steps: seq<Step>): Option<State> {
    if steps == [] then Some(State(map[], map[], start))
    else
      var before := Exec(world, start, steps[..|steps| - 1]);
      if before.None? || !Enabled(before.value, steps[|steps| - 1]) then None
      else Some(Apply(world, before.value, steps[|steps| - 1]))
  }

  predicate ShareFits(world: World, s: State, id: string) {
    Fits(world, CellOf(s, id), s.now, PastOf(s, id))
  }

  lemma StepKeepsFits(world: World, s: State, step: Step, id: string)
    requires ReAccepts(world) && Enabled(s, step) && ShareFits(world, s, id)
    ensures ShareFits(world, Apply(world, s, step), id)
  {
    match step
    case Tick(ms) => TimePasses(world, CellOf(s, id), s.now, s.now + ms, PastOf(s, id));
    case Ask(asked, request) =>
      if asked == id { HandleKeepsFits(world, CellOf(s, id), s.now, request, PastOf(s, id)); }
  }

  lemma {:induction false} EveryShareFits(world: World, start: int, steps: seq<Step>, id: string)
    requires ReAccepts(world) && Exec(world, start, steps).Some?
    ensures ShareFits(world, Exec(world, start, steps).value, id)
    decreases |steps|
  {
    if steps != [] {
      EveryShareFits(world, start, steps[..|steps| - 1], id);
      StepKeepsFits(world, Exec(world, start, steps[..|steps| - 1]).value, steps[|steps| - 1], id);
    }
  }
}
