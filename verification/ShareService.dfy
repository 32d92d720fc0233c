/** The request handlers as they write the store: one row after another, each put under its own TTL. */
module ShareService {
  import opened Prelude
  import opened ShareHistory
  import opened ShareStore

  class Namespace {
    var shares: map<string, Entry<ShareRecord>>
    var cards: map<string, Entry<Card>>
    var hists: map<string, Entry<Json>>
    const world: World

    constructor (world: World)
      ensures this.world == world && forall id :: CellOf(id) == EMPTY_CELL
    {
      this.world := world;
      shares, cards, hists := map[], map[], map[];
    }

    function CellOf(id: string): Cell
      reads this
    {
      Cell(
        if id in shares then Some(shares[id]) else None,
        if id in cards then Some(cards[id]) else None,
        if id in hists then Some(hists[id]) else None)
    }

    /** Every other share's rows are as they were. */
    twostate predicate OthersUntouched(id: string)
      reads this
    {
      forall other :: other != id ==> CellOf(other) == old(CellOf(other))
    }

    method WriteRecord(id: string, record: ShareRecord, now: int)
      modifies `shares
      ensures CellOf(id) == old(CellOf(id)).(share := Stored(record, now))
      ensures OthersUntouched(id)
    {
      shares := shares[id := Entry(record, now + SHARE_TTL_MS)];
    }

    method WriteCard(id: string, card: Card, now: int)
      modifies `cards
      ensures CellOf(id) == old(CellOf(id)).(card := Stored(card, now))
      ensures OthersUntouched(id)
    {
      cards := cards[id := Entry(card, now + SHARE_TTL_MS)];
    }

    method RewriteCard(id: string, now: int)
      modifies `cards
      ensures CellOf(id) == old(CellOf(id)).(card := Renewed(old(CellOf(id)).card, now))
      ensures OthersUntouched(id)
    {
      var png := Live(CellOf(id).card, now);
      if png.Some? { WriteCard(id, png.value, now); }
    }

    method TouchHistory(id: string, now: int)
      modifies `hists
      ensures CellOf(id) == old(CellOf(id)).(hist := Renewed(old(CellOf(id)).hist, now))
      ensures OthersUntouched(id)
    {
      var raw := Live(CellOf(id).hist, now);
      if raw.Some? { hists := hists[id := Entry(raw.value, now + SHARE_TTL_MS)]; }
    }

    method Push(id: string, snapshot: Snapshot, now: int)
      modifies `hists
      ensures CellOf(id) == old(CellOf(id)).(hist := Stored(PushHistory(Live(old(CellOf(id)).hist, now), snapshot), now))
      ensures OthersUntouched(id)
    {
      var list := ReadList(Live(CellOf(id).hist, now));
      hists := hists[id := Entry(JArr(Map(SnapshotJson, Take([snapshot] + list, HISTORY_CAP))), now + SHARE_TTL_MS)];
    }

    method Touch(id: string, record: ShareRecord, now: int) returns (touched: ShareRecord)
      modifies this
      ensures CellOf(id) == TouchCell(old(CellOf(id)), now, record) && touched == TouchedRecord(record, now)
      ensures OthersUntouched(id)
    {
      if now - record.lastSeenAt <= VIEW_REFRESH_MS { return record; }
      touched := record.(lastSeenAt := now);
      WriteRecord(id, touched, now);
      if record.hasCard { RewriteCard(id, now); }
      TouchHistory(id, now);
    }

    method CreateShare(id: string, upload: Upload, token: string, now: int) returns (reply: Reply)
      modifies this
      ensures (CellOf(id), reply) == Handle(world, old(CellOf(id)), now, Create(upload, token))
      ensures OthersUntouched(id)
    {
      var body := BodyOf(world, upload);
      if body.None? { return Refused; }
      var record := ShareRecord(
        body.value.accepted.envelope, now, now, now, world.digest(token), body.value.card.Some?, body.value.cardMap);
      if body.value.card.Some? { WriteCard(id, body.value.card.value, now); }
      WriteRecord(id, record, now);
      reply := Created(ExpiresAt(record));
    }

    /** A new card is stored; without one the old image is written again, so that it expires with the record. */
    method KeepCard(id: string, record: ShareRecord, body: Body, now: int)
      modifies `cards
      ensures CellOf(id) == old(CellOf(id)).(card := UpdateCell(world, old(CellOf(id)), now, record, body).card)
      ensures OthersUntouched(id)
    {
      if body.card.Some? {
        WriteCard(id, body.card.value, now);
      } else if record.hasCard {
        RewriteCard(id, now);
      }
    }

    method Republish(id: string, record: ShareRecord, body: Body, now: int) returns (next: ShareRecord)
      modifies this
      ensures CellOf(id) == UpdateCell(world, old(CellOf(id)), now, record, body) && next.lastSeenAt == now
      ensures OthersUntouched(id)
    {
      KeepCard(id, record, body, now);
      next := record.(
        envelope := body.accepted.envelope, updatedAt := now, lastSeenAt := now,
        hasCard := body.card.Some? || record.hasCard);
      if body.card.Some? { next := next.(cardMap := body.cardMap); }
      var replaced := world.accept(record.envelope);
      if replaced.Some? {
        Push(id, SnapshotOf(world, replaced.value.profile, record.updatedAt), now);
      }
      WriteRecord(id, next, now);
    }

    method UpdateShare(id: string, bearer: Option<string>, upload: Upload, now: int) returns (reply: Reply)
      modifies this
      ensures (CellOf(id), reply) == Handle(world, old(CellOf(id)), now, Update(bearer, upload))
      ensures OthersUntouched(id)
    {
      var record := ReadRecord(CellOf(id).share, now);
      if record.None? { return NotFound; }
      if !Opens(world, bearer, record.value) { return Unauthorized; }
      var body := BodyOf(world, upload);
      if body.None? { return Refused; }
      var next := Republish(id, record.value, body.value, now);
      reply := Updated(ExpiresAt(next));
    }

    method DeleteShare(id: string)
      modifies this
      ensures CellOf(id) == EMPTY_CELL && OthersUntouched(id)
    {
      shares := shares - {id};
      cards := cards - {id};
      hists := hists - {id};
    }

    method RemoveShare(id: string, bearer: Option<string>, now: int) returns (reply: Reply)
      modifies this
      ensures (CellOf(id), reply) == Handle(world, old(CellOf(id)), now, Remove(bearer))
      ensures OthersUntouched(id)
    {
      var record := ReadRecord(CellOf(id).share, now);
      if record.None? { return NotFound; }
      if !Opens(world, bearer, record.value) { return Unauthorized; }
      DeleteShare(id);
      reply := Removed;
    }

    method ViewProfile(id: string, now: int) returns (reply: Reply)
      modifies this
      ensures (CellOf(id), reply) == Handle(world, old(CellOf(id)), now, ReadProfile)
      ensures OthersUntouched(id)
    {
      var record := ReadRecord(CellOf(id).share, now);
      if record.None? { return NotFound; }
      var touched := Touch(id, record.value, now);
      var history := ReadList(Live(CellOf(id).hist, now));
      reply := ProfileReply(touched.envelope, touched.cardMap, history, touched.createdAt, touched.updatedAt, ExpiresAt(touched));
    }

    method ViewPage(id: string, now: int) returns (reply: Reply)
      modifies this
      ensures (CellOf(id), reply) == Handle(world, old(CellOf(id)), now, ReadPage)
      ensures OthersUntouched(id)
    {
      var record := ReadRecord(CellOf(id).share, now);
      if record.None? { return NotFound; }
      var accepted := world.accept(record.value.envelope);
      if accepted.None? { return NotFound; }
      var touched := Touch(id, record.value, now);
      var history := ReadList(Live(CellOf(id).hist, now));
      reply := PageReply(
        accepted.value.profile, touched.hasCard, if touched.hasCard then touched.cardMap else [], touched.updatedAt, history);
    }
  }
}
