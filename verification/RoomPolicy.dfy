/**
 * The decisions of a phone room (phoneRoom.ts, `RoomCore`) as functions: from the pairing, the frame cache, the
 * rate clocks and an event to the next state and the actions that whoever owns the sockets has to perform.
 */
module RoomPolicy {
  import opened Prelude

  const CHANNELS: nat := 7
  const PHONE_MAX_FRAME_BYTES: nat := 64 * 1024
  const PHONE_MAX_VIEWERS: nat := 4
  const PHONE_MIN_FRAME_GAP_MS: int := 250
  const PHONE_ROOM_TTL_MS: int := 30 * 24 * 60 * 60 * 1000
  const MAX_VIEWER_MESSAGE: nat := 1024
  const UNPAIRED: nat := 4004
  const TOO_LARGE: nat := 4009

  type Channel = c: nat | c < CHANNELS

  /** A message off a socket: its text, and the channel a frame parse finds in that text, if any. */
  datatype Data = Data(text: string, channel: Option<Channel>)

  datatype Pairing = Pairing(deskTokenHash: string, createdAt: int, lastDeskAt: int)

  /** What the room says: desk presence, the viewer count, the resend nudge, or a relayed frame. */
  datatype Message = Presence(desk: bool) | ViewerCount(n: nat) | Resend | Frame(channel: Channel, text: string)

  datatype Target = ToSocket(id: string) | ToViewers | ToDesk

  datatype Action =
    | Send(target: Target, message: Message)
    | Close(target: Target, code: nat)
    | Save(pairing: Option<Pairing>)
    | Alarm(at: int)

  /** The circumstances a decision is made in: the time, and how many of each side are listed. */
  datatype RoomNow = RoomNow(now: int, viewers: nat, deskOnline: bool)

  datatype Cached = Cached(channel: Channel, text: string)

  /** The core's state; `latest` keeps the order in which channels were first cached. */
  datatype Core = Core(pairing: Option<Pairing>, latest: seq<Cached>, sentAt: map<Channel, int>)

  datatype Decision = Decision(core: Core, actions: seq<Action>)

  const EMPTY: Core := Core(None, [], map[])

  function Create(core: Core, hash: string, now: int): Option<Decision> {
    if core.pairing.Some? then None
    else
      var pairing := Pairing(hash, now, now);
      Some(Decision(core.(pairing := Some(pairing)), [Save(Some(pairing)), Alarm(now + PHONE_ROOM_TTL_MS)]))
  }

  function Destroy(core: Core): Decision {
    Decision(EMPTY, [Save(None), Close(ToViewers, UNPAIRED), Close(ToDesk, UNPAIRED)])
  }

  function Full(viewers: nat): bool {
    viewers >= PHONE_MAX_VIEWERS
  }

  function Replay(latest: seq<Cached>, id: string): seq<Action> {
    seq(|latest|, i requires 0 <= i < |latest| => Send(ToSocket(id), Frame(latest[i].channel, latest[i].text)))
  }

  function AttachViewer(core: Core, id: string, ctx: RoomNow): seq<Action> {
    [Send(ToSocket(id), Presence(ctx.deskOnline))]
    + Replay(core.latest, id)
    + (if ctx.deskOnline then [Send(ToDesk, ViewerCount(ctx.viewers))] else [])
    + (if ctx.deskOnline && |core.latest| < CHANNELS then [Send(ToDesk, Resend)] else [])
  }

  function DetachViewer(ctx: RoomNow): seq<Action> {
    if ctx.deskOnline then [Send(ToDesk, ViewerCount(ctx.viewers))] else []
  }

  function AttachDesk(core: Core, ctx: RoomNow): Decision {
    if core.pairing.None? then Decision(core, [])
    else
      var pairing := core.pairing.value.(lastDeskAt := ctx.now);
      Decision(core.(pairing := Some(pairing)),
        [Save(Some(pairing)), Alarm(ctx.now + PHONE_ROOM_TTL_MS),
         Send(ToViewers, Presence(true)), Send(ToDesk, ViewerCount(ctx.viewers))])
  }

  function DetachDesk(): seq<Action> {
    [Send(ToViewers, Presence(false))]
  }

  function LastSent(sentAt: map<Channel, int>, c: Channel): int {
    if c in sentAt then sentAt[c] else 0
  }

  /** Is this message relayed: small enough, a frame of a known channel, and outside that channel's gap? */
  predicate Relays(core: Core, data: Data, now: int) {
    && |data.text| <= PHONE_MAX_FRAME_BYTES && data.channel.Some?
    && now - LastSent(core.sentAt, data.channel.value) >= PHONE_MIN_FRAME_GAP_MS
  }

  function DeskMessage(core: Core, data: Data, now: int): Decision {
    if |data.text| > PHONE_MAX_FRAME_BYTES then Decision(core, [Close(ToDesk, TOO_LARGE)])
    else if !Relays(core, data, now) then Decision(core, [])
    else
      var c := data.channel.value;
      Decision(core.(latest := Put(core.latest, c, data.text), sentAt := core.sentAt[c := now]),
        [Send(ToViewers, Frame(c, data.text))])
  }

  /** A map write that keeps the position of a key already present. */
  function Put(latest: seq<Cached>, c: Channel, text: string): seq<Cached> {
    if latest == [] then [Cached(c, text)]
    else if latest[0].channel == c then [Cached(c, text)] + latest[1..]
    else [latest[0]] + Put(latest[1..], c, text)
  }

  function ViewerMessage(id: string, data: Data): seq<Action> {
    if |data.text| <= MAX_VIEWER_MESSAGE then [] else [Close(ToSocket(id), TOO_LARGE)]
  }

  function OnAlarm(core: Core, now: int): Decision {
    if core.pairing.None? then Decision(core, [])
    else if now - core.pairing.value.lastDeskAt < PHONE_ROOM_TTL_MS then
      Decision(core, [Alarm(core.pairing.value.lastDeskAt + PHONE_ROOM_TTL_MS)])
    else Destroy(core)
  }

  // ------------------------------------------------------------------------------- the frame cache

  predicate DistinctChannels(latest: seq<Cached>) {
    forall i, j :: 0 <= i < j < |latest| ==> latest[i].channel != latest[j].channel
  }

  predicate Caches(latest: seq<Cached>, c: Channel, text: string) {
    Cached(c, text) in latest
  }

  function ChannelsOf(latest: seq<Cached>): set<Channel> {
    set i | 0 <= i < |latest| :: latest[i].channel
  }

  /** Entries of other channels are passed over, in place. */
  lemma {:induction false} PutSkips(latest: seq<Cached>, i: nat, c: Channel, text: string)
    requires i <= |latest| && forall k :: 0 <= k < i ==> latest[k].channel != c
    ensures Put(latest, c, text) == latest[..i] + Put(latest[i..], c, text)
    decreases i
  {
    if i > 0 {
      PutSkips(latest[1..], i - 1, c, text);
      assert latest[1..][..i - 1] == latest[1..i] && latest[1..][i - 1..] == latest[i..];
      assert [latest[0]] + latest[1..i] == latest[..i];
    }
  }

  /** `Put` replaces exactly its own channel's entry and keeps every other. */
  lemma {:induction false} PutReplacesOne(latest: seq<Cached>, c: Channel, text: string)
    requires DistinctChannels(latest)
    ensures DistinctChannels(Put(latest, c, text))
    ensures ChannelsOf(Put(latest, c, text)) == ChannelsOf(latest) + {c}
    ensures forall x, t :: Caches(Put(latest, c, text), x, t) <==> (if x == c then t == text else Caches(latest, x, t))
  {
    var out := Put(latest, c, text);
    forall x, t ensures Caches(out, x, t) <==> (if x == c then t == text else Caches(latest, x, t)) {
      PutCaches(latest, c, text, x, t);
    }
    if latest == [] {
      assert out[0].channel in ChannelsOf(out);
    } else {
      var rest := latest[1..];
      assert latest == [latest[0]] + rest;
      RestIsDistinct(latest);
      ChannelsOfCons(latest[0], rest);
      if latest[0].channel == c {
        ChannelsOfCons(Cached(c, text), rest);
        HeadIsNew(Cached(c, text), rest);
      } else {
        PutReplacesOne(rest, c, text);
        ChannelsOfCons(latest[0], Put(rest, c, text));
        HeadIsNew(latest[0], Put(rest, c, text));
      }
    }
  }

  lemma {:induction false} PutCaches(latest: seq<Cached>, c: Channel, text: string, x: Channel, t: string)
    requires DistinctChannels(latest)
    ensures Caches(Put(latest, c, text), x, t) <==> (if x == c then t == text else Caches(latest, x, t))
  {
    if latest == [] {
      assert Put(latest, c, text) == [Cached(c, text)];
    } else {
      var rest := latest[1..];
      assert latest == [latest[0]] + rest;
      assert Caches(latest, x, t) <==> latest[0] == Cached(x, t) || Caches(rest, x, t);
      RestIsDistinct(latest);
      if latest[0].channel == c {
        assert Caches(Put(latest, c, text), x, t) <==> Cached(c, text) == Cached(x, t) || Caches(rest, x, t);
        if Caches(rest, x, t) {
          var i :| 0 <= i < |rest| && rest[i] == Cached(x, t);
          assert rest[i].channel in ChannelsOf(rest);
        }
      } else {
        PutCaches(rest, c, text, x, t);
        assert Caches(Put(latest, c, text), x, t) <==> latest[0] == Cached(x, t) || Caches(Put(rest, c, text), x, t);
      }
    }
  }

  lemma RestIsDistinct(latest: seq<Cached>)
    requires latest != [] && DistinctChannels(latest)
    ensures DistinctChannels(latest[1..]) && latest[0].channel !in ChannelsOf(latest[1..])
  {
    var rest := latest[1..];
    forall i | 0 <= i < |rest| ensures rest[i].channel != latest[0].channel { assert rest[i] == latest[i + 1]; }
    forall i, j | 0 <= i < j < |rest| ensures rest[i].channel != rest[j].channel {
      assert rest[i] == latest[i + 1] && rest[j] == latest[j + 1];
    }
  }

  lemma ChannelsOfCons(head: Cached, rest: seq<Cached>)
    ensures ChannelsOf([head] + rest) == {head.channel} + ChannelsOf(rest)
  {
    var all := [head] + rest;
    assert all[0] == head;
    forall c | c in ChannelsOf(rest) ensures c in ChannelsOf(all) {
      var i :| 0 <= i < |rest| && rest[i].channel == c;
      assert all[i + 1].channel == c;
    }
    forall c | c in ChannelsOf(all) ensures c == head.channel || c in ChannelsOf(rest) {
      var i :| 0 <= i < |all| && all[i].channel == c;
      if i > 0 { assert rest[i - 1].channel == c; }
    }
  }

  lemma HeadIsNew(head: Cached, rest: seq<Cached>)
    requires DistinctChannels(rest) && head.channel !in ChannelsOf(rest)
    ensures DistinctChannels([head] + rest)
  {
    var all := [head] + rest;
    forall i, j | 0 <= i < j < |all| ensures all[i].channel != all[j].channel {
      if i == 0 { assert rest[j - 1].channel in ChannelsOf(rest); }
    }
  }

  lemma {:induction false} DistinctChannelsCount(latest: seq<Cached>)
    requires DistinctChannels(latest)
    ensures |ChannelsOf(latest)| == |latest|
  {
    if latest != [] {
      assert latest == [latest[0]] + latest[1..];
      RestIsDistinct(latest);
      DistinctChannelsCount(latest[1..]);
      ChannelsOfCons(latest[0], latest[1..]);
    }
  }

  /** Seven distinct channels are all of them. */
  lemma FullCacheHasEveryChannel(latest: seq<Cached>, c: Channel)
    requires DistinctChannels(latest) && |latest| >= CHANNELS
    ensures c in ChannelsOf(latest)
  {
    DistinctChannelsCount(latest);
    var all: set<Channel> := {0, 1, 2, 3, 4, 5, 6};
    if c !in ChannelsOf(latest) {
      SubsetCardinality(ChannelsOf(latest), all - {c});
    }
  }
}
