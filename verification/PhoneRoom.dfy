/**
 * One phone room as a machine (phoneRoom.ts, `PhoneRoom`): the policy, its storage and alarm, its sockets,
 * hibernation, and everything a participant has been told. The two requests that await a token digest, a desk
 * upgrade and an unpairing, are two events each: what they read, and later what they do about it.
 *
 * A socket the room has closed stays listed, deaf and still able to speak, until its close event arrives.
 */
module PhoneRoom {
  import opened Prelude
  import opened RoomPolicy

  /** A listed socket, the code the room has closed it with, if it has, and what its far end has heard. */
  datatype Socket = Socket(
    desk: bool, code: Option<nat>, presence: Option<bool>, held: map<Channel, string>, told: Option<nat>, nudges: nat) {
    const closing: bool := code.Some?
  }

  /**
   * A request that waits for its digest. Whether the token opens the room is settled by the pairing it read; an
   * upgrade has also read whether a desk was there.
   */
  datatype Pending = Upgrade(sawDesk: bool, opens: bool) | Removal(opens: bool)

  /**
   * `stored`, `alarmAt` are the object's durable half. `forwarded` (the last frame relayed to viewers on each
   * channel), `contacts` (when this pairing was created and its desk attached), `relays` (when frames were relayed
   * since the cache was last emptied) and `orphans` (desks let into a room that was unpaired by then) are history
   * variables.
   */
  datatype World = World(
    core: Core, loaded: bool, stored: Option<Pairing>, alarmAt: Option<int>,
    sockets: map<string, Socket>, pending: map<string, Pending>, clock: int,
    forwarded: map<Channel, string>, contacts: seq<int>, relays: map<Channel, seq<int>>, orphans: set<string>)

  /** Tokens appear as their digests; a wake-up is the alarm firing. */
  datatype Event =
    | Claim(hash: string)
    | AskUnpair(id: string, digest: string)
    | Knock(id: string, digest: string)
    | Verdict(id: string)
    | JoinViewer(id: string)
    | Speak(id: string, data: Data)
    | Leave(id: string)
    | WakeUp
    | Hibernate
    | Tick(ms: nat)

  function Init(clock: int): World {
    World(EMPTY, false, None, None, map[], map[], clock, map[], [], map[], {})
  }

  // ------------------------------------------------------------------------------------ the adapter

  function ViewersIn(sockets: map<string, Socket>): set<string> {
    set id | id in sockets && !sockets[id].desk
  }

  function DesksIn(sockets: map<string, Socket>): set<string> {
    set id | id in sockets && sockets[id].desk
  }

  function Viewers(w: World): set<string> {
    ViewersIn(w.sockets)
  }

  function Desks(w: World): set<string> {
    DesksIn(w.sockets)
  }

  function Now(w: World): RoomNow {
    RoomNow(w.clock, |Viewers(w)|, Desks(w) != {})
  }

  /** The first event after a wake-up reads the pairing back. */
  function Loaded(w: World): World {
    if w.loaded then w
    else w.(loaded := true, core := if w.stored.Some? then w.core.(pairing := w.stored) else w.core)
  }

  predicate Addressed(target: Target, id: string, s: Socket) {
    match target
    case ToSocket(x) => x == id
    case ToViewers => !s.desk
    case ToDesk => s.desk
  }

  function Hear(s: Socket, m: Message): Socket {
    match m
    case Presence(desk) => s.(presence := Some(desk))
    case ViewerCount(n) => s.(told := Some(n))
    case Resend => s.(nudges := s.nudges + 1)
    case Frame(c, text) => s.(held := s.held[c := text])
  }

  /** One action, as one socket experiences it: one that is closing hears nothing, and is not closed again. */
  function React(s: Socket, id: string, a: Action): Socket {
    match a
    case Send(target, m) => if Addressed(target, id, s) && !s.closing then Hear(s, m) else s
    case Close(target, code) => if Addressed(target, id, s) && !s.closing then s.(code := Some(code)) else s
    case _ => s
  }

  function Perform(w: World, a: Action): World {
    var heard := w.(sockets := map id | id in w.sockets :: React(w.sockets[id], id, a));
    match a
    case Save(pairing) => heard.(stored := pairing)
    case Alarm(at) => heard.(alarmAt := Some(at))
    case Send(ToViewers, Frame(c, text)) => heard.(forwarded := w.forwarded[c := text])
    case _ => heard
  }

  function PerformAll(w: World, actions: seq<Action>): World
    decreases |actions|
  {
    if actions == [] then w else PerformAll(Perform(w, actions[0]), actions[1..])
  }

  method Run(w: World, actions: seq<Action>) returns (after: World)
    ensures after == PerformAll(w, actions)
  {
    after := w;
    for i := 0 to |actions|
      invariant PerformAll(w, actions) == PerformAll(after, actions[i..])
    {
      assert actions[i..][1..] == actions[i + 1..];
      after := Perform(after, actions[i]);
    }
  }

  function Obey(w: World, d: Decision): World {
    PerformAll(w.(core := d.core), d.actions)
  }

  function EmptiedCache(w: World): World {
    w.(relays := map[])
  }

  predicate Enabled(w: World, e: Event) {
    match e
    case AskUnpair(id, _) => IsNew(w, id)
    case Knock(id, _) => IsNew(w, id)
    case Verdict(id) => id in w.pending
    case JoinViewer(id) => IsNew(w, id)
    case Speak(id, _) => id in w.sockets
    case Leave(id) => id in w.sockets
    case WakeUp => w.alarmAt.Some?
    case Hibernate => w.pending == map[]
    case _ => true
  }

  predicate IsNew(w: World, id: string) {
    id !in w.sockets && id !in w.pending
  }

  const FRESH_DESK: Socket := Socket(true, None, None, map[], None, 0)
  const FRESH_VIEWER: Socket := Socket(false, None, None, map[], None, 0)

  /** Does this token open the room as it is paired now? */
  predicate Opens(w: World, digest: string) {
    w.core.pairing.Some? && w.core.pairing.value.deskTokenHash == digest
  }

  /** The upgrade will be accepted, whatever has happened to the room since it was read. */
  predicate Welcome(p: Pending) {
    p.Upgrade? && p.opens && !p.sawDesk
  }

  predicate AdmitsViewer(w: World) {
    w.core.pairing.Some? && !Full(|Viewers(w)|)
  }

  function Step(w0: World, e: Event): World
    requires Enabled(w0, e)
  {
    var w := Loaded(w0);
    match e
    case Hibernate => EmptiedCache(w0).(core := EMPTY, loaded := false)
    case Tick(ms) => w0.(clock := w0.clock + ms)
    case Claim(hash) => OnClaim(w, hash)
    case AskUnpair(id, digest) =>
      if w.core.pairing.None? then w else w.(pending := w.pending[id := Removal(Opens(w, digest))])
    case Knock(id, digest) =>
      if w.core.pairing.None? then w else w.(pending := w.pending[id := Upgrade(Desks(w) != {}, Opens(w, digest))])
    case Verdict(id) => OnVerdict(w, id)
    case JoinViewer(id) => if AdmitsViewer(w) then OnViewer(w, id) else w
    case Speak(id, data) =>
      if w.sockets[id].desk then OnFrame(w, data) else PerformAll(w, ViewerMessage(id, data))
    case Leave(id) => OnLeave(w, id)
    case WakeUp => OnWake(w.(alarmAt := None))
  }

  function OnClaim(w: World, hash: string): World {
    var d := Create(w.core, hash, w.clock);
    if d.None? then w else Obey(w, d.value).(contacts := [w.clock])
  }

  function OnDestroy(w: World): World {
    EmptiedCache(Obey(w, Destroy(w.core)))
  }

  function OnVerdict(w: World, id: string): World
    requires id in w.pending
  {
    var rest := w.(pending := w.pending - {id});
    if Welcome(w.pending[id]) then OnDesk(rest, id)
    else if w.pending[id].Removal? && w.pending[id].opens then OnDestroy(rest)
    else rest
  }

  function OnDesk(w: World, id: string): World {
    var joined := Seated(w, id);
    Obey(joined, AttachDesk(joined.core, Now(joined)))
  }

  /** The room with this desk in it. */
  function Seated(w: World, id: string): World {
    var joined := w.(sockets := w.sockets[id := FRESH_DESK]);
    if w.core.pairing.Some? then
      joined.(contacts := w.contacts + [w.clock], orphans := w.orphans - {id})
    else joined.(orphans := w.orphans + {id})
  }

  function OnViewer(w: World, id: string): World {
    var joined := w.(sockets := w.sockets[id := FRESH_VIEWER]);
    PerformAll(joined, AttachViewer(joined.core, id, Now(joined)))
  }

  function OnFrame(w: World, data: Data): World {
    var next := Obey(w, DeskMessage(w.core, data, w.clock));
    if Relays(w.core, data, w.clock) then
      var c := data.channel.value;
      next.(relays := w.relays[c := Times(w.relays, c) + [w.clock]])
    else next
  }

  function Times(relays: map<Channel, seq<int>>, c: Channel): seq<int> {
    if c in relays then relays[c] else []
  }

  function OnLeave(w: World, id: string): World
    requires id in w.sockets
  {
    var left := Without(w, id);
    PerformAll(left, if w.sockets[id].desk then DetachDesk() else DetachViewer(Now(left)))
  }

  function Without(w: World, id: string): World
    requires id in w.sockets
  {
    w.(sockets := w.sockets - {id}, orphans := w.orphans - {id})
  }

  function OnWake(w: World): World {
    var d := OnAlarm(w.core, w.clock);
    if w.core.pairing.Some? && d.core.pairing.None? then OnDestroy(w) else Obey(w, d)
  }

  /** The world a run of events reaches, or None when an event could not have happened. */
  function Exec(clock: int, events: seq<Event>): Option<World> {
    if events == [] then Some(Init(clock))
    else
      var before := Exec(clock, events[..|events| - 1]);
      var last := events[|events| - 1];
      if before.Some? && Enabled(before.value, last) then Some(Step(before.value, last)) else None
  }

  // ------------------------------------------------------------------------------------ the invariants

  /** Memory and storage hold the same pairing, so reading it back after a hibernation changes nothing. */
  predicate StoreInv(w: World) {
    if w.loaded then w.core.pairing == w.stored else w.core == EMPTY && w.pending == map[]
  }

  /** A live pairing has its alarm at exactly its last contact plus the TTL. */
  predicate AlarmInv(w: World) {
    w.stored.Some? ==>
      && w.contacts != [] && w.stored.value.lastDeskAt == w.contacts[|w.contacts| - 1]
      && (forall i :: 0 <= i < |w.contacts| ==> w.contacts[i] <= w.stored.value.lastDeskAt)
      && w.stored.value.lastDeskAt <= w.clock
      && w.alarmAt == Some(w.stored.value.lastDeskAt + PHONE_ROOM_TTL_MS)
  }

  ghost predicate CacheInv(w: World) {
    && DistinctChannels(w.core.latest)
    && forall c, t :: Caches(w.core.latest, c, t) ==> c in w.forwarded && w.forwarded[c] == t
  }

  /** The viewer cap holds, and an unpaired room has no open phone. */
  predicate SeatsInv(w: World) {
    && |Viewers(w)| <= PHONE_MAX_VIEWERS
    && (w.stored.None? ==> forall id :: id in w.sockets && !w.sockets[id].desk ==> w.sockets[id].closing)
  }

  predicate HeldIsLast(held: map<Channel, string>, forwarded: map<Channel, string>) {
    forall c :: c in held ==> c in forwarded && forwarded[c] == held[c]
  }

  /** What there is to know in a room, and whether its phones may have been misled about the desk. */
  datatype Truth = Truth(deskOnline: bool, viewers: nat, forwarded: map<Channel, string>, misled: bool, orphans: set<string>)

  function TruthOf(w: World, misled: bool): Truth {
    Truth(Desks(w) != {}, |Viewers(w)|, w.forwarded, misled, w.orphans)
  }

  /**
   * What an open socket has been told is true, of the frames and the desk for a phone and of the count for a desk;
   * but misled phones may think that no desk is there, and an orphan may have been told nothing.
   */
  predicate Knows(s: Socket, id: string, truth: Truth) {
    !s.closing ==>
      if s.desk then s.told == Some(truth.viewers) || (id in truth.orphans && s.told == None)
      else
        && (s.presence == Some(truth.deskOnline) || (truth.misled && truth.deskOnline && s.presence == Some(false)))
        && HeldIsLast(s.held, truth.forwarded)
  }

  ghost predicate KnowledgeInv(w: World, misled: bool) {
    forall id :: id in w.sockets ==> Knows(w.sockets[id], id, TruthOf(w, misled))
  }

  predicate Gapped(times: seq<int>) {
    forall i :: 0 <= i < |times| - 1 ==> times[i] + PHONE_MIN_FRAME_GAP_MS <= times[i + 1]
  }

  predicate RateInvAt(w: World, c: Channel) {
    var times := Times(w.relays, c);
    && Gapped(times)
    && (c in w.core.sentAt <==> times != [])
    && (times != [] ==> w.core.sentAt[c] == times[|times| - 1] && times[|times| - 1] <= w.clock)
  }

  ghost predicate RateInv(w: World) {
    forall c: Channel :: RateInvAt(w, c)
  }

  /** No socket bears the name of a request that still waits. */
  predicate NamesApart(w: World) {
    forall id :: id in w.pending ==> id !in w.sockets
  }

  predicate RoomInv(w: World) {
    StoreInv(w) && NamesApart(w) && AlarmInv(w) && SeatsInv(w)
  }

  ghost predicate FeedInv(w: World) {
    CacheInv(w) && RateInv(w)
  }

  /** One desk leaves while another stays: the phones then hear that there is none. */
  predicate LeavesADesk(w: World, e: Event) {
    e.Leave? && e.id in Desks(w) && Desks(w) != {e.id}
  }

  ghost predicate Inv(w: World, misled: bool) {
    RoomInv(w) && FeedInv(w) && KnowledgeInv(w, misled)
  }

  // ---------------------------------------------------------------- what a list of actions does

  /** One socket's way through a list of actions. */
  function After(s: Socket, id: string, actions: seq<Action>): Socket
    decreases |actions|
  {
    if actions == [] then s else After(React(s, id, actions[0]), id, actions[1..])
  }

  /** The last pairing saved, the last alarm set and the last frame forwarded by a list of actions. */
  function StoredAfter(stored: Option<Pairing>, actions: seq<Action>): Option<Pairing>
    decreases |actions|
  {
    if actions == [] then stored
    else StoredAfter(if actions[0].Save? then actions[0].pairing else stored, actions[1..])
  }

  function AlarmAfter(at: Option<int>, actions: seq<Action>): Option<int>
    decreases |actions|
  {
    if actions == [] then at else AlarmAfter(if actions[0].Alarm? then Some(actions[0].at) else at, actions[1..])
  }

  function ForwardedAfter(f: map<Channel, string>, actions: seq<Action>): map<Channel, string>
    decreases |actions|
  {
    if actions == [] then f
    else
      var a := actions[0];
      ForwardedAfter(if a.Send? && a.target.ToViewers? && a.message.Frame? then f[a.message.channel := a.message.text] else f, actions[1..])
  }

  /** Performing a list touches what the three folds say, the sockets, and nothing else; it seats nobody. */
  lemma PerformFrame(w: World, a: Action)
    ensures var t := Perform(w, a);
      t == w.(sockets := t.sockets, stored := t.stored, alarmAt := t.alarmAt, forwarded := t.forwarded)
      && t.sockets.Keys == w.sockets.Keys
  {
  }

  lemma {:induction false} PerformAllFrame(w: World, actions: seq<Action>)
    ensures var t := PerformAll(w, actions);
      && t == w.(sockets := t.sockets, stored := StoredAfter(w.stored, actions),
                 alarmAt := AlarmAfter(w.alarmAt, actions), forwarded := ForwardedAfter(w.forwarded, actions))
      && t.sockets.Keys == w.sockets.Keys
    decreases |actions|
  {
    if actions != [] {
      PerformFrame(w, actions[0]);
      PerformAllFrame(Perform(w, actions[0]), actions[1..]);
    }
  }

  /** Sockets are independent: in a performed list each socket goes its own way. */
  lemma {:induction false} PerformAllSocket(w: World, actions: seq<Action>, id: string)
    requires id in w.sockets
    ensures id in PerformAll(w, actions).sockets
    ensures PerformAll(w, actions).sockets[id] == After(w.sockets[id], id, actions)
    decreases |actions|
  {
    if actions != [] {
      PerformAllSocket(Perform(w, actions[0]), actions[1..], id);
    }
  }

  lemma {:induction false} AfterKeepsSeat(s: Socket, id: string, actions: seq<Action>)
    ensures After(s, id, actions).desk == s.desk
    decreases |actions|
  {
    if actions != [] { AfterKeepsSeat(React(s, id, actions[0]), id, actions[1..]); }
  }

  lemma PerformAllKeepsSeats(w: World, actions: seq<Action>)
    ensures Desks(PerformAll(w, actions)) == Desks(w) && Viewers(PerformAll(w, actions)) == Viewers(w)
  {
    PerformAllFrame(w, actions);
    forall id | id in w.sockets ensures PerformAll(w, actions).sockets[id].desk == w.sockets[id].desk {
      PerformAllSocket(w, actions, id);
      AfterKeepsSeat(w.sockets[id], id, actions);
    }
  }

  lemma {:induction false} AfterAppend(s: Socket, id: string, a: seq<Action>, b: seq<Action>)
    ensures After(s, id, a + b) == After(After(s, id, a), id, b)
    decreases |a|
  {
    if a == [] {
      assert a + b == b;
    } else {
      assert (a + b)[1..] == a[1..] + b;
      AfterAppend(React(s, id, a[0]), id, a[1..], b);
    }
  }

  lemma {:induction false} ClosingIsDeaf(s: Socket, id: string, actions: seq<Action>)
    requires s.closing
    ensures After(s, id, actions) == s
    decreases |actions|
  {
    if actions != [] { ClosingIsDeaf(React(s, id, actions[0]), id, actions[1..]); }
  }

  /** Knowledge after a list is knowledge of each socket after the list. */
  lemma KnowledgeAfter(w: World, actions: seq<Action>, misled: bool)
    requires forall id :: id in w.sockets ==>
      Knows(After(w.sockets[id], id, actions), id, TruthOf(w, misled).(forwarded := ForwardedAfter(w.forwarded, actions)))
    ensures KnowledgeInv(PerformAll(w, actions), misled)
  {
    PerformAllFrame(w, actions);
    PerformAllKeepsSeats(w, actions);
    forall id | id in w.sockets
      ensures PerformAll(w, actions).sockets[id] == After(w.sockets[id], id, actions)
    {
      PerformAllSocket(w, actions, id);
    }
  }

  /** A list that does not unpair a paired room leaves the seats in order. */
  lemma SeatsAfter(w: World, actions: seq<Action>)
    requires SeatsInv(w) && (StoredAfter(w.stored, actions).None? ==> w.stored.None?)
    ensures SeatsInv(PerformAll(w, actions))
    ensures Desks(PerformAll(w, actions)) == Desks(w) && Viewers(PerformAll(w, actions)) == Viewers(w)
  {
    var t := PerformAll(w, actions);
    PerformAllFrame(w, actions);
    PerformAllKeepsSeats(w, actions);
    if t.stored.None? {
      forall id | id in t.sockets && !t.sockets[id].desk ensures t.sockets[id].closing {
        PerformAllSocket(w, actions, id);
        AfterKeepsSeat(w.sockets[id], id, actions);
        ClosingIsDeaf(w.sockets[id], id, actions);
      }
    }
  }

  // ------------------------------------------------------------------------------- preservation, event by event

  /** Cache and rate clocks are in order as long as nobody touches them and the clock does not go back. */
  lemma FeedFrame(w: World, t: World)
    requires FeedInv(w) && t.core.latest == w.core.latest && t.core.sentAt == w.core.sentAt
    requires t.forwarded == w.forwarded && t.relays == w.relays && w.clock <= t.clock
    ensures FeedInv(t)
  {
    forall c: Channel ensures RateInvAt(t, c) { assert RateInvAt(w, c); }
  }

  lemma LoadedKeepsInv(w: World, misled: bool)
    requires Inv(w, misled)
    ensures Inv(Loaded(w), misled) && Loaded(w).loaded
  {
    FeedFrame(w, Loaded(w));
  }

  /** A list that saves nothing, sets no alarm and forwards no frame leaves all but the sockets alone. */
  predicate OnlyTalks(actions: seq<Action>) {
    forall a :: a in actions ==> !a.Save? && !a.Alarm? && !(a.Send? && a.target.ToViewers? && a.message.Frame?)
  }

  lemma {:induction false} TalkingLeavesTheRest(w: World, actions: seq<Action>)
    requires OnlyTalks(actions)
    ensures StoredAfter(w.stored, actions) == w.stored && AlarmAfter(w.alarmAt, actions) == w.alarmAt
    ensures ForwardedAfter(w.forwarded, actions) == w.forwarded
    decreases |actions|
  {
    if actions != [] {
      forall a | a in actions[1..] ensures a in actions {}
      TalkingLeavesTheRest(w, actions[1..]);
    }
  }

  /** A talking list keeps the invariants of a world whose sockets will all know the truth after it. */
  lemma TalkKeepsInv(w: World, actions: seq<Action>, misled: bool)
    requires RoomInv(w) && FeedInv(w) && OnlyTalks(actions)
    requires forall id :: id in w.sockets ==> Knows(After(w.sockets[id], id, actions), id, TruthOf(w, misled))
    ensures Inv(PerformAll(w, actions), misled)
  {
    TalkingLeavesTheRest(w, actions);
    TalkKeepsRoom(w, actions);
    KnowledgeAfter(w, actions, misled);
  }

  lemma TalkKeepsRoom(w: World, actions: seq<Action>)
    requires RoomInv(w) && FeedInv(w) && OnlyTalks(actions)
    ensures RoomInv(PerformAll(w, actions)) && FeedInv(PerformAll(w, actions))
  {
    TalkingLeavesTheRest(w, actions);
    PerformAllFrame(w, actions);
    SeatsAfter(w, actions);
    FeedFrame(w, PerformAll(w, actions));
  }

  /** A save followed by an alarm, at the head of a list. */
  lemma SaveAndAlarm(w: World, pairing: Option<Pairing>, at: int, rest: seq<Action>)
    ensures StoredAfter(w.stored, [Save(pairing), Alarm(at)] + rest) == StoredAfter(pairing, rest)
    ensures AlarmAfter(w.alarmAt, [Save(pairing), Alarm(at)] + rest) == AlarmAfter(Some(at), rest)
    ensures ForwardedAfter(w.forwarded, [Save(pairing), Alarm(at)] + rest) == ForwardedAfter(w.forwarded, rest)
  {
    var actions := [Save(pairing), Alarm(at)] + rest;
    var alarm := [Alarm(at)] + rest;
    assert actions[1..] == alarm && alarm[1..] == rest;
    assert StoredAfter(w.stored, actions) == StoredAfter(pairing, alarm);
    assert AlarmAfter(w.alarmAt, actions) == AlarmAfter(w.alarmAt, alarm);
    assert ForwardedAfter(w.forwarded, actions) == ForwardedAfter(w.forwarded, alarm);
  }

  lemma SaveAndAlarmAreSilent(s: Socket, id: string, pairing: Option<Pairing>, at: int, rest: seq<Action>)
    ensures After(s, id, [Save(pairing), Alarm(at)] + rest) == After(s, id, rest)
  {
    var actions := [Save(pairing), Alarm(at)] + rest;
    var alarm := [Alarm(at)] + rest;
    assert actions[1..] == alarm && alarm[1..] == rest;
    assert After(s, id, actions) == After(s, id, alarm);
  }

  /** Two messages, or two closes, one after the other. */
  lemma TwoReactions(s: Socket, id: string, a: Action, b: Action)
    ensures After(s, id, [a, b]) == React(React(s, id, a), id, b)
  {
    var first := React(s, id, a);
    assert [a, b][1..] == [b] && [b][1..] == [];
    assert After(s, id, [a, b]) == After(first, id, [b]);
    assert After(first, id, [b]) == After(React(first, id, b), id, []);
  }

  lemma ClaimKeepsInv(w: World, hash: string, misled: bool)
    requires Inv(w, misled) && w.loaded
    ensures Inv(OnClaim(w, hash), misled)
  {
    if w.core.pairing.None? {
      var d := Create(w.core, hash, w.clock).value;
      var b := w.(core := d.core);
      SaveAndAlarm(b, d.core.pairing, w.clock + PHONE_ROOM_TTL_MS, []);
      assert d.actions == [Save(d.core.pairing), Alarm(w.clock + PHONE_ROOM_TTL_MS)] + [];
      PerformAllFrame(b, d.actions);
      PerformAllKeepsSeats(b, d.actions);
      forall id | id in b.sockets ensures After(b.sockets[id], id, d.actions) == b.sockets[id] {
        SaveAndAlarmAreSilent(b.sockets[id], id, d.core.pairing, w.clock + PHONE_ROOM_TTL_MS, []);
      }
      KnowledgeAfter(b, d.actions, misled);
      FeedFrame(w, OnClaim(w, hash));
    }
  }

  lemma DestroyKeepsInv(w: World, misled: bool)
    requires SeatsInv(w) && NamesApart(w) && w.loaded
    ensures Inv(OnDestroy(w), misled) && OnDestroy(w).stored == None
    ensures forall id :: id in OnDestroy(w).sockets ==> OnDestroy(w).sockets[id].closing
  {
    var t := OnDestroy(w);
    DestroyCloses(w);
    assert FeedInv(t) && KnowledgeInv(t, misled);
    assert RoomInv(t);
  }

  /** A socket's first close code is the one that counts. */
  function CodeOr(s: Socket, code: nat): Option<nat> {
    if s.closing then s.code else Some(code)
  }

  lemma DestroyCloses(w: World)
    ensures var t := OnDestroy(w);
      && t == w.(core := EMPTY, stored := None, relays := map[], sockets := t.sockets)
      && t.sockets.Keys == w.sockets.Keys
      && (forall id :: id in t.sockets ==> t.sockets[id].closing && t.sockets[id].code == CodeOr(w.sockets[id], UNPAIRED))
      && Desks(t) == Desks(w) && Viewers(t) == Viewers(w)
  {
    var d := Destroy(w.core);
    var b := w.(core := d.core);
    var t := PerformAll(b, d.actions);
    var closes := [Close(ToViewers, UNPAIRED), Close(ToDesk, UNPAIRED)];
    assert d.actions[1..] == closes && OnlyTalks(closes);
    TalkingLeavesTheRest(Perform(b, Save(None)), closes);
    PerformAllFrame(b, d.actions);
    PerformAllKeepsSeats(b, d.actions);
    forall id | id in b.sockets ensures t.sockets[id].code == CodeOr(b.sockets[id], UNPAIRED) {
      PerformAllSocket(b, d.actions, id);
      TwoReactions(b.sockets[id], id, closes[0], closes[1]);
    }
  }

  /** The desk's attach list: phones hear that it is there, it hears how many they are. */
  lemma DeskAttachAfter(w: World, ctx: RoomNow)
    requires w.core.pairing.Some?
    ensures var actions := AttachDesk(w.core, ctx).actions;
      && StoredAfter(w.stored, actions) == Some(w.core.pairing.value.(lastDeskAt := ctx.now))
      && AlarmAfter(w.alarmAt, actions) == Some(ctx.now + PHONE_ROOM_TTL_MS)
      && ForwardedAfter(w.forwarded, actions) == w.forwarded
      && (forall s: Socket, id: string :: !s.closing ==>
            After(s, id, actions) == if s.desk then s.(told := Some(ctx.viewers)) else s.(presence := Some(true)))
  {
    var pairing := Some(w.core.pairing.value.(lastDeskAt := ctx.now));
    var talk := [Send(ToViewers, Presence(true)), Send(ToDesk, ViewerCount(ctx.viewers))];
    var actions := AttachDesk(w.core, ctx).actions;
    assert actions == [Save(pairing), Alarm(ctx.now + PHONE_ROOM_TTL_MS)] + talk;
    SaveAndAlarm(w, pairing, ctx.now + PHONE_ROOM_TTL_MS, talk);
    assert OnlyTalks(talk);
    TalkingLeavesTheRest(w.(stored := pairing, alarmAt := Some(ctx.now + PHONE_ROOM_TTL_MS)), talk);
    forall s: Socket, id: string | !s.closing
      ensures After(s, id, actions) == if s.desk then s.(told := Some(ctx.viewers)) else s.(presence := Some(true))
    {
      SaveAndAlarmAreSilent(s, id, pairing, ctx.now + PHONE_ROOM_TTL_MS, talk);
      TwoReactions(s, id, talk[0], talk[1]);
    }
  }

  lemma DeskKeepsInv(w: World, id: string, misled: bool)
    requires Inv(w, misled) && w.loaded && id !in w.sockets && id !in w.pending
    ensures Inv(OnDesk(w, id), misled)
  {
    if w.core.pairing.Some? {
      DeskJoinsPairedRoom(w, id);
      DeskJoinKnowledge(w, id, misled);
      RightIsNotMisled(OnDesk(w, id));
    } else {
      DeskJoinsUnpairedRoom(w, id, misled);
    }
  }

  lemma RightIsNotMisled(w: World)
    requires KnowledgeInv(w, false)
    ensures KnowledgeInv(w, true)
  {
    forall id | id in w.sockets ensures Knows(w.sockets[id], id, TruthOf(w, true)) {
      assert Knows(w.sockets[id], id, TruthOf(w, false));
    }
  }

  lemma DeskSeats(w: World, id: string)
    requires id !in w.sockets
    ensures Viewers(Seated(w, id)) == Viewers(w) && Desks(Seated(w, id)) == Desks(w) + {id}
    ensures Seated(w, id).sockets == w.sockets[id := FRESH_DESK]
  {
    JoinedSeats(w.sockets, id, FRESH_DESK);
  }

  lemma JoinedSeats(sockets: map<string, Socket>, id: string, s: Socket)
    requires id !in sockets
    ensures DesksIn(sockets[id := s]) == if s.desk then DesksIn(sockets) + {id} else DesksIn(sockets)
    ensures ViewersIn(sockets[id := s]) == if s.desk then ViewersIn(sockets) else ViewersIn(sockets) + {id}
  {
  }

  lemma LeftSeats(sockets: map<string, Socket>, id: string)
    ensures DesksIn(sockets - {id}) == DesksIn(sockets) - {id} && ViewersIn(sockets - {id}) == ViewersIn(sockets) - {id}
  {
  }

  /** Nobody hears of a desk that joins an unpaired room, and there is no open phone to hear of it. */
  lemma DeskJoinsUnpairedRoom(w: World, id: string, misled: bool)
    requires Inv(w, misled) && w.loaded && id !in w.sockets && id !in w.pending && w.core.pairing.None?
    ensures Inv(OnDesk(w, id), misled)
  {
    var t := Seated(w, id);
    DeskSeats(w, id);
    assert OnDesk(w, id) == t;
    forall x | x in t.sockets ensures Knows(t.sockets[x], x, TruthOf(t, misled)) {
      if x != id { assert Knows(w.sockets[x], x, TruthOf(w, misled)); }
    }
    FeedFrame(w, t);
  }

  lemma DeskJoinsPairedRoom(w: World, id: string)
    requires RoomInv(w) && FeedInv(w) && w.loaded && id !in w.sockets && id !in w.pending && w.core.pairing.Some?
    ensures RoomInv(OnDesk(w, id)) && FeedInv(OnDesk(w, id))
  {
    var joined := Seated(w, id);
    var d := AttachDesk(joined.core, Now(joined));
    var b := joined.(core := d.core);
    DeskSeats(w, id);
    DeskAttachAfter(joined, Now(joined));
    PerformAllFrame(b, d.actions);
    assert Viewers(b) == Viewers(w);
    SeatsAfter(b, d.actions);
    FeedFrame(w, OnDesk(w, id));
  }

  /** A desk that joins a paired room sets every phone right. */
  lemma DeskJoinKnowledge(w: World, id: string, misled: bool)
    requires KnowledgeInv(w, misled) && id !in w.sockets && w.core.pairing.Some?
    ensures KnowledgeInv(OnDesk(w, id), false)
  {
    var joined := Seated(w, id);
    var d := AttachDesk(joined.core, Now(joined));
    var b := joined.(core := d.core);
    DeskSeats(w, id);
    assert Viewers(b) == Viewers(w) && Desks(b) == Desks(w) + {id};
    DeskAttachAfter(joined, Now(joined));
    forall x | x in b.sockets ensures Knows(After(b.sockets[x], x, d.actions), x, TruthOf(b, false)) {
      if b.sockets[x].closing {
        ClosingIsDeaf(b.sockets[x], x, d.actions);
      } else if x != id {
        assert Knows(w.sockets[x], x, TruthOf(w, misled));
      }
    }
    KnowledgeAfter(b, d.actions, false);
  }

  /** The replay as its socket hears it: the cached frames on top of what it held, and nothing else. */
  lemma {:induction false} ReplayAfter(s: Socket, id: string, latest: seq<Cached>, forwarded: map<Channel, string>)
    requires !s.closing && HeldIsLast(s.held, forwarded)
    requires forall i :: 0 <= i < |latest| ==> latest[i].channel in forwarded && forwarded[latest[i].channel] == latest[i].text
    ensures var t := After(s, id, Replay(latest, id));
      && t == s.(held := t.held) && HeldIsLast(t.held, forwarded)
      && t.held.Keys == s.held.Keys + ChannelsOf(latest)
    decreases |latest|
  {
    if latest != [] {
      var rest := latest[1..];
      assert Replay(latest, id)[1..] == Replay(rest, id);
      var next := React(s, id, Replay(latest, id)[0]);
      ReplayAfter(next, id, rest, forwarded);
      assert latest == [latest[0]] + rest;
      ChannelsOfCons(latest[0], rest);
    }
  }

  lemma {:induction false} ReplayPassesBy(s: Socket, x: string, id: string, latest: seq<Cached>)
    requires x != id
    ensures After(s, x, Replay(latest, id)) == s
    decreases |latest|
  {
    if latest != [] {
      assert Replay(latest, id)[1..] == Replay(latest[1..], id);
      ReplayPassesBy(s, x, id, latest[1..]);
    }
  }

  /** The whole attach list, as one socket goes through it. */
  lemma AttachAfter(s: Socket, x: string, core: Core, id: string, ctx: RoomNow)
    ensures var count := if ctx.deskOnline then [Send(ToDesk, ViewerCount(ctx.viewers))] else [];
      var nudge := if ctx.deskOnline && |core.latest| < CHANNELS then [Send(ToDesk, Resend)] else [];
      After(s, x, AttachViewer(core, id, ctx))
      == After(After(After(React(s, x, Send(ToSocket(id), Presence(ctx.deskOnline))), x, Replay(core.latest, id)), x, count), x, nudge)
  {
    var first := [Send(ToSocket(id), Presence(ctx.deskOnline))];
    var frames := Replay(core.latest, id);
    var count := if ctx.deskOnline then [Send(ToDesk, ViewerCount(ctx.viewers))] else [];
    var nudge := if ctx.deskOnline && |core.latest| < CHANNELS then [Send(ToDesk, Resend)] else [];
    AfterAppend(s, x, first + frames + count, nudge);
    AfterAppend(s, x, first + frames, count);
    AfterAppend(s, x, first, frames);
    assert first[1..] == [];
  }

  lemma CacheIsForwarded(w: World)
    requires CacheInv(w)
    ensures forall i :: 0 <= i < |w.core.latest| ==>
      w.core.latest[i].channel in w.forwarded && w.forwarded[w.core.latest[i].channel] == w.core.latest[i].text
  {
    forall i | 0 <= i < |w.core.latest|
      ensures w.core.latest[i].channel in w.forwarded && w.forwarded[w.core.latest[i].channel] == w.core.latest[i].text
    {
      assert Caches(w.core.latest, w.core.latest[i].channel, w.core.latest[i].text);
    }
  }

  lemma NewViewerKnows(w: World, id: string)
    requires CacheInv(w)
    ensures var t := After(FRESH_VIEWER, id, AttachViewer(w.core, id, Now(w)));
      && !t.closing && t.presence == Some(Desks(w) != {}) && HeldIsLast(t.held, w.forwarded)
      && t.held.Keys == ChannelsOf(w.core.latest) && !t.desk
  {
    CacheIsForwarded(w);
    var heard := React(FRESH_VIEWER, id, Send(ToSocket(id), Presence(Desks(w) != {})));
    AttachAfter(FRESH_VIEWER, id, w.core, id, Now(w));
    ReplayAfter(heard, id, w.core.latest, w.forwarded);
  }

  /** Anybody else, during an attach: viewers hear nothing; a desk hears the count, and the nudge if the cache is short. */
  lemma BystanderKnows(s: Socket, x: string, w: World, id: string)
    requires x != id && !s.closing
    ensures After(s, x, AttachViewer(w.core, id, Now(w)))
      == if s.desk && Desks(w) != {}
         then s.(told := Some(|Viewers(w)|), nudges := s.nudges + (if |w.core.latest| < CHANNELS then 1 else 0))
         else s
  {
    AttachAfter(s, x, w.core, id, Now(w));
    ReplayPassesBy(s, x, id, w.core.latest);
  }

  lemma ViewerKeepsInv(w: World, id: string, misled: bool)
    requires Inv(w, misled) && w.loaded && id !in w.sockets && id !in w.pending && AdmitsViewer(w)
    ensures Inv(OnViewer(w, id), misled)
  {
    var joined := w.(sockets := w.sockets[id := FRESH_VIEWER]);
    JoinedSeats(w.sockets, id, FRESH_VIEWER);
    var actions := AttachViewer(joined.core, id, Now(joined));
    AttachOnlyTalks(joined.core, id, Now(joined));
    forall x | x in joined.sockets
      ensures Knows(After(joined.sockets[x], x, actions), x, TruthOf(joined, misled))
    {
      if x == id {
        NewViewerKnows(joined, id);
      } else if joined.sockets[x].closing {
        ClosingIsDeaf(joined.sockets[x], x, actions);
      } else {
        assert Knows(w.sockets[x], x, TruthOf(w, misled));
        assert w.sockets[x].desk ==> x in Desks(w);
        BystanderKnows(joined.sockets[x], x, joined, id);
      }
    }
    FeedFrame(w, joined);
    TalkKeepsInv(joined, actions, misled);
  }

  lemma AttachOnlyTalks(core: Core, id: string, ctx: RoomNow)
    ensures OnlyTalks(AttachViewer(core, id, ctx))
  {
    forall a | a in Replay(core.latest, id) ensures a.Send? && a.target == ToSocket(id) {
      var i :| 0 <= i < |core.latest| && Replay(core.latest, id)[i] == a;
    }
  }

  lemma FrameKeepsInv(w: World, data: Data, misled: bool)
    requires Inv(w, misled) && w.loaded
    ensures Inv(OnFrame(w, data), misled)
  {
    var d := DeskMessage(w.core, data, w.clock);
    if Relays(w.core, data, w.clock) {
      RelayKeepsInv(w, data, misled);
    } else {
      assert w.(core := d.core) == w;
      forall id | id in w.sockets
        ensures Knows(After(w.sockets[id], id, d.actions), id, TruthOf(w, misled))
      {
        assert Knows(w.sockets[id], id, TruthOf(w, misled));
        if d.actions != [] { assert d.actions[1..] == []; }
      }
      TalkKeepsInv(w, d.actions, misled);
    }
  }

  lemma RelayKeepsInv(w: World, data: Data, misled: bool)
    requires Inv(w, misled) && w.loaded && Relays(w.core, data, w.clock)
    ensures Inv(OnFrame(w, data), misled)
  {
    var c := data.channel.value;
    var d := DeskMessage(w.core, data, w.clock);
    var b := w.(core := d.core);
    var f := w.forwarded[c := data.text];
    assert d.actions[1..] == [];
    assert ForwardedAfter(w.forwarded, d.actions) == f;
    PerformAllKeepsSeats(b, d.actions);
    forall id | id in b.sockets ensures Knows(After(b.sockets[id], id, d.actions), id, TruthOf(b, misled).(forwarded := f)) {
      assert Knows(w.sockets[id], id, TruthOf(w, misled));
    }
    KnowledgeAfter(b, d.actions, misled);
    assert TruthOf(OnFrame(w, data), misled) == TruthOf(PerformAll(b, d.actions), misled);
    RelayKeepsRoom(w, data);
    RelayKeepsFeed(w, data);
  }

  lemma RelayKeepsRoom(w: World, data: Data)
    requires RoomInv(w) && w.loaded && Relays(w.core, data, w.clock)
    ensures RoomInv(OnFrame(w, data))
  {
    var d := DeskMessage(w.core, data, w.clock);
    var b := w.(core := d.core);
    assert d.actions[1..] == [];
    PerformAllFrame(b, d.actions);
    SeatsAfter(b, d.actions);
  }

  lemma RelayKeepsFeed(w: World, data: Data)
    requires FeedInv(w) && Relays(w.core, data, w.clock)
    ensures FeedInv(OnFrame(w, data))
  {
    var c := data.channel.value;
    var d := DeskMessage(w.core, data, w.clock);
    assert d.actions[1..] == [];
    PerformAllFrame(w.(core := d.core), d.actions);
    PutReplacesOne(w.core.latest, c, data.text);
    var t := OnFrame(w, data);
    forall x: Channel ensures RateInvAt(t, x) {
      assert RateInvAt(w, x);
      if x == c {
        var times := Times(w.relays, c);
        assert Times(t.relays, c) == times + [w.clock];
      }
    }
  }

  lemma MutterKeepsInv(w: World, id: string, data: Data, misled: bool)
    requires Inv(w, misled) && w.loaded
    ensures Inv(PerformAll(w, ViewerMessage(id, data)), misled)
  {
    var actions := ViewerMessage(id, data);
    forall x | x in w.sockets
      ensures Knows(After(w.sockets[x], x, actions), x, TruthOf(w, misled))
    {
      assert Knows(w.sockets[x], x, TruthOf(w, misled));
      if actions != [] { assert actions[1..] == []; }
    }
    TalkKeepsInv(w, actions, misled);
  }

  lemma LeaveSeats(w: World, id: string)
    requires SeatsInv(w) && id in w.sockets
    ensures var left := Without(w, id);
      && SeatsInv(left) && Desks(left) == Desks(w) - {id} && Viewers(left) == Viewers(w) - {id}
      && (id in Desks(w) <==> w.sockets[id].desk) && (id in Viewers(w) <==> !w.sockets[id].desk)
  {
    LeftSeats(w.sockets, id);
    SubsetCardinality(Viewers(w) - {id}, Viewers(w));
  }

  /** Whoever stays hears of the departure, and what they hear is true unless it was one of several desks. */
  lemma StayersKnow(w: World, id: string, x: string, misled: bool)
    requires SeatsInv(w) && id in w.sockets && x in w.sockets && x != id && Knows(w.sockets[x], x, TruthOf(w, misled))
    ensures var left := Without(w, id);
      var actions := if w.sockets[id].desk then DetachDesk() else DetachViewer(Now(left));
      Knows(After(w.sockets[x], x, actions), x, TruthOf(left, misled || LeavesADesk(w, Leave(id))))
  {
    var left := Without(w, id);
    LeaveSeats(w, id);
    assert w.sockets[x].desk ==> x in Desks(w) - {id};
    LeaveReaction(w.sockets[x], x, w.sockets[id].desk, Now(left));
  }

  lemma LeaveKeepsInv(w: World, id: string, misled: bool)
    requires Inv(w, misled) && w.loaded && id in w.sockets
    ensures Inv(OnLeave(w, id), misled || LeavesADesk(w, Leave(id)))
  {
    var left := Without(w, id);
    var actions := if w.sockets[id].desk then DetachDesk() else DetachViewer(Now(left));
    LeaveKeepsRoom(w, id);
    LeaveReaction(w.sockets[id], id, w.sockets[id].desk, Now(left));
    forall x | x in left.sockets ensures Knows(After(left.sockets[x], x, actions), x, TruthOf(left, misled || LeavesADesk(w, Leave(id)))) {
      assert Knows(w.sockets[x], x, TruthOf(w, misled));
      StayersKnow(w, id, x, misled);
    }
    TalkKeepsInv(left, actions, misled || LeavesADesk(w, Leave(id)));
  }

  lemma LeaveKeepsRoom(w: World, id: string)
    requires RoomInv(w) && FeedInv(w) && id in w.sockets
    ensures RoomInv(Without(w, id)) && FeedInv(Without(w, id))
  {
    LeaveSeats(w, id);
    FeedFrame(w, Without(w, id));
  }

  /** What a departure says to a socket that stays. */
  lemma LeaveReaction(s: Socket, id: string, deskLeft: bool, ctx: RoomNow)
    ensures var actions := if deskLeft then DetachDesk() else DetachViewer(ctx);
      && OnlyTalks(actions)
      && After(s, id, actions)
         == if s.closing then s
            else if deskLeft then (if s.desk then s else s.(presence := Some(false)))
            else if s.desk && ctx.deskOnline then s.(told := Some(ctx.viewers)) else s
  {
    var actions := if deskLeft then DetachDesk() else DetachViewer(ctx);
    if actions != [] { assert actions[1..] == []; }
  }

  lemma WakeKeepsInv(w: World, misled: bool)
    requires Inv(w, misled) && w.loaded
    ensures Inv(OnWake(w.(alarmAt := None)), misled)
  {
    var a := w.(alarmAt := None);
    var d := OnAlarm(w.core, w.clock);
    if w.core.pairing.None? {
      assert OnWake(a) == a;
      FeedFrame(w, a);
    } else if d.core == w.core {
      RearmIsAll(w);
    } else {
      assert OnWake(a) == OnDestroy(a);
      DestroyKeepsInv(a, misled);
    }
  }

  /** An alarm that spares a live room leaves everything as it was before it fired. */
  lemma RearmIsAll(w: World)
    requires RoomInv(w) && w.loaded && w.stored.Some? && w.clock - w.stored.value.lastDeskAt < PHONE_ROOM_TTL_MS
    ensures OnWake(w.(alarmAt := None)) == w
  {
    var a := w.(alarmAt := None);
    var d := OnAlarm(w.core, w.clock);
    assert d.actions[1..] == [];
    assert AlarmAfter(a.alarmAt, d.actions) == Some(d.actions[0].at);
    PerformAllFrame(a, d.actions);
    assert PerformAll(a, d.actions).sockets == a.sockets;
  }

  lemma WaitingKeepsInv(w: World, pending: map<string, Pending>, misled: bool)
    requires Inv(w, misled) && w.loaded && forall id :: id in pending ==> id !in w.sockets
    ensures Inv(w.(pending := pending), misled)
  {
    var t := w.(pending := pending);
    assert TruthOf(t, misled) == TruthOf(w, misled);
    FeedFrame(w, t);
  }

  lemma VerdictKeepsInv(w: World, id: string, misled: bool)
    requires Inv(w, misled) && w.loaded && id in w.pending
    ensures Inv(OnVerdict(w, id), misled)
  {
    var rest := w.(pending := w.pending - {id});
    WaitingKeepsInv(w, w.pending - {id}, misled);
    if Welcome(w.pending[id]) {
      DeskKeepsInv(rest, id, misled);
    } else if w.pending[id].Removal? && w.pending[id].opens {
      DestroyKeepsInv(rest, misled);
    }
  }

  /** Every event keeps the invariants, and phones that were right about the desk stay right unless one of several leaves. */
  lemma StepKeepsInv(w: World, e: Event, misled: bool)
    requires Inv(w, misled) && Enabled(w, e)
    ensures Inv(Step(w, e), misled || LeavesADesk(w, e))
  {
    LoadedKeepsInv(w, misled);
    var l := Loaded(w);
    match e
    case Claim(hash) => ClaimKeepsInv(l, hash, misled);
    case AskUnpair(_, _) => AskingKeepsInv(w, e, misled);
    case Knock(_, _) => AskingKeepsInv(w, e, misled);
    case Verdict(id) => VerdictKeepsInv(l, id, misled);
    case JoinViewer(id) => if AdmitsViewer(l) { ViewerKeepsInv(l, id, misled); }
    case Speak(id, data) => if l.sockets[id].desk { FrameKeepsInv(l, data, misled); } else { MutterKeepsInv(l, id, data, misled); }
    case Leave(id) => LeaveKeepsInv(l, id, misled);
    case WakeUp => WakeKeepsInv(l, misled);
    case Hibernate => SleepKeepsInv(w, misled);
    case Tick(ms) => TickKeepsInv(w, ms, misled);
  }

  lemma AskingKeepsInv(w: World, e: Event, misled: bool)
    requires Inv(w, misled) && Enabled(w, e) && (e.AskUnpair? || e.Knock?)
    ensures Inv(Step(w, e), misled)
  {
    LoadedKeepsInv(w, misled);
    WaitingKeepsInv(Loaded(w), Step(w, e).pending, misled);
  }

  lemma SleepKeepsInv(w: World, misled: bool)
    requires Inv(w, misled) && w.pending == map[]
    ensures Inv(Step(w, Hibernate), misled)
  {
    var t := Step(w, Hibernate);
  }

  lemma TickKeepsInv(w: World, ms: nat, misled: bool)
    requires Inv(w, misled)
    ensures Inv(Step(w, Tick(ms)), misled)
  {
    FeedFrame(w, Step(w, Tick(ms)));
  }

  lemma {:induction false} ReachableInv(clock: int, events: seq<Event>)
    requires Exec(clock, events).Some?
    ensures Inv(Exec(clock, events).value, true)
  {
    if events == [] {
      assert Desks(Init(clock)) == {} && Viewers(Init(clock)) == {};
    } else {
      ReachableInv(clock, events[..|events| - 1]);
      StepKeepsInv(Exec(clock, events[..|events| - 1]).value, events[|events| - 1], true);
    }
  }

  // ------------------------------------------------------------------------ who is seated, event by event

  /** Upgrades that will be accepted whatever happens while they wait. */
  function Waiting(w: World): set<string> {
    set id | id in w.pending && Welcome(w.pending[id])
  }

  lemma TalkSeats(w: World, actions: seq<Action>)
    ensures var t := PerformAll(w, actions);
      t.loaded == w.loaded && t.pending == w.pending && Desks(t) == Desks(w) && Viewers(t) == Viewers(w)
  {
    PerformAllFrame(w, actions);
    PerformAllKeepsSeats(w, actions);
  }

  lemma DeskIsSeated(w: World, id: string)
    requires id !in w.sockets
    ensures var t := OnDesk(w, id);
      t.loaded == w.loaded && t.pending == w.pending && Desks(t) == Desks(w) + {id} && Viewers(t) == Viewers(w)
  {
    var seated := Seated(w, id);
    var d := AttachDesk(seated.core, Now(seated));
    DeskSeats(w, id);
    TalkSeats(seated.(core := d.core), d.actions);
  }

  /** A verdict seats an upgrade that was welcome, and nobody else; whatever it does, it removes no desk. */
  lemma VerdictSeats(w: World, id: string)
    requires w.loaded && NamesApart(w) && id in w.pending
    ensures var t := OnVerdict(w, id);
      && t.loaded && t.pending == w.pending - {id}
      && Desks(t) == if id in Waiting(w) then Desks(w) + {id} else Desks(w)
  {
    var rest := w.(pending := w.pending - {id});
    if Welcome(w.pending[id]) {
      DeskIsSeated(rest, id);
    } else {
      DestroyCloses(rest);
    }
    assert Desks(rest) == Desks(w);
  }

  lemma ClaimSeats(w: World, hash: string)
    ensures Desks(OnClaim(w, hash)) == Desks(w) && OnClaim(w, hash).pending == w.pending
  {
    var d := Create(w.core, hash, w.clock);
    if d.Some? { TalkSeats(w.(core := d.value.core), d.value.actions); }
  }

  lemma ViewerSeats(w: World, id: string)
    requires id !in w.sockets
    ensures Desks(OnViewer(w, id)) == Desks(w) && OnViewer(w, id).pending == w.pending
  {
    var joined := w.(sockets := w.sockets[id := FRESH_VIEWER]);
    JoinedSeats(w.sockets, id, FRESH_VIEWER);
    TalkSeats(joined, AttachViewer(joined.core, id, Now(joined)));
  }

  lemma FrameSeats(w: World, data: Data)
    ensures Desks(OnFrame(w, data)) == Desks(w) && OnFrame(w, data).pending == w.pending
  {
    var d := DeskMessage(w.core, data, w.clock);
    TalkSeats(w.(core := d.core), d.actions);
  }

  lemma DepartureSeats(w: World, id: string)
    requires id in w.sockets
    ensures Desks(OnLeave(w, id)) == Desks(w) - {id} && OnLeave(w, id).pending == w.pending
  {
    LeftSeats(w.sockets, id);
    TalkSeats(Without(w, id), if w.sockets[id].desk then DetachDesk() else DetachViewer(Now(Without(w, id))));
  }

  lemma WakeSeats(w: World)
    ensures Desks(OnWake(w)) == Desks(w) && OnWake(w).pending == w.pending
  {
    var d := OnAlarm(w.core, w.clock);
    TalkSeats(w.(core := d.core), d.actions);
    DestroyCloses(w);
  }

  /** Where an event leaves the desks and the requests that wait. */
  lemma StepSeats(w: World, e: Event)
    requires Inv(w, true) && Enabled(w, e)
    ensures e.Leave? ==> Desks(Step(w, e)) == Desks(w) - {e.id}
    ensures !e.Leave? && !e.Verdict? ==> Desks(Step(w, e)) == Desks(w)
    ensures !e.Verdict? && !e.Knock? && !e.AskUnpair? ==> Step(w, e).pending == w.pending
  {
    var l := Loaded(w);
    match e
    case Claim(hash) => ClaimSeats(l, hash);
    case JoinViewer(id) => ViewerSeats(l, id);
    case Speak(id, data) =>
      FrameSeats(l, data);
      TalkSeats(l, ViewerMessage(id, data));
    case Leave(id) => DepartureSeats(l, id);
    case WakeUp => WakeSeats(l.(alarmAt := None));
    case _ =>
  }

  lemma StepWaiting(w: World, e: Event)
    requires Inv(w, true) && Enabled(w, e) && !e.Verdict?
    ensures Waiting(Step(w, e))
      == if e.Knock? && Opens(Loaded(w), e.digest) && Desks(w) == {} then Waiting(w) + {e.id} else Waiting(w)
  {
    StepSeats(w, e);
  }

  predicate NoClose(actions: seq<Action>) {
    forall i :: 0 <= i < |actions| ==> !actions[i].Close?
  }

  lemma {:induction false} NoCloseKeepsOpen(s: Socket, id: string, actions: seq<Action>)
    requires NoClose(actions)
    ensures After(s, id, actions).code == s.code
    decreases |actions|
  {
    if actions != [] { NoCloseKeepsOpen(React(s, id, actions[0]), id, actions[1..]); }
  }

  /** What a new desk hears on attaching. */
  lemma FreshDeskHears(w: World, id: string)
    requires id in w.sockets && w.sockets[id] == FRESH_DESK
    ensures var t := Obey(w, AttachDesk(w.core, Now(w)));
      && id in t.sockets
      && t.sockets[id] == if w.core.pairing.Some? then FRESH_DESK.(told := Some(|Viewers(w)|)) else FRESH_DESK
  {
    var d := AttachDesk(w.core, Now(w));
    PerformAllSocket(w.(core := d.core), d.actions, id);
    if w.core.pairing.Some? { DeskAttachAfter(w, Now(w)); }
  }

  lemma SeatedDeskHears(w: World, id: string)
    requires id !in w.sockets
    ensures var t := OnDesk(w, id);
      && id in t.sockets && t.sockets[id].desk && !t.sockets[id].closing
      && t.sockets[id].told == (if w.core.pairing.Some? then Some(|Viewers(w)|) else None)
  {
    DeskSeats(w, id);
    FreshDeskHears(Seated(w, id), id);
  }

  lemma SeatingClosesNobody(w: World, id: string, x: string)
    requires id !in w.sockets && x in w.sockets
    ensures x in OnDesk(w, id).sockets && OnDesk(w, id).sockets[x].code == w.sockets[x].code
  {
    var seated := Seated(w, id);
    var d := AttachDesk(seated.core, Now(seated));
    assert NoClose(d.actions);
    PerformAllSocket(seated.(core := d.core), d.actions, x);
    NoCloseKeepsOpen(seated.sockets[x], x, d.actions);
  }
}
