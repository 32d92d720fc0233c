/** Who may do what in a phone room, in terms of the digests that were offered and the pairings they met. */
module PhoneRoomAccess {
  import opened Prelude
  import opened RoomPolicy
  import opened PhoneRoom

  // ------------------------------------------------------------------------------ what a request found

  /** The room was paired when event `i` came. */
  predicate FoundPaired(clock: int, events: seq<Event>, i: nat) {
    i < |events| && Exec(clock, events[..i]).Some? && Exec(clock, events[..i]).value.stored.Some?
  }

  /** Event `i` is the request `id` made of a paired room, and it has had no verdict since. */
  predicate Unanswered(clock: int, events: seq<Event>, id: string, i: nat) {
    && FoundPaired(clock, events, i)
    && (events[i].AskUnpair? || events[i].Knock?) && events[i].id == id
    && forall j :: i < j < |events| ==> events[j] != Verdict(id)
  }

  /** The request offered the token the room was paired with when it came. */
  predicate OfferedTheToken(clock: int, events: seq<Event>, i: nat)
    requires FoundPaired(clock, events, i) && (events[i].AskUnpair? || events[i].Knock?)
  {
    events[i].digest == Exec(clock, events[..i]).value.stored.value.deskTokenHash
  }

  function Asked(clock: int, events: seq<Event>, i: nat): Pending
    requires FoundPaired(clock, events, i) && (events[i].AskUnpair? || events[i].Knock?)
  {
    if events[i].AskUnpair? then Removal(OfferedTheToken(clock, events, i))
    else Upgrade(Desks(Exec(clock, events[..i]).value) != {}, OfferedTheToken(clock, events, i))
  }

  lemma UnansweredGrows(clock: int, events: seq<Event>, e: Event, id: string, i: nat)
    requires i < |events|
    ensures FoundPaired(clock, events + [e], i) <==> FoundPaired(clock, events, i)
    ensures Unanswered(clock, events + [e], id, i) <==> Unanswered(clock, events, id, i) && e != Verdict(id)
    ensures Unanswered(clock, events, id, i) ==> Asked(clock, events + [e], i) == Asked(clock, events, i)
  {
    var more := events + [e];
    assert more[..i] == events[..i] && more[i] == events[i] && more[|events|] == e;
    if Unanswered(clock, events, id, i) && e != Verdict(id) {
      forall j | i < j < |more| ensures more[j] != Verdict(id) {
        if j < |events| { assert more[j] == events[j]; }
      }
    }
    if Unanswered(clock, more, id, i) {
      forall j | i < j < |events| ensures events[j] != Verdict(id) { assert more[j] == events[j]; }
    }
  }

  /** The waiting requests are the unanswered ones, and each waits with what it found. */
  ghost predicate PendingIsAsked(clock: int, events: seq<Event>, w: World, id: string) {
    && (id in w.pending ==> exists i: nat :: Unanswered(clock, events, id, i))
    && (forall i: nat :: Unanswered(clock, events, id, i) ==> id in w.pending && w.pending[id] == Asked(clock, events, i))
  }

  lemma AskingIsPending(clock: int, events: seq<Event>, e: Event)
    requires Exec(clock, events).Some? && Enabled(Exec(clock, events).value, e) && (e.AskUnpair? || e.Knock?)
    ensures var w := Exec(clock, events).value; var n := |events|; var more := events + [e];
      && (FoundPaired(clock, more, n) <==> w.stored.Some?)
      && (w.stored.Some? ==> Step(w, e).pending == w.pending[e.id := Asked(clock, more, n)])
      && (w.stored.None? ==> Step(w, e).pending == w.pending)
  {
    ReachableInv(clock, events);
    assert (events + [e])[..|events|] == events;
    assert Desks(Loaded(Exec(clock, events).value)) == Desks(Exec(clock, events).value);
  }

  /** An event that is no request leaves those that wait, but for the one it answers. */
  lemma OthersWaitOn(w: World, e: Event)
    requires Inv(w, true) && Enabled(w, e) && !e.AskUnpair? && !e.Knock?
    ensures Step(w, e).pending == if e.Verdict? then w.pending - {e.id} else w.pending
  {
    if e.Verdict? {
      LoadedKeepsInv(w, true);
      VerdictSeats(Loaded(w), e.id);
    } else {
      StepSeats(w, e);
    }
  }

  lemma UnansweredNow(clock: int, events: seq<Event>, e: Event, id: string, i: nat)
    requires Unanswered(clock, events + [e], id, i)
    ensures i < |events| ==> Unanswered(clock, events, id, i) && e != Verdict(id)
    ensures i >= |events| ==> i == |events| && (e.AskUnpair? || e.Knock?) && e.id == id
  {
    if i < |events| { UnansweredGrows(clock, events, e, id, i); }
  }

  lemma AnswerKeepsAsked(clock: int, events: seq<Event>, e: Event, id: string)
    requires Exec(clock, events).Some? && Enabled(Exec(clock, events).value, e) && !e.AskUnpair? && !e.Knock?
    requires PendingIsAsked(clock, events, Exec(clock, events).value, id)
    ensures PendingIsAsked(clock, events + [e], Step(Exec(clock, events).value, e), id)
  {
    var w := Exec(clock, events).value;
    var more := events + [e];
    ReachableInv(clock, events);
    OthersWaitOn(w, e);
    forall i: nat | Unanswered(clock, more, id, i)
      ensures id in Step(w, e).pending && Step(w, e).pending[id] == Asked(clock, more, i)
    {
      UnansweredNow(clock, events, e, id, i);
      UnansweredGrows(clock, events, e, id, i);
    }
    if id in Step(w, e).pending {
      var i: nat :| Unanswered(clock, events, id, i);
      UnansweredGrows(clock, events, e, id, i);
      assert Unanswered(clock, more, id, i);
    }
  }

  lemma RequestKeepsAsked(clock: int, events: seq<Event>, e: Event, id: string)
    requires Exec(clock, events).Some? && Enabled(Exec(clock, events).value, e) && (e.AskUnpair? || e.Knock?)
    requires PendingIsAsked(clock, events, Exec(clock, events).value, id)
    ensures PendingIsAsked(clock, events + [e], Step(Exec(clock, events).value, e), id)
  {
    var w := Exec(clock, events).value;
    var more := events + [e];
    var n := |events|;
    AskingIsPending(clock, events, e);
    assert more[n] == e;
    forall i: nat | Unanswered(clock, more, id, i)
      ensures id in Step(w, e).pending && Step(w, e).pending[id] == Asked(clock, more, i)
    {
      UnansweredNow(clock, events, e, id, i);
      if i < n { UnansweredGrows(clock, events, e, id, i); }
    }
    if id in Step(w, e).pending {
      if id in w.pending {
        var i: nat :| Unanswered(clock, events, id, i);
        UnansweredGrows(clock, events, e, id, i);
        assert Unanswered(clock, more, id, i);
      } else {
        assert Unanswered(clock, more, id, n);
      }
    }
  }

  lemma {:induction false} EveryPendingIsAsked(clock: int, events: seq<Event>, id: string)
    requires Exec(clock, events).Some?
    ensures PendingIsAsked(clock, events, Exec(clock, events).value, id)
  {
    if events != [] {
      var front := events[..|events| - 1];
      EveryPendingIsAsked(clock, front, id);
      var last := events[|events| - 1];
      assert front + [last] == events;
      if last.AskUnpair? || last.Knock? { RequestKeepsAsked(clock, front, last, id); } else { AnswerKeepsAsked(clock, front, last, id); }
    }
  }

  // ------------------------------------------------------------------------------ time

  function Elapsed(events: seq<Event>): nat {
    if events == [] then 0
    else Elapsed(events[..|events| - 1]) + (match events[|events| - 1] case Tick(ms) => ms case _ => 0)
  }

  lemma ListTakesNoTime(w: World, actions: seq<Action>)
    ensures PerformAll(w, actions).clock == w.clock
  {
    PerformAllFrame(w, actions);
  }

  lemma VerdictTakesNoTime(w: World, id: string)
    requires id in w.pending
    ensures OnVerdict(w, id).clock == w.clock
  {
    var rest := w.(pending := w.pending - {id});
    var seated := Seated(rest, id);
    var d := AttachDesk(seated.core, Now(seated));
    DestroyCloses(rest);
    ListTakesNoTime(seated.(core := d.core), d.actions);
  }

  lemma WakingTakesNoTime(w: World)
    ensures OnWake(w).clock == w.clock
  {
    var d := OnAlarm(w.core, w.clock);
    DestroyCloses(w);
    ListTakesNoTime(w.(core := d.core), d.actions);
  }

  lemma StepClock(w: World, e: Event)
    requires Enabled(w, e)
    ensures Step(w, e).clock == w.clock + (match e case Tick(ms) => ms case _ => 0)
  {
    var l := Loaded(w);
    match e
    case Claim(hash) =>
      var d := Create(l.core, hash, l.clock);
      if d.Some? { ListTakesNoTime(l.(core := d.value.core), d.value.actions); }
    case Verdict(id) => VerdictTakesNoTime(l, id);
    case JoinViewer(id) =>
      var joined := l.(sockets := l.sockets[id := FRESH_VIEWER]);
      ListTakesNoTime(joined, AttachViewer(joined.core, id, Now(joined)));
    case Speak(id, data) =>
      var d := DeskMessage(l.core, data, l.clock);
      ListTakesNoTime(l.(core := d.core), d.actions);
      ListTakesNoTime(l, ViewerMessage(id, data));
    case Leave(id) =>
      var left := Without(l, id);
      ListTakesNoTime(left, if l.sockets[id].desk then DetachDesk() else DetachViewer(Now(left)));
    case WakeUp => WakingTakesNoTime(l.(alarmAt := None));
    case _ =>
  }

  /** The clock is the start plus what has ticked away; no decision takes time. */
  lemma {:induction false} TimePasses(clock: int, events: seq<Event>)
    requires Exec(clock, events).Some?
    ensures Exec(clock, events).value.clock == clock + Elapsed(events)
  {
    if events != [] {
      TimePasses(clock, events[..|events| - 1]);
      StepClock(Exec(clock, events[..|events| - 1]).value, events[|events| - 1]);
    }
  }

  lemma {:induction false} NoTicks(events: seq<Event>)
    requires forall i :: 0 <= i < |events| ==> !events[i].Tick?
    ensures Elapsed(events) == 0
  {
    if events != [] { NoTicks(events[..|events| - 1]); }
  }

  // ------------------------------------------------------------------------------ who can unpair a room

  /** What an event makes of the stored pairing. */
  lemma StepStored(w: World, e: Event)
    requires Inv(w, true) && Enabled(w, e)
    ensures var t := Step(w, e);
      && (w.stored.Some? ==>
            (t.stored.None? <==>
              || (e.WakeUp? && w.clock - w.stored.value.lastDeskAt >= PHONE_ROOM_TTL_MS)
              || (e.Verdict? && w.pending[e.id] == Removal(true))))
      && (w.stored.Some? && t.stored.Some? ==>
            t.stored.value.deskTokenHash == w.stored.value.deskTokenHash && t.stored.value.createdAt == w.stored.value.createdAt)
      && (w.stored.None? && t.stored.Some? ==> e.Claim?)
      && (w.stored.None? && e.Claim? ==> t.stored == Some(Pairing(e.hash, w.clock, w.clock)))
  {
    var l := Loaded(w);
    LoadedKeepsInv(w, true);
    match e
    case Claim(hash) => ClaimStores(l, hash);
    case Verdict(id) => VerdictStores(l, id);
    case JoinViewer(id) =>
      var joined := l.(sockets := l.sockets[id := FRESH_VIEWER]);
      AttachOnlyTalks(joined.core, id, Now(joined));
      TalkStores(joined, AttachViewer(joined.core, id, Now(joined)));
    case Speak(id, data) =>
      FrameStores(l, data);
      TalkStores(l, ViewerMessage(id, data));
    case Leave(id) =>
      var left := Without(l, id);
      LeaveReaction(l.sockets[id], id, l.sockets[id].desk, Now(left));
      TalkStores(left, if l.sockets[id].desk then DetachDesk() else DetachViewer(Now(left)));
    case WakeUp => WakeStores(l);
    case _ =>
  }

  lemma TalkStores(w: World, actions: seq<Action>)
    requires OnlyTalks(actions)
    ensures PerformAll(w, actions).stored == w.stored
  {
    TalkingLeavesTheRest(w, actions);
    PerformAllFrame(w, actions);
  }

  lemma ClaimStores(w: World, hash: string)
    requires Inv(w, true) && w.loaded
    ensures OnClaim(w, hash).stored == if w.stored.Some? then w.stored else Some(Pairing(hash, w.clock, w.clock))
  {
    if w.core.pairing.None? {
      var d := Create(w.core, hash, w.clock).value;
      SaveAndAlarm(w.(core := d.core), d.core.pairing, w.clock + PHONE_ROOM_TTL_MS, []);
      assert d.actions == [Save(d.core.pairing), Alarm(w.clock + PHONE_ROOM_TTL_MS)] + [];
      PerformAllFrame(w.(core := d.core), d.actions);
    }
  }

  lemma FrameStores(w: World, data: Data)
    ensures OnFrame(w, data).stored == w.stored
  {
    var d := DeskMessage(w.core, data, w.clock);
    if d.actions != [] { assert d.actions[1..] == []; }
    TalkOrFrame(w.(core := d.core), d.actions);
  }

  lemma TalkOrFrame(w: World, actions: seq<Action>)
    requires |actions| <= 1 && forall a :: a in actions ==> !a.Save?
    ensures PerformAll(w, actions).stored == w.stored
  {
    if actions != [] { assert actions[1..] == []; }
    PerformAllFrame(w, actions);
  }

  lemma VerdictStores(w: World, id: string)
    requires Inv(w, true) && w.loaded && id in w.pending
    ensures var t := OnVerdict(w, id);
      && (w.pending[id] == Removal(true) ==> t.stored.None?)
      && (w.pending[id] != Removal(true) ==>
            (t.stored.None? <==> w.stored.None?)
            && (w.stored.Some? ==>
                  t.stored.value.deskTokenHash == w.stored.value.deskTokenHash
                  && t.stored.value.createdAt == w.stored.value.createdAt))
  {
    var rest := w.(pending := w.pending - {id});
    DestroyCloses(rest);
    if Welcome(w.pending[id]) { DeskStores(rest, id); }
  }

  lemma DeskStores(w: World, id: string)
    requires w.core.pairing == w.stored
    ensures OnDesk(w, id).stored
      == if w.stored.Some? then Some(w.stored.value.(lastDeskAt := w.clock)) else None
  {
    var seated := Seated(w, id);
    var d := AttachDesk(seated.core, Now(seated));
    if w.core.pairing.Some? { DeskAttachAfter(seated, Now(seated)); }
    PerformAllFrame(seated.(core := d.core), d.actions);
  }

  lemma WakeStores(w: World)
    requires Inv(w, true) && w.loaded
    ensures OnWake(w.(alarmAt := None)).stored
      == if w.stored.Some? && w.clock - w.stored.value.lastDeskAt < PHONE_ROOM_TTL_MS then w.stored else None
  {
    var a := w.(alarmAt := None);
    if w.stored.Some? && w.clock - w.stored.value.lastDeskAt < PHONE_ROOM_TTL_MS {
      RearmIsAll(w);
    } else if w.stored.Some? {
      assert OnWake(a) == OnDestroy(a);
      DestroyCloses(a);
    }
  }

  /** A request to unpair that offered the right token is being answered. */
  ghost predicate AnswersAnOwner(clock: int, events: seq<Event>, id: string) {
    exists i: nat :: Unanswered(clock, events, id, i) && events[i].AskUnpair? && OfferedTheToken(clock, events, i)
  }

  lemma RemovalIsTheOwners(clock: int, events: seq<Event>, id: string)
    requires Exec(clock, events).Some?
    ensures var w := Exec(clock, events).value;
      id in w.pending ==> (w.pending[id] == Removal(true) <==> AnswersAnOwner(clock, events, id))
  {
    EveryPendingIsAsked(clock, events, id);
    var w := Exec(clock, events).value;
    if id in w.pending { var i: nat :| Unanswered(clock, events, id, i); }
  }

  /** No claim and no desk attach within the TTL. */
  predicate Silent(w: World) {
    forall i :: 0 <= i < |w.contacts| ==> w.clock - w.contacts[i] >= 30 * 24 * 60 * 60 * 1000
  }

  lemma SilenceIsTheLastContact(w: World)
    requires AlarmInv(w) && w.stored.Some?
    ensures Silent(w) <==> w.clock - w.stored.value.lastDeskAt >= PHONE_ROOM_TTL_MS
  {
  }

  /**
   * In every run an event takes a pairing away if and only if it is the alarm after a whole TTL without contact, or
   * the verdict on a request to unpair that offered the token the room was paired with when it came.
   */
  lemma UnpairedIff(clock: int, events: seq<Event>, e: Event)
    requires Exec(clock, events).Some? && Enabled(Exec(clock, events).value, e) && Exec(clock, events).value.stored.Some?
    ensures var w := Exec(clock, events).value;
      Step(w, e).stored.None? <==> (e.WakeUp? && Silent(w)) || (e.Verdict? && AnswersAnOwner(clock, events, e.id))
  {
    var w := Exec(clock, events).value;
    ReachableInv(clock, events);
    SilenceIsTheLastContact(w);
    StepStored(w, e);
    if e.Verdict? { RemovalIsTheOwners(clock, events, e.id); }
  }

  lemma ExecStep(clock: int, events: seq<Event>, e: Event)
    requires Exec(clock, events).Some? && Enabled(Exec(clock, events).value, e)
    ensures Exec(clock, events + [e]) == Some(Step(Exec(clock, events).value, e))
  {
    assert (events + [e])[..|events|] == events;
  }

  lemma ClaimedRoom(clock: int, hash: string)
    ensures var w := Exec(clock, [Claim(hash)]);
      && w.Some? && w.value.loaded && w.value.sockets == map[] && w.value.pending == map[]
      && w.value.core.pairing == w.value.stored == Some(Pairing(hash, clock, clock))
  {
    var i := Loaded(Init(clock));
    var d := Create(i.core, hash, clock).value;
    assert [Claim(hash)][..0] == [];
    SaveAndAlarm(i.(core := d.core), d.core.pairing, clock + PHONE_ROOM_TTL_MS, []);
    assert d.actions == [Save(d.core.pairing), Alarm(clock + PHONE_ROOM_TTL_MS)] + [];
    PerformAllFrame(i.(core := d.core), d.actions);
    assert Exec(clock, []) == Some(Init(clock));
  }

  /** Both requests have found the room that the other will take away. */
  lemma TwoOwnersAsk(clock: int, hash: string, a: string, b: string)
    requires a != b
    ensures var w := Exec(clock, [Claim(hash)] + [AskUnpair(a, hash)] + [AskUnpair(b, hash)]);
      && w.Some? && w.value.loaded && w.value.stored.Some? && w.value.sockets == map[]
      && w.value.pending == map[a := Removal(true), b := Removal(true)]
  {
    ClaimedRoom(clock, hash);
    ExecStep(clock, [Claim(hash)], AskUnpair(a, hash));
    ExecStep(clock, [Claim(hash)] + [AskUnpair(a, hash)], AskUnpair(b, hash));
  }

  /**
   * What a request to unpair found is not read again after its await: of two that overlap, the first takes the
   * pairing they both found, and the second takes whatever pairing the room has been claimed with since.
   */
  lemma LateRequestTakesTheNextPairing(clock: int, hash: string, next: string, a: string, b: string)
    requires a != b
    ensures var claimed := [Claim(hash)] + [AskUnpair(a, hash)] + [AskUnpair(b, hash)] + [Verdict(a)] + [Claim(next)];
      && Exec(clock, claimed).Some? && Exec(clock, claimed).value.stored == Some(Pairing(next, clock, clock))
      && Exec(clock, claimed + [Verdict(b)]).Some? && Exec(clock, claimed + [Verdict(b)]).value.stored.None?
  {
    var asked := [Claim(hash)] + [AskUnpair(a, hash)] + [AskUnpair(b, hash)];
    TwoOwnersAsk(clock, hash, a, b);
    StepsAndStays(clock, asked, Verdict(a));
    StepsAndStays(clock, asked + [Verdict(a)], Claim(next));
    StepsAndStays(clock, asked + [Verdict(a)] + [Claim(next)], Verdict(b));
    TimePasses(clock, asked + [Verdict(a)]);
    NoTicks(asked + [Verdict(a)]);
  }

  lemma StepsAndStays(clock: int, events: seq<Event>, e: Event)
    requires Exec(clock, events).Some? && Enabled(Exec(clock, events).value, e) && !e.AskUnpair? && !e.Knock?
    ensures var w := Exec(clock, events).value; var t := Exec(clock, events + [e]);
      && t == Some(Step(w, e)) && t.value.pending == (if e.Verdict? then w.pending - {e.id} else w.pending)
      && (e.Verdict? && w.stored.Some? && w.pending[e.id] == Removal(true) ==> t.value.stored.None?)
      && (e.Claim? && w.stored.None? ==> t.value.stored == Some(Pairing(e.hash, w.clock, w.clock)))
  {
    ReachableInv(clock, events);
    ExecStep(clock, events, e);
    OthersWaitOn(Exec(clock, events).value, e);
    StepStored(Exec(clock, events).value, e);
  }

  /** A room is claimed exactly once: a claim pairs an unpaired room with its token, and nothing else pairs or re-keys one. */
  lemma ClaimedOnce(clock: int, events: seq<Event>, e: Event)
    requires Exec(clock, events).Some? && Enabled(Exec(clock, events).value, e)
    ensures var w := Exec(clock, events).value; var t := Step(w, e);
      && (w.stored.None? && e.Claim? ==> t.stored == Some(Pairing(e.hash, w.clock, w.clock)))
      && (w.stored.None? && !e.Claim? ==> t.stored.None?)
      && (w.stored.Some? && t.stored.Some? ==>
            t.stored.value.deskTokenHash == w.stored.value.deskTokenHash && t.stored.value.createdAt == w.stored.value.createdAt)
  {
    ReachableInv(clock, events);
    StepStored(Exec(clock, events).value, e);
  }

  /** An upgrade that offered the right token, and found no desk, is being answered. */
  ghost predicate AnswersADesk(clock: int, events: seq<Event>, id: string) {
    exists i: nat ::
      && Unanswered(clock, events, id, i) && events[i].Knock? && OfferedTheToken(clock, events, i)
      && Desks(Exec(clock, events[..i]).value) == {}
  }

  lemma WelcomeIsTheOwners(clock: int, events: seq<Event>, id: string)
    requires Exec(clock, events).Some?
    ensures id in Waiting(Exec(clock, events).value) <==> AnswersADesk(clock, events, id)
  {
    EveryPendingIsAsked(clock, events, id);
    var w := Exec(clock, events).value;
    if id in w.pending { var i: nat :| Unanswered(clock, events, id, i); }
  }

  /** In every run a desk comes in if and only if its upgrade offered the right token and found no desk there. */
  lemma DeskEntersIff(clock: int, events: seq<Event>, e: Event, id: string)
    requires Exec(clock, events).Some? && Enabled(Exec(clock, events).value, e)
    ensures var w := Exec(clock, events).value;
      id !in Desks(w) ==> (id in Desks(Step(w, e)) <==> e == Verdict(id) && AnswersADesk(clock, events, id))
  {
    var w := Exec(clock, events).value;
    ReachableInv(clock, events);
    if e.Verdict? {
      WelcomeIsTheOwners(clock, events, e.id);
      LoadedKeepsInv(w, true);
      VerdictSeats(Loaded(w), e.id);
      assert Desks(Loaded(w)) == Desks(w) && Waiting(Loaded(w)) == Waiting(w);
    } else {
      StepSeats(w, e);
    }
  }

  // ------------------------------------------------------------------------------ who is closed, and why

  /** How much a participant may say at once. */
  predicate Oversize(s: Socket, data: Data) {
    |data.text| > (if s.desk then 64 * 1024 else 1024)
  }

  /** The event is a message that costs this socket its place: its own, or for a desk that of any desk. */
  predicate SaysTooMuch(w: World, e: Event, x: string) {
    && e.Speak? && e.id in w.sockets && x in w.sockets && Oversize(w.sockets[e.id], e.data)
    && (x == e.id || (w.sockets[e.id].desk && w.sockets[x].desk))
  }

  lemma SpeakingCloses(l: World, sender: string, x: string, data: Data)
    requires l.loaded && sender in l.sockets && x in l.sockets
    ensures var t := Step(l, Speak(sender, data)); var s := l.sockets[x];
      && x in t.sockets
      && t.sockets[x].code == if SaysTooMuch(l, Speak(sender, data), x) then CodeOr(s, TOO_LARGE) else s.code
  {
    var d := DeskMessage(l.core, data, l.clock);
    var actions := ViewerMessage(sender, data);
    PerformAllSocket(l.(core := d.core), d.actions, x);
    PerformAllSocket(l, actions, x);
    if d.actions != [] { assert d.actions[1..] == []; }
    if actions != [] { assert actions[1..] == []; }
  }

  lemma NobodyIsClosed(w: World, actions: seq<Action>, x: string)
    requires NoClose(actions) && x in w.sockets
    ensures x in PerformAll(w, actions).sockets && PerformAll(w, actions).sockets[x].code == w.sockets[x].code
  {
    PerformAllSocket(w, actions, x);
    NoCloseKeepsOpen(w.sockets[x], x, actions);
  }

  lemma ClaimClosesNobody(w: World, hash: string, x: string)
    requires x in w.sockets
    ensures x in OnClaim(w, hash).sockets && OnClaim(w, hash).sockets[x].code == w.sockets[x].code
  {
    var d := Create(w.core, hash, w.clock);
    if d.Some? { NobodyIsClosed(w.(core := d.value.core), d.value.actions, x); }
  }

  lemma JoiningClosesNobody(w: World, id: string, x: string)
    requires x in w.sockets && id !in w.sockets
    ensures x in OnViewer(w, id).sockets && OnViewer(w, id).sockets[x].code == w.sockets[x].code
  {
    var joined := w.(sockets := w.sockets[id := FRESH_VIEWER]);
    NobodyIsClosed(joined, AttachViewer(joined.core, id, Now(joined)), x);
  }

  lemma LeavingClosesNobody(w: World, id: string, x: string)
    requires x in w.sockets && id in w.sockets && x != id
    ensures x in OnLeave(w, id).sockets && OnLeave(w, id).sockets[x].code == w.sockets[x].code
  {
    var left := Without(w, id);
    NobodyIsClosed(left, if w.sockets[id].desk then DetachDesk() else DetachViewer(Now(left)), x);
  }

  lemma WakingCloses(w: World, x: string)
    requires Inv(w, true) && w.loaded && x in w.sockets
    ensures var t := OnWake(w.(alarmAt := None));
      && x in t.sockets
      && t.sockets[x].code == if w.stored.Some? && Silent(w) then CodeOr(w.sockets[x], UNPAIRED) else w.sockets[x].code
  {
    var a := w.(alarmAt := None);
    if w.stored.Some? {
      SilenceIsTheLastContact(w);
      if Silent(w) {
        assert OnWake(a) == OnDestroy(a);
        DestroyCloses(a);
      } else {
        RearmIsAll(w);
      }
    }
  }

  lemma VerdictCloses(w: World, id: string, x: string)
    requires id in w.pending && x in w.sockets && id !in w.sockets
    ensures var t := OnVerdict(w, id);
      && x in t.sockets
      && t.sockets[x].code == if w.pending[id] == Removal(true) then CodeOr(w.sockets[x], UNPAIRED) else w.sockets[x].code
  {
    var rest := w.(pending := w.pending - {id});
    DestroyCloses(rest);
    if Welcome(w.pending[id]) { SeatingClosesNobody(rest, id, x); }
  }

  lemma StepCloses(w: World, e: Event, x: string)
    requires Inv(w, true) && Enabled(w, e) && x in w.sockets && e != Leave(x)
    ensures var t := Step(w, e); var s := w.sockets[x];
      && x in t.sockets
      && t.sockets[x].code ==
           if (e.WakeUp? && w.stored.Some? && Silent(w)) || (e.Verdict? && w.pending[e.id] == Removal(true)) then CodeOr(s, UNPAIRED)
           else if SaysTooMuch(w, e, x) then CodeOr(s, TOO_LARGE)
           else s.code
  {
    var l := Loaded(w);
    LoadedKeepsInv(w, true);
    match e
    case Claim(hash) => ClaimClosesNobody(l, hash, x);
    case Verdict(id) => VerdictCloses(l, id, x);
    case JoinViewer(id) => JoiningClosesNobody(l, id, x);
    case Speak(id, data) => SpeakingCloses(l, id, x, data);
    case Leave(id) => LeavingClosesNobody(l, id, x);
    case WakeUp => WakingCloses(l, x);
    case _ =>
  }

  /**
   * In every run an event closes an open socket exactly when it unpairs the room, by a silent room's alarm or an
   * owner's request, and then with 4004, or when it is an oversize message of its own or, for a desk, of any desk,
   * and then with 4009. Nobody is closed for anything else, and a close stands until the socket is gone.
   */
  lemma SocketIsClosedIff(clock: int, events: seq<Event>, e: Event, x: string)
    requires Exec(clock, events).Some? && Enabled(Exec(clock, events).value, e)
    requires x in Exec(clock, events).value.sockets && e != Leave(x)
    ensures var w, t := Exec(clock, events).value, Step(Exec(clock, events).value, e);
      && x in t.sockets
      && (w.sockets[x].closing ==> t.sockets[x].code == w.sockets[x].code)
      && (!w.sockets[x].closing ==>
            && (t.sockets[x].code == Some(4004) <==>
                  (e.WakeUp? && w.stored.Some? && Silent(w)) || (e.Verdict? && AnswersAnOwner(clock, events, e.id)))
            && (t.sockets[x].code == Some(4009) <==> SaysTooMuch(w, e, x))
            && (t.sockets[x].closing ==> t.sockets[x].code in {Some(4004), Some(4009)}))
  {
    ReachableInv(clock, events);
    StepCloses(Exec(clock, events).value, e, x);
    if e.Verdict? { RemovalIsTheOwners(clock, events, e.id); }
  }
}
