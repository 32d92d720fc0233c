/** What the participants of a phone room can rely on in every run, hibernations included. */
module PhoneRoomGuarantees {
  import opened Prelude
  import opened RoomPolicy
  import opened PhoneRoom
  import opened PhoneRoomAccess

  // ------------------------------------------------------------------------------ what everybody was told

  /**
   * After every event of every run, hibernations included, what each open socket was last told is true, with two
   * exceptions: a phone may think the desk gone although one is there (never the other way), and a desk let into a
   * room that was unpaired meanwhile may have been told nothing.
   */
  lemma EveryoneKnowsTheTruth(clock: int, events: seq<Event>, id: string)
    requires Exec(clock, events).Some? && id in Exec(clock, events).value.sockets
    requires !Exec(clock, events).value.sockets[id].closing
    ensures var w := Exec(clock, events).value; var s := w.sockets[id];
      && (!s.desk ==> s.presence == Some(Desks(w) != {}) || s.presence == Some(false))
      && (!s.desk ==> forall c :: c in s.held ==> c in w.forwarded && w.forwarded[c] == s.held[c])
      && (s.desk ==> s.told == Some(|Viewers(w)|) || (id in w.orphans && s.told == None))
  {
    ReachableInv(clock, events);
    var w := Exec(clock, events).value;
    assert Knows(w.sockets[id], id, TruthOf(w, true));
  }

  ghost predicate PhonesAreRight(w: World) {
    forall id :: id in Viewers(w) && !w.sockets[id].closing ==> w.sockets[id].presence == Some(Desks(w) != {})
  }

  lemma RightIffNotMisled(w: World)
    requires Inv(w, true)
    ensures PhonesAreRight(w) <==> Inv(w, false)
  {
    if PhonesAreRight(w) {
      forall id | id in w.sockets ensures Knows(w.sockets[id], id, TruthOf(w, false)) {
        assert Knows(w.sockets[id], id, TruthOf(w, true));
      }
    } else {
      var id :| id in Viewers(w) && !w.sockets[id].closing && w.sockets[id].presence != Some(Desks(w) != {});
      assert !Knows(w.sockets[id], id, TruthOf(w, false));
    }
  }

  /**
   * From a reachable state in which all open phones are right about the desk, an event keeps them right unless it
   * is the departure of one of several desks while an open phone is there; that always makes them wrong.
   */
  lemma PhonesStayRightIff(clock: int, events: seq<Event>, e: Event)
    requires Exec(clock, events).Some? && Enabled(Exec(clock, events).value, e)
    requires PhonesAreRight(Exec(clock, events).value)
    ensures var w := Exec(clock, events).value;
      PhonesAreRight(Step(w, e)) <==> !(LeavesADesk(w, e) && exists id :: id in Viewers(w) && !w.sockets[id].closing)
  {
    ReachableInv(clock, events);
    var w := Exec(clock, events).value;
    if LeavesADesk(w, e) {
      DepartureMisleads(w, e.id);
    } else {
      RightIffNotMisled(w);
      StepKeepsInv(w, e, false);
      StepKeepsInv(w, e, true);
      RightIffNotMisled(Step(w, e));
    }
  }

  lemma DepartureMisleads(w: World, id: string)
    requires LeavesADesk(w, Leave(id))
    ensures PhonesAreRight(Step(w, Leave(id))) <==> forall x :: x in Viewers(w) ==> w.sockets[x].closing
  {
    var l := Loaded(w);
    var left := Without(l, id);
    LeftSeats(w.sockets, id);
    PerformAllKeepsSeats(left, DetachDesk());
    var t := Step(w, Leave(id));
    forall x | x in Viewers(w)
      ensures x in t.sockets
      ensures t.sockets[x] == if w.sockets[x].closing then w.sockets[x] else w.sockets[x].(presence := Some(false))
    {
      PerformAllSocket(left, DetachDesk(), x);
      LeaveReaction(w.sockets[x], x, true, Now(left));
    }
  }

  predicate NeverTwoDesks(clock: int, events: seq<Event>) {
    forall n: nat :: n <= |events| && Exec(clock, events[..n]).Some? ==> |Desks(Exec(clock, events[..n]).value)| <= 1
  }

  /** A run that never has two desks keeps every open phone right about the desk. */
  lemma {:induction false} OneDeskKeepsPhonesRight(clock: int, events: seq<Event>)
    requires Exec(clock, events).Some? && NeverTwoDesks(clock, events)
    ensures PhonesAreRight(Exec(clock, events).value)
  {
    if events != [] {
      var n := |events| - 1;
      var front := events[..n];
      forall k: nat | k <= n ensures front[..k] == events[..k] {}
      OneDeskKeepsPhonesRight(clock, front);
      PhonesStayRightIff(clock, front, events[n]);
      var w := Exec(clock, front).value;
      assert events[..n] == front;
      if LeavesADesk(w, events[n]) { AtMostOne(Desks(w), events[n].id); }
    }
  }

  lemma AtMostOne(names: set<string>, id: string)
    requires id in names && |names| <= 1
    ensures names == {id}
  {
    assert |names - {id}| == |names| - 1;
  }

  /** A desk that attaches to a paired room sets every open phone right, whatever it had heard. */
  lemma DeskSetsPhonesRight(clock: int, events: seq<Event>, id: string)
    requires Exec(clock, events).Some? && id in Waiting(Exec(clock, events).value) && Exec(clock, events).value.stored.Some?
    ensures PhonesAreRight(Step(Exec(clock, events).value, Verdict(id)))
  {
    ReachableInv(clock, events);
    var w := Exec(clock, events).value;
    var rest := w.(pending := w.pending - {id});
    WaitingKeepsInv(w, rest.pending, true);
    DeskJoinKnowledge(rest, id, true);
    StepKeepsInv(w, Verdict(id), true);
    RightIffNotMisled(Step(w, Verdict(id)));
  }

  // ------------------------------------------------------------------------------ how many desks and phones

  /** The world a further run of events reaches. */
  function ExecFrom(w: World, events: seq<Event>): Option<World>
    decreases |events|
  {
    if events == [] then Some(w)
    else if Enabled(w, events[0]) then ExecFrom(Step(w, events[0]), events[1..])
    else None
  }

  predicate OnlyVerdicts(events: seq<Event>) {
    forall i :: 0 <= i < |events| ==> events[i].Verdict?
  }

  lemma VerdictMovesOne(w: World, id: string)
    requires Inv(w, true) && id in w.pending
    ensures var t := Step(w, Verdict(id));
      && Waiting(t) == Waiting(w) - {id}
      && |Desks(t)| + |Waiting(t)| == |Desks(w)| + |Waiting(w)|
      && |Desks(t)| == |Desks(w)| + (if id in Waiting(w) then 1 else 0)
  {
    var t := Step(w, Verdict(id));
    VerdictSeats(w, id);
    assert Waiting(t) == Waiting(w) - {id};
    assert id !in Desks(w);
    assert id !in Waiting(w) ==> Waiting(w) - {id} == Waiting(w);
  }

  lemma {:induction false} VerdictsBound(w: World, events: seq<Event>)
    requires Inv(w, true) && OnlyVerdicts(events) && ExecFrom(w, events).Some?
    ensures var t := ExecFrom(w, events).value;
      |Desks(w)| <= |Desks(t)| <= |Desks(w)| + |Waiting(w)|
    decreases |events|
  {
    if events != [] {
      VerdictMovesOne(w, events[0].id);
      StepKeepsInv(w, events[0], true);
      assert OnlyVerdicts(events[1..]);
      VerdictsBound(Step(w, events[0]), events[1..]);
    }
  }

  lemma {:induction false} VerdictsReach(w: World, n: nat) returns (events: seq<Event>)
    requires Inv(w, true) && |Desks(w)| <= n <= |Desks(w)| + |Waiting(w)|
    ensures OnlyVerdicts(events) && ExecFrom(w, events).Some? && |Desks(ExecFrom(w, events).value)| == n
    decreases n - |Desks(w)|
  {
    if n == |Desks(w)| { return []; }
    assert Waiting(w) != {};
    var id :| id in Waiting(w);
    VerdictMovesOne(w, id);
    StepKeepsInv(w, Verdict(id), true);
    var rest := VerdictsReach(Step(w, Verdict(id)), n);
    events := [Verdict(id)] + rest;
    assert events[1..] == rest;
  }

  ghost predicate DesksByVerdicts(w: World, n: nat) {
    exists events :: OnlyVerdicts(events) && ExecFrom(w, events).Some? && |Desks(ExecFrom(w, events).value)| == n
  }

  /**
   * The numbers of desks that verdicts alone can lead to are those from the desks there are to the desks there are
   * plus the pending upgrades that read "nobody". So two desks come of it if and only if that sum is at least two.
   */
  lemma DesksByVerdictsIff(clock: int, events: seq<Event>, n: nat)
    requires Exec(clock, events).Some?
    ensures var w := Exec(clock, events).value;
      && (DesksByVerdicts(w, n) <==> |Desks(w)| <= n <= |Desks(w)| + |Waiting(w)|)
      && ((exists m :: m >= 2 && DesksByVerdicts(w, m)) <==> |Desks(w)| + |Waiting(w)| >= 2)
  {
    ReachableInv(clock, events);
    var w := Exec(clock, events).value;
    forall m: nat ensures DesksByVerdicts(w, m) <==> |Desks(w)| <= m <= |Desks(w)| + |Waiting(w)| {
      DesksByVerdictsRange(w, m);
    }
    assert DesksByVerdicts(w, |Desks(w)| + |Waiting(w)|);
  }

  lemma DesksByVerdictsRange(w: World, n: nat)
    requires Inv(w, true)
    ensures DesksByVerdicts(w, n) <==> |Desks(w)| <= n <= |Desks(w)| + |Waiting(w)|
  {
    if |Desks(w)| <= n <= |Desks(w)| + |Waiting(w)| {
      var events := VerdictsReach(w, n);
    }
    forall events | OnlyVerdicts(events) && ExecFrom(w, events).Some?
      ensures |Desks(w)| <= |Desks(ExecFrom(w, events).value)| <= |Desks(w)| + |Waiting(w)|
    {
      VerdictsBound(w, events);
    }
  }

  /** A token that opens the room is offered while another upgrade is already sure to be accepted. */
  predicate Overlaps(w: World, e: Event) {
    e.Knock? && Opens(Loaded(w), e.digest) && Waiting(w) != {}
  }

  /**
   * As long as at most one desk is there or on its way, an event keeps it so unless it is an upgrade that overlaps
   * another one; with DesksByVerdictsIff, exactly then two desks have become possible.
   */
  lemma OneDeskStepIff(clock: int, events: seq<Event>, e: Event)
    requires Exec(clock, events).Some? && Enabled(Exec(clock, events).value, e)
    requires |Desks(Exec(clock, events).value)| + |Waiting(Exec(clock, events).value)| <= 1
    ensures var w := Exec(clock, events).value; var t := Step(w, e);
      |Desks(t)| + |Waiting(t)| <= 1 <==> !Overlaps(w, e)
  {
    ReachableInv(clock, events);
    var w := Exec(clock, events).value;
    if e.Verdict? {
      VerdictMovesOne(w, e.id);
    } else {
      StepSeats(w, e);
      StepWaiting(w, e);
    }
    if e.Leave? { SubsetCardinality(Desks(w) - {e.id}, Desks(w)); }
    if e.Knock? && Waiting(w) != {} { SumIsOne(Desks(w), Waiting(w)); }
  }

  lemma SumIsOne(a: set<string>, b: set<string>)
    requires |a| + |b| <= 1 && b != {}
    ensures a == {}
  {
    assert |b| >= 1;
  }

  predicate UpgradesInTurn(clock: int, events: seq<Event>)
    requires Exec(clock, events).Some?
  {
    forall n: nat :: n < |events| && Exec(clock, events[..n]).Some? ==> !Overlaps(Exec(clock, events[..n]).value, events[n])
  }

  /** Desk upgrades that come one after the other never leave two desks in a room. */
  lemma {:induction false} UpgradesInTurnKeepOneDesk(clock: int, events: seq<Event>)
    requires Exec(clock, events).Some? && UpgradesInTurn(clock, events)
    ensures |Desks(Exec(clock, events).value)| + |Waiting(Exec(clock, events).value)| <= 1
  {
    if events == [] {
      assert Desks(Init(clock)) == {} && Waiting(Init(clock)) == {};
    } else {
      var n := |events| - 1;
      var front := events[..n];
      forall k: nat | k < n ensures front[..k] == events[..k] && front[k] == events[k] {}
      UpgradesInTurnKeepOneDesk(clock, front);
      OneDeskStepIff(clock, front, events[n]);
    }
  }

  /** A desk whose upgrade is accepted is told the number of phones if and only if the room is still paired then. */
  lemma AcceptedDeskHearsIffPaired(clock: int, events: seq<Event>, id: string)
    requires Exec(clock, events).Some? && id in Waiting(Exec(clock, events).value)
    ensures var w := Exec(clock, events).value; var t := Step(w, Verdict(id));
      && id in t.sockets && t.sockets[id].desk && !t.sockets[id].closing
      && t.sockets[id].told == (if w.stored.Some? then Some(|Viewers(w)|) else None)
  {
    ReachableInv(clock, events);
    var w := Exec(clock, events).value;
    SeatedDeskHears(w.(pending := w.pending - {id}), id);
  }

  /** The room that two requests with the right token have found, before either has its verdict. */
  lemma TwoRequestsWait(clock: int, hash: string, a: string, e: Event)
    requires (e.Knock? || e.AskUnpair?) && e.id != a && e.digest == hash
    ensures var w := Exec(clock, [Claim(hash)] + [Knock(a, hash)] + [e]);
      && w.Some? && w.value.loaded && w.value.sockets == map[] && w.value.stored.Some?
      && w.value.pending == map[a := Upgrade(false, true), e.id := if e.Knock? then Upgrade(false, true) else Removal(true)]
  {
    ClaimedRoom(clock, hash);
    ExecStep(clock, [Claim(hash)], Knock(a, hash));
    var w := Exec(clock, [Claim(hash)]).value;
    assert Desks(w) == {};
    var w1 := Step(w, Knock(a, hash));
    assert Desks(w1) == {};
    ExecStep(clock, [Claim(hash)] + [Knock(a, hash)], e);
  }

  lemma AcceptedDeskIsIn(clock: int, events: seq<Event>, id: string)
    requires Exec(clock, events).Some? && id in Waiting(Exec(clock, events).value)
    ensures var w := Exec(clock, events).value; var t := Exec(clock, events + [Verdict(id)]);
      && t.Some? && t.value.pending == w.pending - {id} && Desks(t.value) == Desks(w) + {id}
      && id in t.value.sockets && !t.value.sockets[id].closing
      && (forall x :: x in w.sockets ==> x in t.value.sockets && t.value.sockets[x].code == w.sockets[x].code)
  {
    ReachableInv(clock, events);
    ExecStep(clock, events, Verdict(id));
    var w := Exec(clock, events).value;
    VerdictSeats(w, id);
    var rest := w.(pending := w.pending - {id});
    SeatedDeskHears(rest, id);
    forall x | x in w.sockets ensures x in OnDesk(rest, id).sockets && OnDesk(rest, id).sockets[x].code == w.sockets[x].code {
      SeatingClosesNobody(rest, id, x);
    }
  }

  /** Two upgrades that overlap in the await are both accepted, and both desks stay open. */
  lemma OverlappingDesksBothEnter(clock: int, hash: string, a: string, b: string)
    requires a != b
    ensures var w := Exec(clock, [Claim(hash)] + [Knock(a, hash)] + [Knock(b, hash)] + [Verdict(a)] + [Verdict(b)]);
      && w.Some? && Desks(w.value) == {a, b}
      && !w.value.sockets[a].closing && !w.value.sockets[b].closing
  {
    var knocks := [Claim(hash)] + [Knock(a, hash)] + [Knock(b, hash)];
    TwoRequestsWait(clock, hash, a, Knock(b, hash));
    AcceptedDeskIsIn(clock, knocks, a);
    AcceptedDeskIsIn(clock, knocks + [Verdict(a)], b);
  }

  /** A room that is unpaired while a desk waits for its verdict still lets that desk in, and tells it nothing. */
  lemma LateDeskEntersAnUnpairedRoom(clock: int, hash: string, a: string, b: string)
    requires a != b
    ensures var w := Exec(clock, [Claim(hash)] + [Knock(a, hash)] + [AskUnpair(b, hash)] + [Verdict(b)] + [Verdict(a)]);
      && w.Some? && a in w.value.sockets && w.value.sockets[a].desk
      && !w.value.sockets[a].closing && w.value.sockets[a].told == None
  {
    var asked := [Claim(hash)] + [Knock(a, hash)] + [AskUnpair(b, hash)];
    TwoRequestsWait(clock, hash, a, AskUnpair(b, hash));
    var w := Exec(clock, asked).value;
    ExecStep(clock, asked, Verdict(b));
    DestroyCloses(w.(pending := w.pending - {b}));
    var t := Exec(clock, asked + [Verdict(b)]).value;
    assert t.pending == map[a := Upgrade(false, true)] && t.stored.None?;
    ExecStep(clock, asked + [Verdict(b)], Verdict(a));
    AcceptedDeskHearsIffPaired(clock, asked + [Verdict(b)], a);
  }

  /** A phone is let in exactly when the room is paired and fewer than four are there; nobody is put out for it. */
  lemma PhoneIsLetInIff(clock: int, events: seq<Event>, id: string)
    requires Exec(clock, events).Some? && Enabled(Exec(clock, events).value, JoinViewer(id))
    ensures var w := Exec(clock, events).value; var t := Step(w, JoinViewer(id));
      && |Viewers(w)| <= 4
      && (id in t.sockets <==> w.stored.Some? && |Viewers(w)| < 4)
      && (forall x :: x in w.sockets ==>
            x in t.sockets && t.sockets[x].code == w.sockets[x].code && t.sockets[x].desk == w.sockets[x].desk)
  {
    ReachableInv(clock, events);
    var l := Loaded(Exec(clock, events).value);
    if AdmitsViewer(l) {
      var joined := l.(sockets := l.sockets[id := FRESH_VIEWER]);
      var actions := AttachViewer(joined.core, id, Now(joined));
      PerformAllFrame(joined, actions);
      assert NoClose(actions);
      forall x | x in l.sockets
        ensures PerformAll(joined, actions).sockets[x].code == l.sockets[x].code
        ensures PerformAll(joined, actions).sockets[x].desk == l.sockets[x].desk
      {
        PerformAllSocket(joined, actions, x);
        AfterKeepsSeat(joined.sockets[x], x, actions);
        NoCloseKeepsOpen(joined.sockets[x], x, actions);
      }
    }
  }

  // ------------------------------------------------------------------------------ frames, storage, alarm, rates

  /** A phone let in while an open desk is there holds all seven channels, or the desk was nudged to resend. */
  lemma AttachIsCompleteOrNudges(clock: int, events: seq<Event>, id: string, desk: string)
    requires Exec(clock, events).Some? && Enabled(Exec(clock, events).value, JoinViewer(id))
    requires AdmitsViewer(Loaded(Exec(clock, events).value))
    requires desk in Desks(Exec(clock, events).value) && !Exec(clock, events).value.sockets[desk].closing
    ensures var w := Exec(clock, events).value; var t := Step(w, JoinViewer(id));
      && id in t.sockets && desk in t.sockets && !t.sockets[id].closing
      && ((forall c: Channel :: c in t.sockets[id].held) || t.sockets[desk].nudges == w.sockets[desk].nudges + 1)
      && (t.sockets[desk].nudges != w.sockets[desk].nudges ==> exists c: Channel :: c !in t.sockets[id].held)
  {
    ReachableInv(clock, events);
    var w := Exec(clock, events).value;
    LoadedKeepsInv(w, true);
    var l := Loaded(w);
    var joined := l.(sockets := l.sockets[id := FRESH_VIEWER]);
    var actions := AttachViewer(joined.core, id, Now(joined));
    assert Desks(joined) == Desks(w);
    PerformAllSocket(joined, actions, id);
    PerformAllSocket(joined, actions, desk);
    NewViewerKnows(joined, id);
    BystanderKnows(joined.sockets[desk], desk, joined, id);
    CacheSizeIsCoverage(joined.core.latest);
  }

  /** A cache is short exactly when some channel is missing from it. */
  lemma CacheSizeIsCoverage(latest: seq<Cached>)
    requires DistinctChannels(latest)
    ensures |latest| < CHANNELS <==> exists c: Channel :: c !in ChannelsOf(latest)
  {
    if |latest| >= CHANNELS {
      forall c: Channel ensures c in ChannelsOf(latest) { FullCacheHasEveryChannel(latest, c); }
    } else {
      DistinctChannelsCount(latest);
      var all: set<Channel> := {0, 1, 2, 3, 4, 5, 6};
      if all <= ChannelsOf(latest) { SubsetCardinality(all, ChannelsOf(latest)); }
      var c :| c in all && c !in ChannelsOf(latest);
    }
  }

  /** Reading the pairing back after a hibernation gives what memory held, and nobody hears of it. */
  lemma HibernationChangesNothing(clock: int, events: seq<Event>)
    requires Exec(clock, events).Some? && Enabled(Exec(clock, events).value, Hibernate)
    ensures var w := Exec(clock, events).value; var back := Loaded(Step(w, Hibernate));
      && back.core.pairing == Loaded(w).core.pairing && back.stored == w.stored && back.alarmAt == w.alarmAt
      && back.sockets == w.sockets && back.forwarded == w.forwarded
  {
    ReachableInv(clock, events);
  }

  /** In every reachable state a live pairing has its alarm at exactly its last contact (claim or desk attach) plus the TTL. */
  lemma LiveRoomHasItsAlarm(clock: int, events: seq<Event>)
    requires Exec(clock, events).Some? && Exec(clock, events).value.stored.Some?
    ensures var w := Exec(clock, events).value;
      w.contacts != [] && w.alarmAt == Some(w.contacts[|w.contacts| - 1] + 30 * 24 * 60 * 60 * 1000)
  {
    ReachableInv(clock, events);
  }

  lemma AlarmSpares(l: World)
    requires Inv(l, true) && l.loaded && l.stored.Some? && l.clock - l.stored.value.lastDeskAt < PHONE_ROOM_TTL_MS
    ensures OnWake(l.(alarmAt := None)) == l
  {
    RearmIsAll(l);
  }

  lemma AlarmTakes(l: World)
    requires Inv(l, true) && l.loaded && l.stored.Some? && l.clock - l.stored.value.lastDeskAt >= PHONE_ROOM_TTL_MS
    ensures var t := OnWake(l.(alarmAt := None)); t.stored.None? && forall id :: id in t.sockets ==> t.sockets[id].closing
  {
    var a := l.(alarmAt := None);
    assert Desks(a) == Desks(l) && Viewers(a) == Viewers(l);
    assert OnWake(a) == OnDestroy(a);
    DestroyKeepsInv(a, true);
  }

  /**
   * The alarm takes a live room if and only if the room has been silent for the TTL, whoever is online; one
   * that fires on time always does, so a desk that stays attached for a whole TTL loses its room. A room that
   * is spared keeps its pairing and its alarm.
   */
  lemma AlarmDestroysIffSilent(clock: int, events: seq<Event>)
    requires Exec(clock, events).Some? && Exec(clock, events).value.stored.Some?
    requires Enabled(Exec(clock, events).value, WakeUp)
    ensures var w := Exec(clock, events).value; var t := Step(w, WakeUp);
      && (t.stored.None? <==> Silent(w))
      && (t.stored.Some? ==> t.stored == w.stored && t.alarmAt == w.alarmAt)
      && (w.clock >= w.alarmAt.value ==> t.stored.None?)
      && (t.stored.None? ==> forall id :: id in t.sockets ==> t.sockets[id].closing)
  {
    ReachableInv(clock, events);
    var w := Exec(clock, events).value;
    LoadedKeepsInv(w, true);
    SilenceIsTheLastContact(w);
    if w.clock - w.stored.value.lastDeskAt < PHONE_ROOM_TTL_MS { AlarmSpares(Loaded(w)); } else { AlarmTakes(Loaded(w)); }
  }

  function CountWithin(times: seq<int>, from: int, to: int): nat {
    if times == [] then 0
    else CountWithin(times[..|times| - 1], from, to) + (if from <= times[|times| - 1] <= to then 1 else 0)
  }

  lemma {:induction false} GappedCount(times: seq<int>, from: int, to: int)
    requires Gapped(times) && from <= to
    ensures (CountWithin(times, from, to) - 1) * PHONE_MIN_FRAME_GAP_MS <= to - from
    ensures times != [] && CountWithin(times, from, to) > 0 ==>
      (CountWithin(times, from, to) - 1) * PHONE_MIN_FRAME_GAP_MS <= times[|times| - 1] - from
  {
    if times != [] {
      var n := |times| - 1;
      var front := times[..n];
      GappedCount(front, from, to);
      if n > 0 { assert times[n - 1] + PHONE_MIN_FRAME_GAP_MS <= times[n]; }
    }
  }

  /** Since the cache was last emptied, the frames relayed on a channel within [from, to] number at most (to - from)/gap + 1. */
  lemma RelayRateIsBounded(clock: int, events: seq<Event>, c: Channel, from: int, to: int)
    requires Exec(clock, events).Some? && from <= to
    ensures CountWithin(Times(Exec(clock, events).value.relays, c), from, to) <= (to - from) / 250 + 1
  {
    ReachableInv(clock, events);
    var w := Exec(clock, events).value;
    assert RateInvAt(w, c);
    GappedCount(Times(w.relays, c), from, to);
  }

  /** Is the gap since the channel's last relay over? (With no relay yet the clock itself must be past the gap.) */
  predicate GapOver(w: World, c: Channel) {
    var times := Times(w.relays, c);
    (if times == [] then 0 else times[|times| - 1]) + 250 <= w.clock
  }

  /** A desk's message reaches every open phone, verbatim, exactly when it is a small frame of a known channel whose gap is over. */
  lemma FrameReachesEveryPhone(clock: int, events: seq<Event>, desk: string, x: string, data: Data)
    requires Exec(clock, events).Some?
    requires desk in Desks(Exec(clock, events).value) && x in Viewers(Exec(clock, events).value)
    requires !Exec(clock, events).value.sockets[x].closing
    ensures var w := Exec(clock, events).value; var t := Step(w, Speak(desk, data));
      && x in t.sockets
      && t.sockets[x] == (if |data.text| <= 64 * 1024 && data.channel.Some? && GapOver(w, data.channel.value)
                          then w.sockets[x].(held := w.sockets[x].held[data.channel.value := data.text]) else w.sockets[x])
  {
    ReachableInv(clock, events);
    var w := Exec(clock, events).value;
    LoadedKeepsInv(w, true);
    var l := Loaded(w);
    assert Desks(l) == Desks(w);
    if data.channel.Some? {
      assert RateInvAt(l, data.channel.value);
      assert Relays(l.core, data, l.clock) <==> |data.text| <= PHONE_MAX_FRAME_BYTES && GapOver(w, data.channel.value);
    }
    FrameReaches(l, x, data);
  }

  lemma FrameReaches(l: World, x: string, data: Data)
    requires x in Viewers(l) && !l.sockets[x].closing
    ensures var t := OnFrame(l, data);
      && x in t.sockets
      && t.sockets[x] == if Relays(l.core, data, l.clock)
                         then l.sockets[x].(held := l.sockets[x].held[data.channel.value := data.text]) else l.sockets[x]
  {
    var d := DeskMessage(l.core, data, l.clock);
    PerformAllSocket(l.(core := d.core), d.actions, x);
    if d.actions != [] { assert d.actions[1..] == []; }
  }
}
