/** `RoomCore` of phoneRoom.ts as the object it is, proved against the policy functions. */
module PhoneRoomCore {
  import opened Prelude
  import opened RoomPolicy

  /** The core as an object: each method moves `Value()` and answers as the function of the same name says. */
  class RoomCore {
    var pairing: Option<Pairing>
    var latest: seq<Cached>
    var sentAt: map<Channel, int>

    ghost function Value(): Core
      reads this
    {
      Core(pairing, latest, sentAt)
    }

    constructor ()
      ensures Value() == EMPTY
    {
      pairing, latest, sentAt := None, [], map[];
    }

    method Restore(record: Pairing)
      modifies this
      ensures Value() == old(Value()).(pairing := Some(record))
    {
      pairing := Some(record);
    }

    method Create(hash: string, now: int) returns (actions: Option<seq<Action>>)
      modifies this
      ensures var d := RoomPolicy.Create(old(Value()), hash, now);
        if d.Some? then Value() == d.value.core && actions == Some(d.value.actions) else Value() == old(Value()) && actions == None
    {
      if pairing.Some? { return None; }
      pairing := Some(Pairing(hash, now, now));
      return Some([Save(pairing), Alarm(now + PHONE_ROOM_TTL_MS)]);
    }

    method Destroy() returns (actions: seq<Action>)
      modifies this
      ensures Decision(Value(), actions) == RoomPolicy.Destroy(old(Value()))
    {
      pairing, latest, sentAt := None, [], map[];
      actions := [Save(None), Close(ToViewers, UNPAIRED), Close(ToDesk, UNPAIRED)];
    }

    method AttachViewer(id: string, ctx: RoomNow) returns (out: seq<Action>)
      ensures out == RoomPolicy.AttachViewer(Value(), id, ctx)
    {
      out := [Send(ToSocket(id), Presence(ctx.deskOnline))];
      for i := 0 to |latest|
        invariant out == [Send(ToSocket(id), Presence(ctx.deskOnline))] + Replay(latest, id)[..i]
      {
        out := out + [Send(ToSocket(id), Frame(latest[i].channel, latest[i].text))];
      }
      assert Replay(latest, id)[..|latest|] == Replay(latest, id);
      if ctx.deskOnline {
        out := out + [Send(ToDesk, ViewerCount(ctx.viewers))];
        if |latest| < CHANNELS { out := out + [Send(ToDesk, Resend)]; }
      }
    }

    method AttachDesk(ctx: RoomNow) returns (actions: seq<Action>)
      modifies this
      ensures Decision(Value(), actions) == RoomPolicy.AttachDesk(old(Value()), ctx)
    {
      if pairing.None? { return []; }
      pairing := Some(pairing.value.(lastDeskAt := ctx.now));
      actions := [Save(pairing), Alarm(ctx.now + PHONE_ROOM_TTL_MS),
                  Send(ToViewers, Presence(true)), Send(ToDesk, ViewerCount(ctx.viewers))];
    }

    method DeskMessage(data: Data, now: int) returns (actions: seq<Action>)
      modifies this
      ensures Decision(Value(), actions) == RoomPolicy.DeskMessage(old(Value()), data, now)
    {
      if |data.text| > PHONE_MAX_FRAME_BYTES { return [Close(ToDesk, TOO_LARGE)]; }
      if data.channel.None? { return []; }
      var c := data.channel.value;
      if now - LastSent(sentAt, c) < PHONE_MIN_FRAME_GAP_MS { return []; }
      sentAt := sentAt[c := now];
      SetLatest(c, data.text);
      actions := [Send(ToViewers, Frame(c, data.text))];
    }

    method SetLatest(c: Channel, text: string)
      modifies this`latest
      ensures latest == Put(old(latest), c, text)
    {
      var i := 0;
      while i < |latest| && latest[i].channel != c
        invariant 0 <= i <= |latest| && latest == old(latest)
        invariant forall k :: 0 <= k < i ==> latest[k].channel != c
      {
        i := i + 1;
      }
      PutSkips(latest, i, c, text);
      latest := if i < |latest| then latest[i := Cached(c, text)] else latest + [Cached(c, text)];
    }

    method OnAlarm(now: int) returns (actions: seq<Action>)
      modifies this
      ensures Decision(Value(), actions) == RoomPolicy.OnAlarm(old(Value()), now)
    {
      if pairing.None? { return []; }
      if now - pairing.value.lastDeskAt < PHONE_ROOM_TTL_MS {
        return [Alarm(pairing.value.lastDeskAt + PHONE_ROOM_TTL_MS)];
      }
      actions := Destroy();
    }
  }
}
