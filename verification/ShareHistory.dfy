/**
 * The states a share was published over (history.ts). The stored row is JSON that the service does not trust:
 * every read rebuilds each entry field by field. Numbers are the finite ones JSON can carry.
 */
module ShareHistory {
  import opened Prelude

  const HISTORY_CAP: nat := 30
  const MAX_CELLS: nat := 40
  const MAX_CLASSES: nat := 8
  const MAX_NAME_CHARS: nat := 120
  const MAX_AT_CHARS: nat := 40

  datatype Json =
    | JNull
    | JBool(bool)
    | JNum(num: real)
    | JStr(str: string)
    | JArr(elements: seq<Json>)
    | JObj(fields: map<string, Json>)

  datatype Item = Item(slot: string, item: string, tier: Option<real>)
  datatype Scores = Scores(tank: real, dps: real, heal: real, solo: real)
  datatype Snapshot = Snapshot(
    at: string, ac: real, scores: Option<Scores>, level: Option<real>, classes: seq<string>, items: seq<Item>)

  // ------------------------------------------------------------------------------------------ sequences

  function Map<A, B>(f: A -> B, s: seq<A>): (r: seq<B>)
    ensures |r| == |s|
    ensures forall i :: 0 <= i < |s| ==> r[i] == f(s[i])
  {
    seq(|s|, i requires 0 <= i < |s| => f(s[i]))
  }

  /** The results of `f` on the elements it accepts, in order. */
  function Collect<A, B>(f: A -> Option<B>, s: seq<A>): seq<B> {
    if s == [] then []
    else Collect(f, s[..|s| - 1]) + (match f(s[|s| - 1]) case Some(b) => [b] case None => [])
  }

  function Reverse<T>(s: seq<T>): seq<T> {
    if s == [] then [] else [s[|s| - 1]] + Reverse(s[..|s| - 1])
  }

  // ------------------------------------------------------------------------- reading one entry back

  /** A property of an untrusted value: arrays and scalars have none of the names asked for. */
  function Field(raw: Json, name: string): Option<Json> {
    if raw.JObj? && name in raw.fields then Some(raw.fields[name]) else None
  }

  /** Halves round up. */
  function Round(x: real): real {
    (x + 0.5).Floor as real
  }

  function IntOf(v: Option<Json>): Option<real> {
    if v.Some? && v.value.JNum? then Some(Round(v.value.num)) else None
  }

  function StringOf(v: Json): Option<string> {
    if v.JStr? then Some(v.str) else None
  }

  function ScoresFrom(raw: Option<Json>): Option<Scores> {
    if raw.None? then None
    else
      var tank := IntOf(Field(raw.value, "tank"));
      var dps := IntOf(Field(raw.value, "dps"));
      var heal := IntOf(Field(raw.value, "heal"));
      var solo := IntOf(Field(raw.value, "solo"));
      if tank.None? || dps.None? || heal.None? || solo.None? then None
      else Some(Scores(tank.value, dps.value, heal.value, solo.value))
  }

  function ItemFrom(raw: Json): Option<Item> {
    var slot := Field(raw, "slot");
    var item := Field(raw, "item");
    if slot.Some? && slot.value.JStr? && item.Some? && item.value.JStr?
    then Some(Item(Take(slot.value.str, MAX_NAME_CHARS), Take(item.value.str, MAX_NAME_CHARS), IntOf(Field(raw, "tier"))))
    else None
  }

  function ElementsOf(raw: Option<Json>): seq<Json> {
    if raw.Some? && raw.value.JArr? then raw.value.elements else []
  }

  function ItemsFrom(raw: Option<Json>): seq<Item> {
    Take(Collect(ItemFrom, ElementsOf(raw)), MAX_CELLS)
  }

  function ShortName(name: string): string {
    Take(name, MAX_NAME_CHARS)
  }

  function ClassesFrom(raw: Option<Json>): seq<string> {
    Map(ShortName, Take(Collect(StringOf, ElementsOf(raw)), MAX_CLASSES))
  }

  function SnapshotFrom(raw: Json): Option<Snapshot> {
    var ac := IntOf(Field(raw, "ac"));
    var at := Field(raw, "at");
    if at.None? || !at.value.JStr? || ac.None? then None
    else Some(Snapshot(
      Take(at.value.str, MAX_AT_CHARS), ac.value, ScoresFrom(Field(raw, "scores")), IntOf(Field(raw, "level")),
      ClassesFrom(Field(raw, "classes")), ItemsFrom(Field(raw, "items"))))
  }

  /** What a reader gets of the row: the entries that are snapshots, among the first thirty. */
  function ReadHistory(stored: Option<Json>): seq<Snapshot> {
    Collect(SnapshotFrom, Take(ElementsOf(stored), HISTORY_CAP))
  }

  lemma {:induction false} CollectStep<A, B>(f: A -> Option<B>, s: seq<A>, i: nat)
    requires i < |s|
    ensures Collect(f, s[..i + 1]) == Collect(f, s[..i]) + (match f(s[i]) case Some(b) => [b] case None => [])
  {
    assert s[..i + 1][..i] == s[..i];
  }

  lemma {:induction false} CollectGrows<A, B>(f: A -> Option<B>, s: seq<A>, i: nat)
    requires i <= |s|
    ensures Collect(f, s[..i]) <= Collect(f, s)
    decreases |s| - i
  {
    if i < |s| {
      CollectStep(f, s, i);
      CollectGrows(f, s, i + 1);
    } else {
      assert s[..i] == s;
    }
  }

  /** The push loop of the sanitizers, which stops once it has `cap` results. */
  method CollectUpTo<A, B>(f: A -> Option<B>, s: seq<A>, cap: nat) returns (out: seq<B>)
    ensures out == Take(Collect(f, s), cap)
  {
    out := [];
    var i := 0;
    while i < |s| && |out| < cap
      invariant i <= |s| && |out| <= cap
      invariant out == Collect(f, s[..i])
    {
      CollectStep(f, s, i);
      var b := f(s[i]);
      if b.Some? { out := out + [b.value]; }
      i := i + 1;
    }
    CollectGrows(f, s, i);
    if i == |s| { assert s[..i] == s; }
  }

  method ReadItems(raw: Json) returns (out: seq<Item>)
    ensures out == ItemsFrom(Some(raw))
  {
    if !raw.JArr? { return []; }
    out := CollectUpTo(ItemFrom, raw.elements, MAX_CELLS);
  }

  /** The loop of readHistory, over at most the first thirty stored entries. */
  method ReadList(stored: Option<Json>) returns (out: seq<Snapshot>)
    ensures out == ReadHistory(stored) && |out| <= 30
  {
    out := [];
    var raw := Take(ElementsOf(stored), HISTORY_CAP);
    for i := 0 to |raw|
      invariant out == Collect(SnapshotFrom, raw[..i]) && |out| <= i
    {
      CollectStep(SnapshotFrom, raw, i);
      var snapshot := SnapshotFrom(raw[i]);
      if snapshot.Some? { out := out + [snapshot.value]; }
    }
    assert raw[..|raw|] == raw;
  }

  // ----------------------------------------------------------------------------------- writing, and the push

  function Optional(name: string, value: Option<Json>): map<string, Json> {
    if value.Some? then map[name := value.value] else map[]
  }

  function NumOrNone(x: Option<real>): Option<Json> {
    if x.Some? then Some(JNum(x.value)) else None
  }

  function ItemJson(item: Item): Json {
    JObj(map["slot" := JStr(item.slot), "item" := JStr(item.item)] + Optional("tier", NumOrNone(item.tier)))
  }

  function ScoresJson(s: Scores): Json {
    JObj(map["tank" := JNum(s.tank), "dps" := JNum(s.dps), "heal" := JNum(s.heal), "solo" := JNum(s.solo)])
  }

  function StringJson(s: string): Json {
    JStr(s)
  }

  function SnapshotJson(s: Snapshot): Json {
    JObj(
      map["at" := JStr(s.at), "ac" := JNum(s.ac),
          "classes" := JArr(Map(StringJson, s.classes)), "items" := JArr(Map(ItemJson, s.items))]
      + Optional("scores", if s.scores.Some? then Some(ScoresJson(s.scores.value)) else None)
      + Optional("level", NumOrNone(s.level)))
  }

  /** The row pushHistory writes: the replaced state in front of what could be read of the old row. */
  function PushHistory(stored: Option<Json>, snapshot: Snapshot): Json {
    JArr(Map(SnapshotJson, Take([snapshot] + ReadHistory(stored), HISTORY_CAP)))
  }

  // ------------------------------------------------------------------------------------- the round trip

  function RoundOption(x: Option<real>): Option<real> {
    if x.Some? then Some(Round(x.value)) else None
  }

  function ClampItem(item: Item): Item {
    Item(ShortName(item.slot), ShortName(item.item), RoundOption(item.tier))
  }

  function ClampScores(s: Option<Scores>): Option<Scores> {
    if s.None? then None
    else Some(Scores(Round(s.value.tank), Round(s.value.dps), Round(s.value.heal), Round(s.value.solo)))
  }

  function ClampClasses(classes: seq<string>): seq<string> {
    Map(ShortName, Take(classes, MAX_CLASSES))
  }

  function ClampItems(items: seq<Item>): seq<Item> {
    Map(ClampItem, Take(items, MAX_CELLS))
  }

  /** What survives of a state once it has been stored and read back. */
  function Clamp(s: Snapshot): Snapshot {
    Snapshot(
      Take(s.at, MAX_AT_CHARS), Round(s.ac), ClampScores(s.scores), RoundOption(s.level),
      ClampClasses(s.classes), ClampItems(s.items))
  }

  lemma FloorOfWhole(n: int, x: real)
    requires n as real <= x < n as real + 1.0
    ensures x.Floor == n
  {
  }

  lemma RoundTwice(x: real)
    ensures Round(Round(x)) == Round(x)
  {
    var n := (x + 0.5).Floor;
    FloorOfWhole(n, n as real + 0.5);
  }

  lemma {:induction false} CollectMapped<A, B, C>(write: A -> B, read: B -> Option<C>, clamp: A -> C, s: seq<A>)
    requires forall i :: 0 <= i < |s| ==> read(write(s[i])) == Some(clamp(s[i]))
    ensures Collect(read, Map(write, s)) == Map(clamp, s)
  {
    if s != [] {
      var front := s[..|s| - 1];
      CollectMapped(write, read, clamp, front);
      assert Map(write, s)[..|s| - 1] == Map(write, front);
      assert Map(clamp, s) == Map(clamp, front) + [clamp(s[|s| - 1])];
    }
  }

  lemma ItemReadsBack(item: Item)
    ensures ItemFrom(ItemJson(item)) == Some(ClampItem(item))
  {
    var fields := ItemJson(item).fields;
    assert fields["slot"] == JStr(item.slot) && fields["item"] == JStr(item.item);
    assert item.tier.None? ==> "tier" !in fields;
  }

  lemma ScoresReadBack(s: Scores)
    ensures ScoresFrom(Some(ScoresJson(s))) == ClampScores(Some(s))
  {
    var fields := ScoresJson(s).fields;
    assert fields["tank"] == JNum(s.tank) && fields["dps"] == JNum(s.dps);
    assert fields["heal"] == JNum(s.heal) && fields["solo"] == JNum(s.solo);
  }

  lemma SnapshotFields(s: Snapshot)
    ensures var raw := SnapshotJson(s);
      && Field(raw, "at") == Some(JStr(s.at)) && Field(raw, "ac") == Some(JNum(s.ac))
      && Field(raw, "classes") == Some(JArr(Map(StringJson, s.classes)))
      && Field(raw, "items") == Some(JArr(Map(ItemJson, s.items)))
      && Field(raw, "scores") == (if s.scores.Some? then Some(ScoresJson(s.scores.value)) else None)
      && Field(raw, "level") == NumOrNone(s.level)
  {
  }

  lemma TakeMap<A, B>(f: A -> B, s: seq<A>, n: nat)
    ensures Take(Map(f, s), n) == Map(f, Take(s, n))
  {
  }

  lemma ItemsReadBack(items: seq<Item>)
    ensures ItemsFrom(Some(JArr(Map(ItemJson, items)))) == ClampItems(items)
  {
    forall i | 0 <= i < |items| ensures ItemFrom(ItemJson(items[i])) == Some(ClampItem(items[i])) {
      ItemReadsBack(items[i]);
    }
    CollectMapped(ItemJson, ItemFrom, ClampItem, items);
    TakeMap(ClampItem, items, MAX_CELLS);
  }

  function Same(s: string): string {
    s
  }

  lemma ClassesReadBack(classes: seq<string>)
    ensures ClassesFrom(Some(JArr(Map(StringJson, classes)))) == ClampClasses(classes)
  {
    CollectMapped(StringJson, StringOf, Same, classes);
    assert Map(Same, classes) == classes;
  }

  /** Whatever is written reads back as its clamped self, so no snapshot is ever lost to its own sanitizer. */
  lemma SnapshotReadsBack(s: Snapshot)
    ensures SnapshotFrom(SnapshotJson(s)) == Some(Clamp(s))
  {
    SnapshotFields(s);
    if s.scores.Some? { ScoresReadBack(s.scores.value); }
    ItemsReadBack(s.items);
    ClassesReadBack(s.classes);
  }

  predicate Settled(s: Snapshot) {
    Clamp(s) == s
  }

  /** Within the limits of the share format, with integral figures, a state is stored exactly. */
  lemma SettledIffWithinLimits(s: Snapshot)
    ensures Settled(s) <==>
      && |s.at| <= 40 && |s.classes| <= 8 && |s.items| <= 40
      && Round(s.ac) == s.ac && ClampScores(s.scores) == s.scores && RoundOption(s.level) == s.level
      && (forall i :: 0 <= i < |s.classes| ==> |s.classes[i]| <= 120)
      && (forall i :: 0 <= i < |s.items| ==>
        |s.items[i].slot| <= 120 && |s.items[i].item| <= 120
        && RoundOption(s.items[i].tier) == s.items[i].tier)
  {
    if Settled(s) {
      forall i | 0 <= i < |s.classes| ensures |s.classes[i]| <= MAX_NAME_CHARS {
        assert s.classes[i] == Clamp(s).classes[i];
      }
      forall i | 0 <= i < |s.items| ensures s.items[i] == ClampItem(s.items[i]) {
        assert s.items[i] == Clamp(s).items[i];
      }
    } else if |s.classes| <= MAX_CLASSES && |s.items| <= MAX_CELLS {
      assert Map(ShortName, s.classes) == s.classes || exists i :: 0 <= i < |s.classes| && ShortName(s.classes[i]) != s.classes[i];
      assert Map(ClampItem, s.items) == s.items || exists i :: 0 <= i < |s.items| && ClampItem(s.items[i]) != s.items[i];
    }
  }

  lemma ClampListTwice<A>(f: A -> A, s: seq<A>, n: nat)
    requires |s| <= n && forall i :: 0 <= i < |s| ==> f(s[i]) == s[i]
    ensures Map(f, Take(s, n)) == s
  {
  }

  lemma IntTwice(v: Option<Json>)
    ensures RoundOption(IntOf(v)) == IntOf(v)
  {
    if v.Some? && v.value.JNum? { RoundTwice(v.value.num); }
  }

  lemma ItemIsSettled(raw: Json)
    ensures ItemFrom(raw).Some? ==> ClampItem(ItemFrom(raw).value) == ItemFrom(raw).value
  {
    IntTwice(Field(raw, "tier"));
  }

  lemma ItemsAreSettled(raw: Option<Json>)
    ensures ClampItems(ItemsFrom(raw)) == ItemsFrom(raw)
  {
    var items := ItemsFrom(raw);
    forall i | 0 <= i < |items| ensures ClampItem(items[i]) == items[i] {
      CollectImage(ItemFrom, ElementsOf(raw), i);
      var one :| ItemFrom(one) == Some(items[i]);
      ItemIsSettled(one);
    }
    ClampListTwice(ClampItem, items, MAX_CELLS);
  }

  lemma ScoresAreSettled(raw: Option<Json>)
    ensures ClampScores(ScoresFrom(raw)) == ScoresFrom(raw)
  {
    if raw.Some? {
      IntTwice(Field(raw.value, "tank"));
      IntTwice(Field(raw.value, "dps"));
      IntTwice(Field(raw.value, "heal"));
      IntTwice(Field(raw.value, "solo"));
    }
  }

  /** Anything the sanitizer lets through is already settled, whatever was stored. */
  lemma ReadIsSettled(raw: Json)
    ensures SnapshotFrom(raw).Some? ==> Settled(SnapshotFrom(raw).value)
  {
    if SnapshotFrom(raw).Some? {
      IntTwice(Field(raw, "ac"));
      IntTwice(Field(raw, "level"));
      ScoresAreSettled(Field(raw, "scores"));
      ItemsAreSettled(Field(raw, "items"));
      ClampListTwice(ShortName, ClassesFrom(Field(raw, "classes")), MAX_CLASSES);
    }
  }

  lemma ClampSettles(s: Snapshot)
    ensures Settled(Clamp(s))
  {
    SnapshotReadsBack(s);
    ReadIsSettled(SnapshotJson(s));
  }

  lemma {:induction false} CollectImage<A, B>(f: A -> Option<B>, s: seq<A>, i: nat)
    requires i < |Collect(f, s)|
    ensures exists a :: a in s && f(a) == Some(Collect(f, s)[i])
  {
    var last := s[|s| - 1];
    if i < |Collect(f, s[..|s| - 1])| {
      CollectImage(f, s[..|s| - 1], i);
    } else {
      assert last in s;
    }
  }

  lemma PastIsSettled(stored: Option<Json>, i: nat)
    requires i < |ReadHistory(stored)|
    ensures Settled(ReadHistory(stored)[i])
  {
    CollectImage(SnapshotFrom, Take(ElementsOf(stored), HISTORY_CAP), i);
    var raw :| SnapshotFrom(raw) == Some(ReadHistory(stored)[i]);
    ReadIsSettled(raw);
  }

  /** One push: the replaced state in front, the rest as it was read, the oldest dropped past the cap. */
  lemma PushReadsBack(stored: Option<Json>, snapshot: Snapshot)
    ensures ReadHistory(Some(PushHistory(stored, snapshot))) == Take([Clamp(snapshot)] + ReadHistory(stored), HISTORY_CAP)
  {
    var past := ReadHistory(stored);
    var list := Take([snapshot] + past, HISTORY_CAP);
    forall i | 0 <= i < |list| ensures SnapshotFrom(SnapshotJson(list[i])) == Some(Clamp(list[i])) {
      SnapshotReadsBack(list[i]);
    }
    CollectMapped(SnapshotJson, SnapshotFrom, Clamp, list);
    forall i | 0 <= i < |past| ensures Clamp(past[i]) == past[i] {
      PastIsSettled(stored, i);
    }
    MapPushed(Clamp, snapshot, past, HISTORY_CAP);
    var row := Map(SnapshotJson, list);
    assert Take(row, HISTORY_CAP) == row;
  }

  lemma MapPushed<A>(f: A -> A, x: A, past: seq<A>, n: nat)
    requires forall i :: 0 <= i < |past| ==> f(past[i]) == past[i]
    ensures Map(f, Take([x] + past, n)) == Take([f(x)] + past, n)
  {
  }

  // --------------------------------------------------------------------------- any number of re-publishes

  function PushAll(stored: Option<Json>, snapshots: seq<Snapshot>): Option<Json> {
    if snapshots == [] then stored
    else Some(PushHistory(PushAll(stored, snapshots[..|snapshots| - 1]), snapshots[|snapshots| - 1]))
  }

  lemma TakeTake<T>(x: T, rest: seq<T>, tail: seq<T>, n: nat)
    ensures Take([x] + Take(rest + tail, n), n) == Take([x] + rest + tail, n)
  {
    assert [x] + rest + tail == [x] + (rest + tail);
  }

  /** The newest thirty of `replaced`, newest first, as they read back. */
  function Newest(replaced: seq<Snapshot>): seq<Snapshot> {
    Take(Reverse(Map(Clamp, replaced)), 30)
  }

  lemma {:induction false} ReverseAt<T>(s: seq<T>, k: nat)
    requires k < |s|
    ensures |Reverse(s)| == |s| && Reverse(s)[k] == s[|s| - 1 - k]
  {
    var front := s[..|s| - 1];
    if front == [] {
      assert Reverse(front) == [];
    } else {
      ReverseAt(front, if k > 0 then k - 1 else 0);
    }
  }

  /** Entry k is the state replaced k re-publishes before the last one; no more than thirty are kept. */
  lemma NewestAt(replaced: seq<Snapshot>, k: nat)
    requires k < |replaced|
    ensures |Newest(replaced)| == Min(|replaced|, 30)
    ensures k < 30 ==> Newest(replaced)[k] == Clamp(replaced[|replaced| - 1 - k])
  {
    ReverseAt(Map(Clamp, replaced), k);
  }

  lemma NewestGrows(replaced: seq<Snapshot>, s: Snapshot)
    ensures Newest(replaced + [s]) == Take([Clamp(s)] + Newest(replaced), HISTORY_CAP)
  {
    var all := Map(Clamp, replaced + [s]);
    assert all[..|replaced|] == Map(Clamp, replaced);
    var before := Reverse(Map(Clamp, replaced));
    TakeTake(Clamp(s), before, [], HISTORY_CAP);
    assert before + [] == before && [Clamp(s)] + before + [] == [Clamp(s)] + before;
  }

  lemma ReverseMapped(snapshots: seq<Snapshot>)
    requires snapshots != []
    ensures Reverse(Map(Clamp, snapshots))
      == [Clamp(snapshots[|snapshots| - 1])] + Reverse(Map(Clamp, snapshots[..|snapshots| - 1]))
  {
    var all := Map(Clamp, snapshots);
    assert all[..|all| - 1] == Map(Clamp, snapshots[..|snapshots| - 1]);
  }

  /** From any stored junk, the history is the newest thirty pushed states in order, then what was readable. */
  lemma {:induction false} HistoryIsTheNewestReplaced(stored: Option<Json>, snapshots: seq<Snapshot>)
    ensures ReadHistory(PushAll(stored, snapshots))
      == Take(Reverse(Map(Clamp, snapshots)) + ReadHistory(stored), 30)
  {
    if snapshots == [] {
      ReadHistoryIsCapped(stored);
      assert Reverse(Map(Clamp, snapshots)) + ReadHistory(stored) == ReadHistory(stored);
    } else {
      var front := snapshots[..|snapshots| - 1];
      var last := snapshots[|snapshots| - 1];
      HistoryIsTheNewestReplaced(stored, front);
      PushReadsBack(PushAll(stored, front), last);
      ReverseMapped(snapshots);
      TakeTake(Clamp(last), Reverse(Map(Clamp, front)), ReadHistory(stored), HISTORY_CAP);
    }
  }

  lemma ReadHistoryIsCapped(stored: Option<Json>)
    ensures |ReadHistory(stored)| <= HISTORY_CAP
  {
    CollectIsNoLonger(SnapshotFrom, Take(ElementsOf(stored), HISTORY_CAP));
  }

  lemma {:induction false} CollectIsNoLonger<A, B>(f: A -> Option<B>, s: seq<A>)
    ensures |Collect(f, s)| <= |s|
  {
    if s != [] { CollectIsNoLonger(f, s[..|s| - 1]); }
  }
}
