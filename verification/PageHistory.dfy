/**
 * The History panel (pageHistory.ts): for each re-publish, the slots whose item changed. The markup, the dates
 * and the figures are left out; a row here is what a list entry says about one slot.
 */
module PageHistory {
  import opened Prelude
  import opened ShareHistory

  const HISTORY_ROWS: nat := 10

  /** The item a slot wears. A later entry for a slot replaces an earlier one, as building a Map does. */
  function Worn(items: seq<Item>, slot: string): Option<string> {
    if items == [] then None
    else if items[|items| - 1].slot == slot then Some(items[|items| - 1].item)
    else Worn(items[..|items| - 1], slot)
  }

  /** The keys of that Map, in the order in which they were first inserted. */
  function Slots(items: seq<Item>): seq<string> {
    if items == [] then []
    else
      var before := Slots(items[..|items| - 1]);
      var slot := items[|items| - 1].slot;
      if slot in before then before else before + [slot]
  }

  datatype Row = Row(slot: string, was: Option<string>, now: Option<string>)

  predicate Changed(from: seq<Item>, to: seq<Item>, slot: string) {
    Worn(from, slot).GetOr("") != Worn(to, slot).GetOr("")
  }

  function Without(slots: seq<string>, taken: seq<string>): seq<string> {
    if slots == [] then []
    else
      var last := slots[|slots| - 1];
      Without(slots[..|slots| - 1], taken) + (if last in taken then [] else [last])
  }

  /** The newer state's slots in its own order, then the slots that disappeared. */
  function AllSlots(from: seq<Item>, to: seq<Item>): seq<string> {
    Slots(to) + Without(Slots(from), Slots(to))
  }

  function RowsFor(from: seq<Item>, to: seq<Item>, slots: seq<string>): seq<Row> {
    if slots == [] then []
    else
      var last := slots[|slots| - 1];
      RowsFor(from, to, slots[..|slots| - 1])
      + (if Changed(from, to, last) then [Row(last, Worn(from, last), Worn(to, last))] else [])
  }

  function ItemRows(from: Snapshot, to: Snapshot): seq<Row> {
    RowsFor(from.items, to.items, AllSlots(from.items, to.items))
  }

  /** The state that followed stored snapshot `i`: the one before it in the list, or the page's own. */
  function Successor(current: Snapshot, history: seq<Snapshot>, i: nat): Snapshot
    requires i < |history|
  {
    if i == 0 then current else history[i - 1]
  }

  /** One list of rows for each shown snapshot, newest first. */
  function HistoryPanel(current: Snapshot, history: seq<Snapshot>): (panel: seq<seq<Row>>)
    ensures |panel| == Min(|history|, 10)
  {
    var shown := Take(history, HISTORY_ROWS);
    seq(|shown|, i requires 0 <= i < |shown| => ItemRows(shown[i], Successor(current, history, i)))
  }

  // --------------------------------------------------------------------- each changed slot exactly once

  lemma {:induction false} SlotsAreTheWorn(items: seq<Item>, slot: string)
    ensures slot in Slots(items) <==> Worn(items, slot).Some?
  {
    if items != [] {
      SlotsAreTheWorn(items[..|items| - 1], slot);
    }
  }

  lemma {:induction false} SlotsAreDistinct(items: seq<Item>)
    ensures NoRepeats(Slots(items))
  {
    if items != [] { SlotsAreDistinct(items[..|items| - 1]); }
  }

  lemma {:induction false} WithoutMembers(slots: seq<string>, taken: seq<string>, slot: string)
    ensures slot in Without(slots, taken) <==> slot in slots && slot !in taken
  {
    if slots != [] {
      WithoutMembers(slots[..|slots| - 1], taken, slot);
      assert slots == slots[..|slots| - 1] + [slots[|slots| - 1]];
    }
  }

  lemma {:induction false} WithoutIsDistinct(slots: seq<string>, taken: seq<string>)
    requires NoRepeats(slots)
    ensures NoRepeats(Without(slots, taken))
  {
    if slots != [] {
      var front := slots[..|slots| - 1];
      WithoutIsDistinct(front, taken);
      WithoutMembers(front, taken, slots[|slots| - 1]);
    }
  }

  lemma ConcatDistinct(a: seq<string>, b: seq<string>)
    requires NoRepeats(a) && NoRepeats(b) && forall slot :: slot in a ==> slot !in b
    ensures NoRepeats(a + b)
  {
    forall i, j | 0 <= i < j < |a + b| ensures (a + b)[i] != (a + b)[j] {
      if i < |a| <= j {
        assert a[i] in a && b[j - |a|] in b;
      }
    }
  }

  lemma AllSlotsAreDistinct(from: seq<Item>, to: seq<Item>)
    ensures NoRepeats(AllSlots(from, to))
    ensures forall slot :: slot in AllSlots(from, to) <==> Worn(from, slot).Some? || Worn(to, slot).Some?
  {
    SlotsAreDistinct(from);
    SlotsAreDistinct(to);
    WithoutIsDistinct(Slots(from), Slots(to));
    forall slot ensures slot in AllSlots(from, to) <==> Worn(from, slot).Some? || Worn(to, slot).Some? {
      SlotsAreTheWorn(from, slot);
      SlotsAreTheWorn(to, slot);
      WithoutMembers(Slots(from), Slots(to), slot);
    }
    forall slot | slot in Slots(to) ensures slot !in Without(Slots(from), Slots(to)) {
      WithoutMembers(Slots(from), Slots(to), slot);
    }
    ConcatDistinct(Slots(to), Without(Slots(from), Slots(to)));
  }

  function RowSlots(rows: seq<Row>): (slots: seq<string>)
    ensures |slots| == |rows|
  {
    seq(|rows|, i requires 0 <= i < |rows| => rows[i].slot)
  }

  predicate TellsTheTruth(row: Row, from: seq<Item>, to: seq<Item>) {
    row.was == Worn(from, row.slot) && row.now == Worn(to, row.slot) && Changed(from, to, row.slot)
  }

  function ChangedAmong(from: seq<Item>, to: seq<Item>, slots: seq<string>): seq<string> {
    if slots == [] then []
    else
      var last := slots[|slots| - 1];
      ChangedAmong(from, to, slots[..|slots| - 1]) + (if Changed(from, to, last) then [last] else [])
  }

  lemma {:induction false} RowsForTheChanged(from: seq<Item>, to: seq<Item>, slots: seq<string>)
    ensures var rows := RowsFor(from, to, slots);
      && RowSlots(rows) == ChangedAmong(from, to, slots)
      && (forall i :: 0 <= i < |rows| ==> TellsTheTruth(rows[i], from, to))
  {
    if slots != [] {
      RowsForTheChanged(from, to, slots[..|slots| - 1]);
    }
  }

  lemma {:induction false} ChangedMembers(from: seq<Item>, to: seq<Item>, slots: seq<string>, slot: string)
    ensures slot in ChangedAmong(from, to, slots) <==> slot in slots && Changed(from, to, slot)
  {
    if slots != [] {
      ChangedMembers(from, to, slots[..|slots| - 1], slot);
      assert slots == slots[..|slots| - 1] + [slots[|slots| - 1]];
    }
  }

  lemma {:induction false} ChangedIsDistinct(from: seq<Item>, to: seq<Item>, slots: seq<string>)
    requires NoRepeats(slots)
    ensures NoRepeats(ChangedAmong(from, to, slots))
  {
    if slots != [] {
      ChangedIsDistinct(from, to, slots[..|slots| - 1]);
      ChangedMembers(from, to, slots[..|slots| - 1], slots[|slots| - 1]);
    }
  }

  /** The listed slots are exactly the changed ones, each once, and each row says what it was and became. */
  lemma RowsAreTheChanges(from: Snapshot, to: Snapshot)
    ensures NoRepeats(RowSlots(ItemRows(from, to)))
    ensures forall slot :: slot in RowSlots(ItemRows(from, to)) <==> Changed(from.items, to.items, slot)
    ensures forall i :: 0 <= i < |ItemRows(from, to)| ==> TellsTheTruth(ItemRows(from, to)[i], from.items, to.items)
  {
    var slots := AllSlots(from.items, to.items);
    AllSlotsAreDistinct(from.items, to.items);
    RowsForTheChanged(from.items, to.items, slots);
    ChangedIsDistinct(from.items, to.items, slots);
    forall slot ensures slot in RowSlots(ItemRows(from, to)) <==> Changed(from.items, to.items, slot) {
      ChangedMembers(from.items, to.items, slots, slot);
    }
  }

  // ----------------------------------------------------------------------------- in the page's own order

  function FirstIndex(items: seq<Item>, slot: string): (i: nat)
    ensures i <= |items|
    ensures i < |items| ==> items[i].slot == slot
    ensures forall k :: 0 <= k < i ==> items[k].slot != slot
  {
    if items == [] then 0
    else
      var i := FirstIndex(items[..|items| - 1], slot);
      if i < |items| - 1 || items[|items| - 1].slot == slot then i else |items|
  }

  predicate Before(items: seq<Item>, a: string, b: string) {
    FirstIndex(items, a) < FirstIndex(items, b)
  }

  predicate InOrder(items: seq<Item>, slots: seq<string>) {
    forall i, j :: 0 <= i < j < |slots| ==> Before(items, slots[i], slots[j])
  }

  lemma FirstIndexGrows(items: seq<Item>, slot: string)
    requires items != [] && Worn(items[..|items| - 1], slot).Some?
    ensures FirstIndex(items, slot) == FirstIndex(items[..|items| - 1], slot) < |items| - 1
  {
    WornIsListed(items[..|items| - 1], slot);
  }

  lemma {:induction false} WornIsListed(items: seq<Item>, slot: string)
    ensures Worn(items, slot).Some? <==> FirstIndex(items, slot) < |items|
  {
    if items != [] { WornIsListed(items[..|items| - 1], slot); }
  }

  lemma {:induction false} SlotsAreInOrder(items: seq<Item>)
    ensures InOrder(items, Slots(items))
  {
    if items != [] {
      var front := items[..|items| - 1];
      var last := items[|items| - 1].slot;
      SlotsAreInOrder(front);
      SlotsAreTheWorn(front, last);
      WornIsListed(front, last);
      forall i, j | 0 <= i < j < |Slots(items)| ensures Before(items, Slots(items)[i], Slots(items)[j]) {
        SlotsAreTheWorn(front, Slots(items)[i]);
        FirstIndexGrows(items, Slots(items)[i]);
        if j < |Slots(front)| {
          SlotsAreTheWorn(front, Slots(items)[j]);
          FirstIndexGrows(items, Slots(items)[j]);
          assert Before(front, Slots(front)[i], Slots(front)[j]);
        }
      }
    }
  }

  lemma {:induction false} ChangedKeepsOrder(items: seq<Item>, from: seq<Item>, to: seq<Item>, slots: seq<string>)
    requires InOrder(items, slots)
    ensures InOrder(items, ChangedAmong(from, to, slots))
  {
    if slots != [] {
      var front := slots[..|slots| - 1];
      ChangedKeepsOrder(items, from, to, front);
      var before := ChangedAmong(from, to, front);
      forall i | 0 <= i < |before| ensures Before(items, before[i], slots[|slots| - 1]) {
        ChangedMembers(from, to, front, before[i]);
        var k :| 0 <= k < |front| && front[k] == before[i];
        assert slots[k] == before[i];
      }
    }
  }

  lemma {:induction false} ChangedSplits(from: seq<Item>, to: seq<Item>, a: seq<string>, b: seq<string>)
    ensures ChangedAmong(from, to, a + b) == ChangedAmong(from, to, a) + ChangedAmong(from, to, b)
  {
    if b == [] {
      assert a + b == a;
    } else {
      assert (a + b)[..|a + b| - 1] == a + b[..|b| - 1];
      ChangedSplits(from, to, a, b[..|b| - 1]);
    }
  }

  lemma VanishedAreNotWorn(from: seq<Item>, to: seq<Item>, slot: string)
    ensures slot in ChangedAmong(from, to, Without(Slots(from), Slots(to))) ==> Worn(to, slot).None?
  {
    ChangedMembers(from, to, Without(Slots(from), Slots(to)), slot);
    WithoutMembers(Slots(from), Slots(to), slot);
    SlotsAreTheWorn(to, slot);
  }

  lemma ChangedInOrder(from: seq<Item>, to: seq<Item>, i: nat, j: nat)
    requires i < j < |ChangedAmong(from, to, AllSlots(from, to))|
    ensures var slots := ChangedAmong(from, to, AllSlots(from, to));
      Worn(to, slots[j]).Some? ==> Worn(to, slots[i]).Some? && Before(to, slots[i], slots[j])
  {
    var gone := ChangedAmong(from, to, Without(Slots(from), Slots(to)));
    var worn := ChangedAmong(from, to, Slots(to));
    ChangedSplits(from, to, Slots(to), Without(Slots(from), Slots(to)));
    var slots := worn + gone;
    if j < |worn| {
      SlotsAreInOrder(to);
      ChangedKeepsOrder(to, from, to, Slots(to));
      assert slots[i] == worn[i] && slots[j] == worn[j];
      ChangedMembers(from, to, Slots(to), worn[i]);
      SlotsAreTheWorn(to, worn[i]);
    } else {
      assert slots[j] == gone[j - |worn|];
      VanishedAreNotWorn(from, to, slots[j]);
    }
  }

  /** Slots still worn come first, in the newer state's order; slots that vanished come after them. */
  lemma RowsKeepTheOrder(from: Snapshot, to: Snapshot, i: nat, j: nat)
    requires i < j < |ItemRows(from, to)| && ItemRows(from, to)[j].now.Some?
    ensures var rows := ItemRows(from, to); rows[i].now.Some? && Before(to.items, rows[i].slot, rows[j].slot)
  {
    var rows := ItemRows(from, to);
    RowsForTheChanged(from.items, to.items, AllSlots(from.items, to.items));
    assert RowSlots(rows)[i] == rows[i].slot && RowSlots(rows)[j] == rows[j].slot;
    ChangedInOrder(from.items, to.items, i, j);
    assert TellsTheTruth(rows[i], from.items, to.items) && TellsTheTruth(rows[j], from.items, to.items);
  }

  // -------------------------------------------------------------------------------- replaying the panel

  /** What a reader who knows a slot's item learns of it from one list of rows. */
  function Learn(rows: seq<Row>, slot: string, wearing: string): string {
    if rows == [] then wearing
    else if rows[0].slot == slot then Learn(rows[1..], slot, rows[0].now.GetOr(""))
    else Learn(rows[1..], slot, wearing)
  }

  lemma {:induction false} LearnAbsent(rows: seq<Row>, slot: string, wearing: string)
    requires slot !in RowSlots(rows)
    ensures Learn(rows, slot, wearing) == wearing
  {
    if rows != [] {
      assert RowSlots(rows)[0] == rows[0].slot;
      assert RowSlots(rows[1..]) == RowSlots(rows)[1..];
      LearnAbsent(rows[1..], slot, wearing);
    }
  }

  lemma {:induction false} LearnPresent(rows: seq<Row>, k: nat, slot: string, wearing: string)
    requires NoRepeats(RowSlots(rows)) && k < |rows| && rows[k].slot == slot
    ensures Learn(rows, slot, wearing) == rows[k].now.GetOr("")
  {
    assert RowSlots(rows[1..]) == RowSlots(rows)[1..];
    assert forall i :: 0 <= i < |rows| ==> RowSlots(rows)[i] == rows[i].slot;
    if k == 0 {
      LearnAbsent(rows[1..], slot, rows[0].now.GetOr(""));
    } else {
      assert RowSlots(rows)[0] != RowSlots(rows)[k];
      LearnPresent(rows[1..], k - 1, slot, wearing);
    }
  }

  /** One transition's rows turn the older gear into the newer, an absent slot and '' being the same. */
  lemma RowsCarryTheChange(from: Snapshot, to: Snapshot, slot: string)
    ensures Learn(ItemRows(from, to), slot, Worn(from.items, slot).GetOr("")) == Worn(to.items, slot).GetOr("")
  {
    var rows := ItemRows(from, to);
    RowsAreTheChanges(from, to);
    if Changed(from.items, to.items, slot) {
      var k :| 0 <= k < |rows| && RowSlots(rows)[k] == slot;
      assert TellsTheTruth(rows[k], from.items, to.items);
      LearnPresent(rows, k, slot, Worn(from.items, slot).GetOr(""));
    } else {
      LearnAbsent(rows, slot, Worn(from.items, slot).GetOr(""));
    }
  }

  /** Reading the panel from its last list of rows up to its first. */
  function Replay(panel: seq<seq<Row>>, slot: string, wearing: string): string {
    if panel == [] then wearing
    else Learn(panel[0], slot, Replay(panel[1..], slot, wearing))
  }

  lemma ReplayStep(panel: seq<seq<Row>>, i: nat, slot: string, wearing: string)
    requires i < |panel|
    ensures Replay(panel[i..], slot, wearing) == Learn(panel[i], slot, Replay(panel[i + 1..], slot, wearing))
  {
    assert panel[i..][1..] == panel[i + 1..];
  }

  lemma {:induction false} ReplayFrom(current: Snapshot, history: seq<Snapshot>, slot: string, i: nat)
    requires i < Min(|history|, HISTORY_ROWS)
    ensures var panel := HistoryPanel(current, history);
      Replay(panel[i..], slot, Worn(history[|panel| - 1].items, slot).GetOr(""))
        == Worn(Successor(current, history, i).items, slot).GetOr("")
    decreases |history| - i
  {
    var panel := HistoryPanel(current, history);
    var oldest := Worn(history[|panel| - 1].items, slot).GetOr("");
    ReplayStep(panel, i, slot, oldest);
    RowsCarryTheChange(history[i], Successor(current, history, i), slot);
    if i + 1 < |panel| {
      ReplayFrom(current, history, slot, i + 1);
    }
  }

  /** From the oldest shown state, the listed changes lead to exactly the gear on the page. */
  lemma PanelLeadsToThePage(current: Snapshot, history: seq<Snapshot>, slot: string)
    requires history != []
    ensures var panel := HistoryPanel(current, history);
      Replay(panel, slot, Worn(history[|panel| - 1].items, slot).GetOr("")) == Worn(current.items, slot).GetOr("")
  {
    ReplayFrom(current, history, slot, 0);
    var panel := HistoryPanel(current, history);
    assert panel[0..] == panel;
  }

  /** A list of rows is empty exactly when no slot's item moved. */
  lemma NoRowsIffSameGear(from: Snapshot, to: Snapshot)
    ensures ItemRows(from, to) == [] <==> forall slot :: !Changed(from.items, to.items, slot)
  {
    RowsAreTheChanges(from, to);
    var rows := ItemRows(from, to);
    if rows != [] { assert RowSlots(rows)[0] in RowSlots(rows); }
  }
}
