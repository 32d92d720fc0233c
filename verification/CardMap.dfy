/**
 * The hotspots of a share's card image (store.ts): rebuilt from untrusted JSON when they arrive, and rebuilt
 * again from the record whenever it is read.
 */
module CardMap {
  import opened Prelude
  import opened ShareHistory

  const MAX_HOTSPOTS: nat := 40
  const MAX_SLOT_CHARS: nat := 40

  datatype Hotspot = Hotspot(slot: string, x: real, y: real, w: real, h: real)

  function TrimStart(s: string): string {
    if s != "" && IsSpace(s[0]) then TrimStart(s[1..]) else s
  }

  function TrimEnd(s: string): string {
    if s != "" && IsSpace(s[|s| - 1]) then TrimEnd(s[..|s| - 1]) else s
  }

  function Trim(s: string): string {
    TrimEnd(TrimStart(s))
  }

  function Fraction(v: Option<Json>): Option<real> {
    if v.Some? && v.value.JNum? && 0.0 <= v.value.num <= 1.0 then Some(v.value.num) else None
  }

  function SlotOf(v: Option<Json>): string {
    if v.Some? && v.value.JStr? then Take(Trim(v.value.str), MAX_SLOT_CHARS) else ""
  }

  /** Four decimal places, halves up. */
  function Round4(n: real): real {
    (n * 10000.0 + 0.5).Floor as real / 10000.0
  }

  function HotspotOf(one: Json, slots: Option<set<string>>): Option<Hotspot> {
    var slot := SlotOf(Field(one, "slot"));
    if slot == "" || (slots.Some? && slot !in slots.value) then None
    else
      var x := Fraction(Field(one, "x"));
      var y := Fraction(Field(one, "y"));
      var w := Fraction(Field(one, "w"));
      var h := Fraction(Field(one, "h"));
      if x.None? || y.None? || w.None? || h.None? || w.value == 0.0 || h.value == 0.0 then None
      else Some(Hotspot(slot, Round4(x.value), Round4(y.value), Round4(w.value), Round4(h.value)))
  }

  function Reader(slots: Option<set<string>>): Json -> Option<Hotspot> {
    (one: Json) => HotspotOf(one, slots)
  }

  function Sanitized(raw: Json, slots: Option<set<string>>): seq<Hotspot> {
    Take(Collect(Reader(slots), ElementsOf(Some(raw))), MAX_HOTSPOTS)
  }

  method SanitizeCardMap(raw: Json, slots: Option<set<string>>) returns (out: seq<Hotspot>)
    ensures out == Sanitized(raw, slots) == Take(Collect(Reader(slots), ElementsOf(Some(raw))), 40)
  {
    if !raw.JArr? { return []; }
    out := CollectUpTo(Reader(slots), raw.elements, MAX_HOTSPOTS);
  }

  // -------------------------------------------------------------------------------------- reading it back

  function HotspotJson(s: Hotspot): Json {
    JObj(map["slot" := JStr(s.slot), "x" := JNum(s.x), "y" := JNum(s.y), "w" := JNum(s.w), "h" := JNum(s.h)])
  }

  /** What the sanitizer lets through: a short slot without leading space, and ten-thousandths of the image. */
  predicate Rebuilt(s: Hotspot) {
    && 0 < |s.slot| <= MAX_SLOT_CHARS && !IsSpace(s.slot[0])
    && Tidy(s.x) && Tidy(s.y) && Tidy(s.w) && Tidy(s.h)
  }

  predicate Tidy(n: real) {
    0.0 <= n <= 1.0 && Round4(n) == n
  }

  lemma FloorBetween(n: real, low: int, high: int)
    requires low as real <= n < high as real + 1.0
    ensures low <= n.Floor <= high
  {
  }

  lemma RoundIsTidy(n: real)
    requires 0.0 <= n <= 1.0
    ensures Tidy(Round4(n))
  {
    FloorBetween(n * 10000.0 + 0.5, 0, 10000);
    var k := (n * 10000.0 + 0.5).Floor;
    assert Round4(n) * 10000.0 == k as real;
    FloorBetween(k as real + 0.5, k, k);
  }

  lemma {:induction false} TrimEndKeepsStart(s: string)
    ensures TrimEnd(s) <= s
    ensures s != "" && !IsSpace(s[0]) ==> TrimEnd(s) != ""
  {
    if s != "" && IsSpace(s[|s| - 1]) { TrimEndKeepsStart(s[..|s| - 1]); }
  }

  lemma {:induction false} TrimStartStarts(s: string)
    ensures TrimStart(s) == "" || !IsSpace(TrimStart(s)[0])
  {
    if s != "" && IsSpace(s[0]) { TrimStartStarts(s[1..]); }
  }

  predicate Blank(s: string) {
    forall i :: 0 <= i < |s| ==> IsSpace(s[i])
  }

  /** Trimming takes the space from both ends, all of it, and nothing else. */
  lemma {:induction false} TrimmedStart(s: string) returns (front: string)
    ensures s == front + TrimStart(s) && Blank(front)
  {
    front := "";
    if s != "" && IsSpace(s[0]) {
      front := TrimmedStart(s[1..]);
      front := [s[0]] + front;
    }
  }

  lemma {:induction false} TrimmedEnd(s: string) returns (back: string)
    ensures s == TrimEnd(s) + back && Blank(back)
    ensures TrimEnd(s) == "" || !IsSpace(TrimEnd(s)[|TrimEnd(s)| - 1])
  {
    back := "";
    if s != "" && IsSpace(s[|s| - 1]) {
      back := TrimmedEnd(s[..|s| - 1]);
      back := back + [s[|s| - 1]];
    }
  }

  lemma TrimmedBothEnds(s: string) returns (front: string, back: string)
    ensures s == front + Trim(s) + back && Blank(front) && Blank(back)
    ensures Trim(s) == "" || (!IsSpace(Trim(s)[0]) && !IsSpace(Trim(s)[|Trim(s)| - 1]))
  {
    TrimStartStarts(s);
    TrimEndKeepsStart(TrimStart(s));
    front := TrimmedStart(s);
    back := TrimmedEnd(TrimStart(s));
  }

  predicate Near(n: real, v: Option<Json>) {
    v.Some? && v.value.JNum? && -0.00005 < n - v.value.num <= 0.00005
  }

  lemma RoundIsNear(n: real)
    ensures -0.00005 < Round4(n) - n <= 0.00005
  {
    var k := (n * 10000.0 + 0.5).Floor;
    assert k as real <= n * 10000.0 + 0.5 < k as real + 1.0;
  }

  /**
   * An accepted hotspot is the uploaded one: the name without the space around it, or the first forty characters
   * of that, and each figure moved by at most half a ten-thousandth.
   */
  lemma HotspotIsTheUploadedOne(one: Json, slots: Option<set<string>>) returns (front: string, name: string, back: string)
    requires HotspotOf(one, slots).Some?
    ensures Field(one, "slot") == Some(JStr(front + name + back)) && Blank(front) && Blank(back)
    ensures name != "" && !IsSpace(name[0]) && !IsSpace(name[|name| - 1])
    ensures var h := HotspotOf(one, slots).value;
      && h.slot == name[..Min(|name|, 40)] && (slots.Some? ==> h.slot in slots.value)
      && Near(h.x, Field(one, "x")) && Near(h.y, Field(one, "y"))
      && Near(h.w, Field(one, "w")) && Near(h.h, Field(one, "h"))
  {
    var text := Field(one, "slot").value.str;
    front, back := TrimmedBothEnds(text);
    name := Trim(text);
    RoundIsNear(Field(one, "x").value.num);
    RoundIsNear(Field(one, "y").value.num);
    RoundIsNear(Field(one, "w").value.num);
    RoundIsNear(Field(one, "h").value.num);
  }

  lemma AcceptedIsRebuilt(one: Json, slots: Option<set<string>>)
    ensures HotspotOf(one, slots).Some? ==> Rebuilt(HotspotOf(one, slots).value)
  {
    if HotspotOf(one, slots).Some? {
      TrimStartStarts(Field(one, "slot").value.str);
      TrimEndKeepsStart(TrimStart(Field(one, "slot").value.str));
      RoundIsTidy(Field(one, "x").value.num);
      RoundIsTidy(Field(one, "y").value.num);
      RoundIsTidy(Field(one, "w").value.num);
      RoundIsTidy(Field(one, "h").value.num);
    }
  }

  lemma SanitizedIsRebuilt(raw: Json, slots: Option<set<string>>, i: nat)
    requires i < |Sanitized(raw, slots)|
    ensures Rebuilt(Sanitized(raw, slots)[i])
  {
    var f := Reader(slots);
    CollectImage(f, ElementsOf(Some(raw)), i);
    var one :| f(one) == Some(Sanitized(raw, slots)[i]);
    AcceptedIsRebuilt(one, slots);
  }

  /** Survives a second pass as it is. */
  predicate Durable(s: Hotspot) {
    s.w > 0.0 && s.h > 0.0 && Trim(s.slot) == s.slot
  }

  /** A rebuilt hotspot reads back as itself exactly when its size did not round away and its slot is trimmed. */
  lemma ReadsBackIff(s: Hotspot)
    requires Rebuilt(s)
    ensures HotspotOf(HotspotJson(s), None) == Some(s) <==> Durable(s)
    ensures HotspotOf(HotspotJson(s), None).None? <==> s.w == 0.0 || s.h == 0.0
  {
    var fields := HotspotJson(s).fields;
    assert fields["slot"] == JStr(s.slot) && fields["x"] == JNum(s.x) && fields["y"] == JNum(s.y);
    assert fields["w"] == JNum(s.w) && fields["h"] == JNum(s.h);
    assert TrimStart(s.slot) == s.slot;
    TrimEndKeepsStart(s.slot);
  }

  function ReadBack(s: Hotspot): Option<Hotspot> {
    HotspotOf(HotspotJson(s), None)
  }

  predicate AllDurable(spots: seq<Hotspot>) {
    forall i :: 0 <= i < |spots| ==> Durable(spots[i])
  }

  lemma OneMoreBack<A>(front: seq<A>, back: seq<A>, last: A, lastBack: Option<A>)
    requires |back| <= |front|
    ensures var all := back + (match lastBack case Some(a) => [a] case None => []);
      && |all| <= |front + [last]|
      && (all == front + [last] <==> back == front && lastBack == Some(last))
  {
    var all := back + (match lastBack case Some(a) => [a] case None => []);
    if all == front + [last] {
      assert all[..|front|] == front && all[|front|] == last;
    }
  }

  /** A list maps to itself exactly when each element does. */
  lemma {:induction false} CollectIsTheListIff<A>(f: A -> Option<A>, s: seq<A>)
    ensures |Collect(f, s)| <= |s|
    ensures Collect(f, s) == s <==> forall i :: 0 <= i < |s| ==> f(s[i]) == Some(s[i])
  {
    if s != [] {
      var n := |s| - 1;
      CollectIsTheListIff(f, s[..n]);
      OneMoreBack(s[..n], Collect(f, s[..n]), s[n], f(s[n]));
      assert s == s[..n] + [s[n]];
    }
  }

  lemma {:induction false} CollectOfMapped(spots: seq<Hotspot>)
    ensures Collect(Reader(None), Map(HotspotJson, spots)) == Collect(ReadBack, spots)
  {
    if spots != [] {
      var n := |spots| - 1;
      CollectOfMapped(spots[..n]);
      assert Map(HotspotJson, spots)[..n] == Map(HotspotJson, spots[..n]);
    }
  }

  predicate IsSanitized(spots: seq<Hotspot>) {
    |spots| <= MAX_HOTSPOTS && forall i :: 0 <= i < |spots| ==> Rebuilt(spots[i])
  }

  lemma SanitizedOnce(raw: Json, slots: Option<set<string>>)
    ensures IsSanitized(Sanitized(raw, slots))
  {
    var spots := Sanitized(raw, slots);
    forall i | 0 <= i < |spots| ensures Rebuilt(spots[i]) { SanitizedIsRebuilt(raw, slots, i); }
  }

  /** What a reader gets of a stored map: it is sanitized again, without slots to compare with. */
  function ReadMap(spots: seq<Hotspot>): seq<Hotspot> {
    Sanitized(JArr(Map(HotspotJson, spots)), None)
  }

  lemma ReadMapIsEachReadBack(spots: seq<Hotspot>)
    requires IsSanitized(spots)
    ensures ReadMap(spots) == Collect(ReadBack, spots)
  {
    CollectOfMapped(spots);
    CollectIsTheListIff(ReadBack, spots);
  }

  lemma ReadsBackIffDurable(spots: seq<Hotspot>)
    requires IsSanitized(spots)
    ensures ReadMap(spots) == spots <==> AllDurable(spots)
  {
    ReadMapIsEachReadBack(spots);
    CollectIsTheListIff(ReadBack, spots);
    forall i | 0 <= i < |spots| ensures ReadBack(spots[i]) == Some(spots[i]) <==> Durable(spots[i]) {
      ReadsBackIff(spots[i]);
    }
  }

  /**
   * A stored hotspot map is read back unchanged exactly when every hotspot is durable. The sanitizer tests the
   * size before it rounds it, and cuts the slot after it trimmed it, so not everything it stores is.
   */
  lemma StoredMapReadsBackIff(raw: Json, slots: Option<set<string>>)
    ensures var spots := Sanitized(raw, slots); ReadMap(spots) == spots <==> AllDurable(spots)
  {
    SanitizedOnce(raw, slots);
    ReadsBackIffDurable(Sanitized(raw, slots));
  }

  lemma ReadMapOfNone()
    ensures ReadMap([]) == []
  {
  }

  lemma {:induction false} TrimEndTwice(s: string)
    ensures TrimEnd(TrimEnd(s)) == TrimEnd(s)
  {
    if s != "" && IsSpace(s[|s| - 1]) { TrimEndTwice(s[..|s| - 1]); }
  }

  /** What comes back of a rebuilt hotspot comes back as it is from then on. */
  lemma BackIsDurable(s: Hotspot)
    requires Rebuilt(s) && ReadBack(s).Some?
    ensures ReadBack(ReadBack(s).value) == ReadBack(s)
  {
    var t := ReadBack(s).value;
    var fields := HotspotJson(s).fields;
    assert fields["slot"] == JStr(s.slot) && fields["x"] == JNum(s.x) && fields["y"] == JNum(s.y);
    assert fields["w"] == JNum(s.w) && fields["h"] == JNum(s.h);
    TrimEndKeepsStart(s.slot);
    TrimEndTwice(s.slot);
    assert TrimStart(s.slot) == s.slot && t.slot == TrimEnd(s.slot);
    assert TrimStart(t.slot) == t.slot;
    ReadsBackIff(t);
  }

  /** Reading a map again and again changes it at most the first time. */
  lemma ReadMapSettles(spots: seq<Hotspot>)
    requires IsSanitized(spots)
    ensures ReadMap(ReadMap(spots)) == ReadMap(spots)
  {
    var back := ReadMap(spots);
    ReadMapIsEachReadBack(spots);
    forall i | 0 <= i < |back| ensures ReadBack(back[i]) == Some(back[i]) { ReadElementSettles(spots, i); }
    CollectOfMapped(back);
    CollectIsTheListIff(ReadBack, back);
  }

  lemma ReadElementSettles(spots: seq<Hotspot>, i: nat)
    requires IsSanitized(spots) && i < |Collect(ReadBack, spots)|
    ensures ReadBack(Collect(ReadBack, spots)[i]) == Some(Collect(ReadBack, spots)[i])
  {
    CollectImage(ReadBack, spots, i);
    var s :| s in spots && ReadBack(s) == Some(Collect(ReadBack, spots)[i]);
    BackIsDurable(s);
  }

  /** A hotspot narrower than half a ten-thousandth of the image is stored, and gone when it is read. */
  lemma SliverIsLost(x: real, y: real, h: real)
    requires 0.0 <= x <= 1.0 && 0.0 <= y <= 1.0 && 0.0 < h <= 1.0
    ensures var one := HotspotJson(Hotspot("Neck", x, y, 0.00004, h));
      && HotspotOf(one, None).Some?
      && ReadBack(HotspotOf(one, None).value).None?
  {
    var sliver := Hotspot("Neck", x, y, 0.00004, h);
    var one := HotspotJson(sliver);
    assert one.fields["slot"] == JStr("Neck") && one.fields["x"] == JNum(x) && one.fields["y"] == JNum(y);
    assert one.fields["w"] == JNum(0.00004) && one.fields["h"] == JNum(h);
    assert TrimStart("Neck") == "Neck";
    TrimEndKeepsStart("Neck");
    FloorBetween(0.9, 0, 0);
    AcceptedIsRebuilt(one, None);
    ReadsBackIff(HotspotOf(one, None).value);
  }
}
