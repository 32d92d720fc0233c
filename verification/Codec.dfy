/**
 * Bytes, ids and digests of the share service (codec.ts). btoa is section 4 of RFC 4648; atob is the browsers'
 * forgiving decoder, which takes text with or without its padding.
 */
module Codec {
  import opened Prelude

  type Byte = b: int | 0 <= b < 256
  type Group = g: int | 0 <= g < 64

  // -------------------------------------------------------------------------------------- six-bit groups

  function First(b: Byte): Group {
    b / 4
  }

  function Second(b: Byte, c: Byte): Group {
    b % 4 * 16 + c / 16
  }

  function Third(c: Byte, d: Byte): Group {
    c % 16 * 4 + d / 64
  }

  function Fourth(d: Byte): Group {
    d % 64
  }

  function Joined(high: Group, low: Group): Byte {
    high * 4 + low / 16
  }

  function JoinedMiddle(high: Group, low: Group): Byte {
    high % 16 * 16 + low / 4
  }

  function JoinedLast(high: Group, low: Group): Byte {
    high % 4 * 64 + low
  }

  /** Three bytes are four groups; a rest of one or two bytes is filled up with zero bits. */
  function Groups(bytes: seq<Byte>): seq<Group> {
    if bytes == [] then []
    else if |bytes| == 1 then [First(bytes[0]), Second(bytes[0], 0)]
    else if |bytes| == 2 then [First(bytes[0]), Second(bytes[0], bytes[1]), Third(bytes[1], 0)]
    else
      [First(bytes[0]), Second(bytes[0], bytes[1]), Third(bytes[1], bytes[2]), Fourth(bytes[2])] + Groups(bytes[3..])
  }

  /** Left-over bits are dropped; a single left-over group cannot be a byte. */
  function Ungroup(groups: seq<Group>): Option<seq<Byte>> {
    if groups == [] then Some([])
    else if |groups| == 1 then None
    else if |groups| == 2 then Some([Joined(groups[0], groups[1])])
    else if |groups| == 3 then Some([Joined(groups[0], groups[1]), JoinedMiddle(groups[1], groups[2])])
    else
      var rest := Ungroup(groups[4..]);
      if rest.None? then None
      else Some(
        [Joined(groups[0], groups[1]), JoinedMiddle(groups[1], groups[2]), JoinedLast(groups[2], groups[3])] + rest.value)
  }

  /** Four groups are the base-64 digits of the 24-bit number that three bytes are the base-256 digits of. */
  lemma GroupsAreTheSameNumber(b: Byte, c: Byte, d: Byte)
    ensures ((First(b) * 64 + Second(b, c)) * 64 + Third(c, d)) * 64 + Fourth(d) == (b * 256 + c) * 256 + d
  {
  }

  lemma JoinedBack(b: Byte, c: Byte, d: Byte)
    ensures Joined(First(b), Second(b, c)) == b
    ensures JoinedMiddle(Second(b, c), Third(c, d)) == c
    ensures JoinedLast(Third(c, d), Fourth(d)) == d
  {
  }

  lemma FourGroupsBack(b: Byte, c: Byte, d: Byte, rest: seq<Group>)
    requires Ungroup(rest).Some?
    ensures Ungroup([First(b), Second(b, c), Third(c, d), Fourth(d)] + rest) == Some([b, c, d] + Ungroup(rest).value)
  {
    var groups := [First(b), Second(b, c), Third(c, d), Fourth(d)] + rest;
    assert groups[4..] == rest;
    JoinedBack(b, c, d);
  }

  lemma OneByteBack(b: Byte)
    ensures Ungroup(Groups([b])) == Some([b])
  {
    var groups := [First(b), Second(b, 0)];
    assert Groups([b]) == groups;
    assert Ungroup(groups) == Some([Joined(First(b), Second(b, 0))]);
    JoinedBack(b, 0, 0);
  }

  lemma TwoBytesBack(b: Byte, c: Byte)
    ensures Ungroup(Groups([b, c])) == Some([b, c])
  {
    var groups := [First(b), Second(b, c), Third(c, 0)];
    assert Groups([b, c]) == groups;
    assert Ungroup(groups) == Some([Joined(First(b), Second(b, c)), JoinedMiddle(Second(b, c), Third(c, 0))]);
    JoinedBack(b, c, 0);
  }

  lemma ThreeMore(b: Byte, c: Byte, d: Byte, rest: seq<Byte>)
    requires Ungroup(Groups(rest)) == Some(rest)
    ensures Ungroup(Groups([b, c, d] + rest)) == Some([b, c, d] + rest)
  {
    assert ([b, c, d] + rest)[3..] == rest;
    assert Groups([b, c, d] + rest) == [First(b), Second(b, c), Third(c, d), Fourth(d)] + Groups(rest);
    FourGroupsBack(b, c, d, Groups(rest));
  }

  lemma {:induction false} GroupsRoundTrip(bytes: seq<Byte>)
    ensures Ungroup(Groups(bytes)) == Some(bytes)
  {
    if |bytes| == 1 {
      OneByteBack(bytes[0]);
      assert bytes == [bytes[0]];
    } else if |bytes| == 2 {
      TwoBytesBack(bytes[0], bytes[1]);
      assert bytes == [bytes[0], bytes[1]];
    } else if |bytes| >= 3 {
      GroupsRoundTrip(bytes[3..]);
      ThreeMore(bytes[0], bytes[1], bytes[2], bytes[3..]);
      assert bytes == [bytes[0], bytes[1], bytes[2]] + bytes[3..];
    }
  }

  lemma {:induction false} GroupsLength(bytes: seq<Byte>)
    ensures |Groups(bytes)| == (4 * |bytes| + 2) / 3
  {
    if |bytes| >= 3 {
      GroupsLength(bytes[3..]);
    }
  }

  // ------------------------------------------------------------------------------------------- characters

  function Symbol(g: Group): char {
    if g < 26 then 'A' + g as char
    else if g < 52 then 'a' + (g - 26) as char
    else if g < 62 then '0' + (g - 52) as char
    else if g == 62 then '+' else '/'
  }

  /** The alphabet of table 1 of RFC 4648, in two halves. */
  lemma SymbolIsRfc4648(g: Group)
    ensures g < 32 ==> Symbol(g) == "ABCDEFGHIJKLMNOPQRSTUVWXYZabcdef"[g]
    ensures g >= 32 ==> Symbol(g) == "ghijklmnopqrstuvwxyz0123456789+/"[g - 32]
  {
  }

  function GroupOf(c: char): Option<Group> {
    if 'A' <= c <= 'Z' then Some((c - 'A') as int)
    else if 'a' <= c <= 'z' then Some((c - 'a') as int + 26)
    else if '0' <= c <= '9' then Some((c - '0') as int + 52)
    else if c == '+' then Some(62)
    else if c == '/' then Some(63)
    else None
  }

  function Symbols(groups: seq<Group>): (s: string)
    ensures |s| == |groups|
  {
    seq(|groups|, i requires 0 <= i < |groups| => Symbol(groups[i]))
  }

  function GroupsOf(s: string): Option<seq<Group>> {
    if s == "" then Some([])
    else
      var front := GroupsOf(s[..|s| - 1]);
      var last := GroupOf(s[|s| - 1]);
      if front.None? || last.None? then None else Some(front.value + [last.value])
  }

  function Padding(n: nat): (s: string)
    ensures |s| <= 2 && forall i :: 0 <= i < |s| ==> s[i] == '='
    ensures (n + |s|) % 4 == 0 || n % 4 == 1
  {
    if n % 4 == 2 then "==" else if n % 4 == 3 then "=" else ""
  }

  predicate IsBinary(s: string) {
    forall i :: 0 <= i < |s| ==> s[i] as int < 256
  }

  function CharCodes(s: string): seq<Byte>
    requires IsBinary(s)
  {
    seq(|s|, i requires 0 <= i < |s| => s[i] as int)
  }

  function FromCharCodes(bytes: seq<Byte>): (s: string)
    ensures |s| == |bytes| && IsBinary(s)
  {
    seq(|bytes|, i requires 0 <= i < |bytes| => bytes[i] as char)
  }

  function Btoa(binary: string): string
    requires IsBinary(binary)
  {
    var groups := Groups(CharCodes(binary));
    Symbols(groups) + Padding(|groups|)
  }

  predicate IsAsciiSpace(c: char) {
    c == ' ' || c == '\t' || c == '\n' || c == '\r' || c == '\U{0C}'
  }

  function WithoutSpace(s: string): string {
    if s == "" then ""
    else
      var c := s[|s| - 1];
      WithoutSpace(s[..|s| - 1]) + (if IsAsciiSpace(c) then "" else [c])
  }

  /** A text whose length is a multiple of four may end in one or two '='. */
  function Unpadded(s: string): string {
    if |s| % 4 != 0 || s == "" || s[|s| - 1] != '=' then s
    else if s[|s| - 2] != '=' then s[..|s| - 1]
    else s[..|s| - 2]
  }

  function Atob(text: string): Option<string> {
    Decoded(Unpadded(WithoutSpace(text)))
  }

  function Decoded(symbols: string): Option<string> {
    match GroupsOf(symbols)
    case None => None
    case Some(groups) =>
      match Ungroup(groups)
      case None => None
      case Some(bytes) => Some(FromCharCodes(bytes))
  }

  function Replace(s: string, from: char, into: char): (r: string)
    ensures |r| == |s|
    ensures forall i :: 0 <= i < |s| ==> r[i] == if s[i] == from then into else s[i]
  {
    seq(|s|, i requires 0 <= i < |s| => if s[i] == from then into else s[i])
  }

  function StripEquals(s: string): string {
    if s != "" && s[|s| - 1] == '=' then StripEquals(s[..|s| - 1]) else s
  }

  // ------------------------------------------------------------------------------------- the two functions

  const CHUNK: nat := 0x8000

  function ToBase64Url(bytes: seq<Byte>): string {
    StripEquals(Replace(Replace(Btoa(FromCharCodes(bytes)), '+', '-'), '/', '_'))
  }

  function FromBase64(text: string): Option<seq<Byte>> {
    match Atob(Replace(Replace(text, '-', '+'), '_', '/'))
    case None => None
    case Some(binary) => if IsBinary(binary) then Some(CharCodes(binary)) else None
  }

  /** The argument-limit chunking builds the same binary string as one call would. */
  method EncodeBase64Url(bytes: array<Byte>) returns (out: string)
    ensures out == ToBase64Url(bytes[..])
  {
    var binary := "";
    var i := 0;
    while i < bytes.Length
      invariant 0 <= i
      invariant binary == FromCharCodes(bytes[..Min(i, bytes.Length)])
    {
      var end := Min(i + CHUNK, bytes.Length);
      var next := binary + FromCharCodes(bytes[i..end]);
      assert bytes[..end] == bytes[..i] + bytes[i..end];
      assert next == FromCharCodes(bytes[..end]);
      binary := next;
      i := i + CHUNK;
    }
    assert bytes[..bytes.Length] == bytes[..];
    out := StripEquals(Replace(Replace(Btoa(binary), '+', '-'), '/', '_'));
  }

  method DecodeBase64(text: string) returns (out: Option<seq<Byte>>)
    ensures out == FromBase64(text)
  {
    var binary := Atob(Replace(Replace(text, '-', '+'), '_', '/'));
    if binary.None? { return None; }
    AtobIsBinary(Replace(Replace(text, '-', '+'), '_', '/'));
    var buffer := new Byte[|binary.value|](_ => 0);
    for i := 0 to |binary.value|
      invariant buffer[..i] == CharCodes(binary.value)[..i]
    {
      buffer[i] := binary.value[i] as int;
    }
    assert buffer[..] == buffer[..|binary.value|] == CharCodes(binary.value);
    out := Some(buffer[..]);
  }

  lemma AtobIsBinary(text: string)
    ensures Atob(text).Some? ==> IsBinary(Atob(text).value)
  {
  }

  // ---------------------------------------------------------------------------------------- round trips

  lemma SymbolRoundTrip(g: Group)
    ensures GroupOf(Symbol(g)) == Some(g)
    ensures Symbol(g) != '=' && Symbol(g) != '-' && Symbol(g) != '_' && !IsAsciiSpace(Symbol(g))
  {
    assert Symbol(g) == '+' || Symbol(g) == '/' || 'A' <= Symbol(g) <= 'Z' || 'a' <= Symbol(g) <= 'z' || '0' <= Symbol(g) <= '9';
  }

  lemma {:induction false} SymbolsRoundTrip(groups: seq<Group>)
    ensures GroupsOf(Symbols(groups)) == Some(groups)
  {
    if groups != [] {
      var front := groups[..|groups| - 1];
      SymbolsRoundTrip(front);
      SymbolRoundTrip(groups[|groups| - 1]);
      assert Symbols(groups)[..|groups| - 1] == Symbols(front);
      assert front + [groups[|groups| - 1]] == groups;
    }
  }

  predicate Plain(s: string) {
    forall i :: 0 <= i < |s| ==> !IsAsciiSpace(s[i])
  }

  lemma {:induction false} NothingToRemove(s: string)
    requires Plain(s)
    ensures WithoutSpace(s) == s
  {
    if s != "" {
      NothingToRemove(s[..|s| - 1]);
      assert s == s[..|s| - 1] + [s[|s| - 1]];
    }
  }

  lemma SymbolsArePlain(groups: seq<Group>)
    ensures Plain(Symbols(groups))
    ensures forall i :: 0 <= i < |groups| ==> Symbols(groups)[i] != '='
  {
    forall i | 0 <= i < |groups| ensures !IsAsciiSpace(Symbols(groups)[i]) && Symbols(groups)[i] != '=' {
      SymbolRoundTrip(groups[i]);
    }
  }

  lemma CodesRoundTrip(bytes: seq<Byte>)
    ensures CharCodes(FromCharCodes(bytes)) == bytes
  {
  }

  /** Text made of symbols, with its padding or without, decodes to the bytes it came from. */
  lemma AtobOfSymbols(bytes: seq<Byte>, text: string)
    requires var groups := Groups(bytes); text == Symbols(groups) || text == Symbols(groups) + Padding(|groups|)
    ensures Atob(text) == Some(FromCharCodes(bytes))
  {
    var groups := Groups(bytes);
    var symbols := Symbols(groups);
    SymbolsArePlain(groups);
    NothingToRemove(text);
    GroupsLength(bytes);
    UnpadSymbols(groups, text);
    DecodedSymbols(bytes);
  }

  lemma DecodedSymbols(bytes: seq<Byte>)
    ensures Decoded(Symbols(Groups(bytes))) == Some(FromCharCodes(bytes))
  {
    SymbolsRoundTrip(Groups(bytes));
    GroupsRoundTrip(bytes);
  }

  lemma UnpadSymbols(groups: seq<Group>, text: string)
    requires |groups| % 4 != 1
    requires text == Symbols(groups) || text == Symbols(groups) + Padding(|groups|)
    ensures Unpadded(text) == Symbols(groups)
  {
    SymbolsArePlain(groups);
    if text != Symbols(groups) {
      assert text[..|groups|] == Symbols(groups);
    }
  }

  /** Standard padded base64 decodes to its bytes. */
  lemma PaddedRoundTrip(bytes: seq<Byte>)
    ensures FromBase64(Btoa(FromCharCodes(bytes))) == Some(bytes)
  {
    var text := Btoa(FromCharCodes(bytes));
    CodesRoundTrip(bytes);
    NothingToTranslate(Groups(bytes));
    assert Replace(Replace(text, '-', '+'), '_', '/') == text;
    AtobOfSymbols(bytes, text);
  }

  lemma NothingToTranslate(groups: seq<Group>)
    ensures var text := Symbols(groups) + Padding(|groups|);
      forall i :: 0 <= i < |text| ==> text[i] != '-' && text[i] != '_'
  {
    forall i | 0 <= i < |groups| ensures Symbols(groups)[i] != '-' && Symbols(groups)[i] != '_' {
      SymbolRoundTrip(groups[i]);
    }
  }

  function UrlSafe(s: string): string {
    Replace(Replace(s, '+', '-'), '/', '_')
  }

  lemma {:induction false} StripPadding(s: string, padding: string)
    requires s == "" || s[|s| - 1] != '='
    requires forall i :: 0 <= i < |padding| ==> padding[i] == '='
    ensures StripEquals(s + padding) == s
    decreases |padding|
  {
    if padding == "" {
      assert s + padding == s;
    } else {
      assert (s + padding)[..|s + padding| - 1] == s + padding[..|padding| - 1];
      StripPadding(s, padding[..|padding| - 1]);
    }
  }

  lemma UrlTextIsTheSymbols(bytes: seq<Byte>)
    ensures ToBase64Url(bytes) == UrlSafe(Symbols(Groups(bytes)))
  {
    var groups := Groups(bytes);
    CodesRoundTrip(bytes);
    SymbolsArePlain(groups);
    var padding := Padding(|groups|);
    assert UrlSafe(Symbols(groups) + padding) == UrlSafe(Symbols(groups)) + padding;
    StripPadding(UrlSafe(Symbols(groups)), padding);
  }

  /** What toBase64Url writes, fromBase64 reads back: every byte string, whatever its length. */
  lemma Base64UrlRoundTrip(bytes: seq<Byte>)
    ensures FromBase64(ToBase64Url(bytes)) == Some(bytes)
  {
    var groups := Groups(bytes);
    var text := ToBase64Url(bytes);
    UrlTextIsTheSymbols(bytes);
    NothingToTranslate(groups);
    assert Replace(Replace(text, '-', '+'), '_', '/') == Symbols(groups) by {
      forall i | 0 <= i < |text| ensures Replace(Replace(text, '-', '+'), '_', '/')[i] == Symbols(groups)[i] {
        assert (Symbols(groups) + Padding(|groups|))[i] == Symbols(groups)[i];
      }
    }
    AtobOfSymbols(bytes, Symbols(groups));
    CodesRoundTrip(bytes);
  }

  predicate UrlChar(c: char) {
    'A' <= c <= 'Z' || 'a' <= c <= 'z' || '0' <= c <= '9' || c == '-' || c == '_'
  }

  /** The text is four characters for three bytes, rounded up, and needs no escaping in a URL. */
  lemma Base64UrlIsUrlSafe(bytes: seq<Byte>)
    ensures |ToBase64Url(bytes)| == (4 * |bytes| + 2) / 3
    ensures forall i :: 0 <= i < |ToBase64Url(bytes)| ==> UrlChar(ToBase64Url(bytes)[i])
  {
    UrlTextIsTheSymbols(bytes);
    GroupsLength(bytes);
  }

  // ------------------------------------------------------------------------------------- what is decoded

  /** The two alphabets of RFC 4648 may be mixed. */
  predicate Base64Char(c: char) {
    UrlChar(c) || c == '+' || c == '/'
  }

  predicate AllBase64(s: string) {
    forall i :: 0 <= i < |s| ==> Base64Char(s[i])
  }

  /** Symbols up to `end`, of which one left over is too few, and perhaps the padding of a multiple of four. */
  predicate IsBase64(text: string, end: nat) {
    && end <= |text| && AllBase64(text[..end]) && end % 4 != 1
    && (end == |text| || (|text| % 4 == 0 && (text[end..] == "=" || text[end..] == "==")))
  }

  function Standard(text: string): string {
    Replace(Replace(text, '-', '+'), '_', '/')
  }

  lemma GroupOfIff(c: char)
    ensures GroupOf(c).Some? <==> Base64Char(c) && c != '-' && c != '_'
    ensures Base64Char(c) && c != '-' && c != '_' ==> Symbol(GroupOf(c).value) == c
  {
  }

  lemma {:induction false} GroupsOfIff(s: string)
    ensures GroupsOf(s).Some? <==> forall i :: 0 <= i < |s| ==> GroupOf(s[i]).Some?
    ensures GroupsOf(s).Some? ==> |GroupsOf(s).value| == |s|
  {
    if s != "" {
      var front := s[..|s| - 1];
      GroupsOfIff(front);
      assert forall i :: 0 <= i < |front| ==> front[i] == s[i];
    }
  }

  /** A group left over alone is refused; otherwise three bytes come of four groups, rounded down. */
  lemma {:induction false} UngroupIff(groups: seq<Group>)
    ensures Ungroup(groups).Some? <==> |groups| % 4 != 1
    ensures |groups| % 4 != 1 ==> |Ungroup(groups).value| == 3 * |groups| / 4
  {
    if |groups| >= 4 {
      var rest := groups[4..];
      UngroupIff(rest);
      ThreeOfFour(|rest|);
      assert Ungroup(groups).Some? <==> Ungroup(rest).Some?;
      assert Ungroup(rest).Some? ==> |Ungroup(groups).value| == 3 + |Ungroup(rest).value|;
    }
  }

  lemma ThreeOfFour(n: nat)
    ensures (n + 4) % 4 == n % 4 && 3 * (n + 4) / 4 == 3 + 3 * n / 4
  {
  }

  lemma DecodedIff(text: string, end: nat)
    requires end <= |text|
    ensures Decoded(Standard(text)[..end]).Some? <==> AllBase64(text[..end]) && end % 4 != 1
    ensures Decoded(Standard(text)[..end]).Some? ==> |Decoded(Standard(text)[..end]).value| == 3 * end / 4
  {
    var s := Standard(text)[..end];
    GroupsOfIff(s);
    forall i | 0 <= i < end ensures GroupOf(s[i]).Some? <==> Base64Char(text[..end][i]) {
      GroupOfIff(s[i]);
    }
    if GroupsOf(s).Some? {
      UngroupIff(GroupsOf(s).value);
    }
  }

  /** A text without space in it. */
  predicate Compact(text: string) {
    forall i :: 0 <= i < |text| ==> text[i] !in " \t\n\r\U{0C}"
  }

  /** Where the padding of a text begins, if it may have one. */
  function End(text: string): (end: nat)
    ensures |text| - 2 <= end <= |text|
  {
    if |text| % 4 != 0 || text == "" || text[|text| - 1] != '=' then |text|
    else if text[|text| - 2] != '=' then |text| - 1
    else |text| - 2
  }

  lemma UnpaddedIsTheFront(text: string)
    ensures Unpadded(Standard(text)) == Standard(text)[..End(text)]
  {
  }

  /** Padding cannot be mistaken for a symbol, so a text has at most one end. */
  lemma OneEnd(text: string, end: nat)
    requires IsBase64(text, end)
    ensures end == End(text)
  {
    if end < |text| {
      var rest := text[end..];
      assert text[|text| - 1] == rest[|rest| - 1] == '=';
      assert |rest| == 2 ==> text[|text| - 2] == rest[0];
      assert |rest| == 1 ==> text[..end][end - 1] == text[|text| - 2];
    } else {
      assert text == "" || text[..end][end - 1] == text[|text| - 1];
    }
  }

  lemma EndFits(text: string)
    requires AllBase64(text[..End(text)]) && End(text) % 4 != 1
    ensures IsBase64(text, End(text))
  {
    if End(text) < |text| {
      assert text[End(text)..] == (if End(text) == |text| - 1 then "=" else "==");
    }
  }

  lemma DecodesUpToItsEnd(text: string)
    requires Compact(text)
    ensures FromBase64(text).Some? <==> AllBase64(text[..End(text)]) && End(text) % 4 != 1
    ensures FromBase64(text).Some? ==> |FromBase64(text).value| == 3 * End(text) / 4
  {
    NothingToRemove(Standard(text));
    UnpaddedIsTheFront(text);
    DecodedIff(text, End(text));
    AtobIsBinary(Standard(text));
  }

  /**
   * A text without spaces is decoded exactly when it is one of the two base64 alphabets, padded or not, and no
   * symbol is left over; what it decodes to is three quarters of its symbols long, rounded down.
   */
  lemma DecodesIff(text: string)
    requires Compact(text)
    ensures FromBase64(text).Some? <==> exists end: nat :: IsBase64(text, end)
    ensures forall end: nat :: IsBase64(text, end) ==> |FromBase64(text).value| == 3 * end / 4
  {
    var end := End(text);
    DecodesUpToItsEnd(text);
    forall e: nat | IsBase64(text, e) ensures e == end { OneEnd(text, e); }
    if FromBase64(text).Some? {
      EndFits(text);
      assert IsBase64(text, end);
    }
  }

  lemma {:induction false} SpaceIsRemoved(before: string, c: char, after: string)
    requires IsAsciiSpace(c)
    ensures WithoutSpace(before + [c] + after) == WithoutSpace(before + after)
    decreases |after|
  {
    var whole, rest := before + [c] + after, before + after;
    if after == "" {
      assert whole[..|whole| - 1] == before == rest;
    } else {
      var front := after[..|after| - 1];
      assert whole[..|whole| - 1] == before + [c] + front;
      assert rest[..|rest| - 1] == before + front;
      SpaceIsRemoved(before, c, front);
    }
  }

  /** Spaces, wherever they are, make no difference to what a text decodes to. */
  lemma SpacesDoNotMatter(before: string, c: char, after: string)
    requires c in " \t\n\r\U{0C}"
    ensures FromBase64(before + [c] + after) == FromBase64(before + after)
  {
    assert Standard(before + [c] + after) == Standard(before) + [c] + Standard(after);
    assert Standard(before + after) == Standard(before) + Standard(after);
    SpaceIsRemoved(Standard(before), c, Standard(after));
  }

  // --------------------------------------------------------------------------------------------- digests

  function Accumulate(diff: bv16, x: bv16, y: bv16): (r: bv16)
    ensures r == 0 <==> diff == 0 && x == y
  {
    diff | (x ^ y)
  }

  /** The comparison that never stops early agrees with equality, on UTF-16 code units. */
  method DigestsMatch(a: seq<bv16>, b: seq<bv16>) returns (same: bool)
    ensures same <==> a == b
  {
    if |a| != |b| { return false; }
    var diff: bv16 := 0;
    for i := 0 to |a|
      invariant diff == 0 <==> forall k :: 0 <= k < i ==> a[k] == b[k]
    {
      diff := Accumulate(diff, a[i], b[i]);
    }
    same := diff == 0;
  }
}
