/**
 * Drawing an id by rejection sampling (codec.ts). The random bytes are the successive fillings of the draw
 * buffer; a draw that never ends is one whose buffers run out.
 */
module ShareId {
  import opened Prelude
  import opened Codec

  const LETTERS: nat := 62
  const ACCEPT_BELOW: nat := 248

  function Letter(k: nat): char
    requires k < LETTERS
  {
    if k < 26 then 'A' + k as char
    else if k < 52 then 'a' + (k - 26) as char
    else '0' + (k - 52) as char
  }

  /** The id alphabet, in two halves. */
  lemma LetterIsOfTheIdAlphabet(k: nat)
    requires k < LETTERS
    ensures k < 31 ==> Letter(k) == "ABCDEFGHIJKLMNOPQRSTUVWXYZabcde"[k]
    ensures k >= 31 ==> Letter(k) == "fghijklmnopqrstuvwxyz0123456789"[k - 31]
  {
  }

  function LetterOf(b: Byte): char {
    Letter(b % LETTERS)
  }

  lemma LettersDiffer(j: nat, k: nat)
    requires j < LETTERS && k < LETTERS && Letter(j) == Letter(k)
    ensures j == k
  {
  }

  /** The letters the accepted bytes stand for, in order; rejected bytes leave nothing behind. */
  function Drawn(bytes: seq<Byte>): string {
    if bytes == [] then ""
    else
      var last := bytes[|bytes| - 1];
      Drawn(bytes[..|bytes| - 1]) + (if last < ACCEPT_BELOW then [LetterOf(last)] else "")
  }

  lemma {:induction false} DrawnConcat(a: seq<Byte>, b: seq<Byte>)
    ensures Drawn(a + b) == Drawn(a) + Drawn(b)
  {
    if b == [] {
      assert a + b == a;
    } else {
      assert (a + b)[..|a + b| - 1] == a + b[..|b| - 1];
      DrawnConcat(a, b[..|b| - 1]);
    }
  }

  lemma DrawnCut(bytes: seq<Byte>, i: nat)
    requires i <= |bytes|
    ensures Drawn(bytes) == Drawn(bytes[..i]) + Drawn(bytes[i..])
  {
    assert bytes == bytes[..i] + bytes[i..];
    DrawnConcat(bytes[..i], bytes[i..]);
  }

  /** An id is the first `length` letters drawn from all the buffers, or the draw is not over yet. */
  method NewId(length: nat, buffers: seq<seq<Byte>>) returns (id: Option<string>)
    ensures id.Some? <==> |Drawn(Flatten(buffers))| >= length
    ensures id.Some? ==> id.value == Drawn(Flatten(buffers))[..length]
  {
    var out := "";
    var round := 0;
    while |out| < length && round < |buffers|
      invariant round <= |buffers| && |out| <= length
      invariant |out| < length ==> out == Drawn(Flatten(buffers[..round]))
      invariant out <= Drawn(Flatten(buffers))
      decreases |buffers| - round
    {
      var buf := buffers[round];
      ghost var before := out;
      Refilled(buffers, round);
      DrawnSplit(buffers, round + 1);
      var i := 0;
      while i < |buf| && |out| < length
        invariant i <= |buf| && |out| <= length && out == before + Drawn(buf[..i])
      {
        assert buf[..i + 1][..i] == buf[..i];
        if buf[i] < ACCEPT_BELOW { out := out + [LetterOf(buf[i])]; }
        i := i + 1;
      }
      if i == |buf| { assert buf[..i] == buf; }
      DrawnCut(buf, i);
      assert out <= before + Drawn(buf);
      round := round + 1;
    }
    if |out| == length { return Some(out); }
    assert buffers[..|buffers|] == buffers;
    id := None;
  }

  lemma DrawnAppend(buffers: seq<seq<Byte>>, last: seq<Byte>)
    ensures Drawn(Flatten(buffers + [last])) == Drawn(Flatten(buffers)) + Drawn(last)
  {
    FlattenAppend(buffers, last);
    DrawnConcat(Flatten(buffers), last);
  }

  lemma Refilled(buffers: seq<seq<Byte>>, round: nat)
    requires round < |buffers|
    ensures Drawn(Flatten(buffers[..round + 1])) == Drawn(Flatten(buffers[..round])) + Drawn(buffers[round])
  {
    DrawnAppend(buffers[..round], buffers[round]);
    assert buffers[..round + 1] == buffers[..round] + [buffers[round]];
  }

  lemma DrawnSplit(buffers: seq<seq<Byte>>, k: nat)
    requires k <= |buffers|
    ensures Drawn(Flatten(buffers)) == Drawn(Flatten(buffers[..k])) + Drawn(Flatten(buffers[k..]))
  {
    FlattenSplit(buffers, k);
    DrawnConcat(Flatten(buffers[..k]), Flatten(buffers[k..]));
  }

  lemma {:induction false} FlattenSplit<T>(parts: seq<seq<T>>, k: nat)
    requires k <= |parts|
    ensures Flatten(parts) == Flatten(parts[..k]) + Flatten(parts[k..])
    decreases k
  {
    if k == 0 {
      assert parts[k..] == parts;
    } else {
      FlattenSplit(parts, k - 1);
      FlattenAppend(parts[..k - 1], parts[k - 1]);
      assert parts[..k] == parts[..k - 1] + [parts[k - 1]];
      assert parts[k - 1..][1..] == parts[k..];
    }
  }

  // ------------------------------------------------------------------------------------------ uniformity

  function BytesFor(c: char): set<Byte> {
    set b: Byte | 0 <= b < ACCEPT_BELOW && LetterOf(b) == c
  }

  /** Every letter stands for exactly four accepted bytes. */
  lemma FourBytesForEachLetter(k: nat)
    requires k < LETTERS
    ensures |BytesFor(Letter(k))| == 4
  {
    var four: set<Byte> := {k, k + 62, k + 124, k + 186};
    forall b: Byte ensures b in BytesFor(Letter(k)) <==> b in four { ByteOfLetter(b, k); }
    assert BytesFor(Letter(k)) == four;
    assert |four - {k}| == 3;
  }

  lemma ByteOfLetter(b: Byte, k: nat)
    requires k < LETTERS
    ensures b < ACCEPT_BELOW && LetterOf(b) == Letter(k) <==> b == k || b == k + 62 || b == k + 124 || b == k + 186
  {
    if LetterOf(b) == Letter(k) { LettersDiffer(b % LETTERS, k); }
    RemainderOfByte(b, k);
  }

  lemma RemainderOfByte(b: Byte, k: nat)
    requires k < LETTERS
    ensures b < ACCEPT_BELOW && b % LETTERS == k <==> b == k || b == k + 62 || b == k + 124 || b == k + 186
  {
  }

  /** All 256 bytes taken modulo 62 would give the first eight letters a fifth byte. */
  lemma WithoutRejectionItIsBiased(k: nat)
    requires k < LETTERS
    ensures |(set b: Byte | 0 <= b < 256 && b % LETTERS == k)| == if k < 8 then 5 else 4
  {
    var hits := set b: Byte | 0 <= b < 256 && b % LETTERS == k;
    var four: set<Byte> := {k, k + 62, k + 124, k + 186};
    if k < 8 {
      var five: set<Byte> := {k, k + 62, k + 124, k + 186, k + 248};
      assert hits == five;
    } else {
      assert hits == four;
    }
  }

  predicate IsId(id: string) {
    forall i :: 0 <= i < |id| ==> IsLetter(id[i])
  }

  predicate IsLetter(c: char) {
    exists k: nat :: k < LETTERS && Letter(k) == c
  }

  predicate AllAccepted(bytes: seq<Byte>) {
    forall i :: 0 <= i < |bytes| ==> bytes[i] < ACCEPT_BELOW
  }

  function Extensions(front: set<seq<Byte>>, last: set<Byte>): set<seq<Byte>> {
    set s, b | s in front && b in last :: s + [b]
  }

  lemma InExtensions(front: set<seq<Byte>>, last: set<Byte>, t: seq<Byte>)
    ensures t in Extensions(front, last) <==> t != [] && t[..|t| - 1] in front && t[|t| - 1] in last
  {
    if t in Extensions(front, last) {
      var s, b :| s in front && b in last && t == s + [b];
      assert t[..|t| - 1] == s;
    }
    if t != [] { assert t == t[..|t| - 1] + [t[|t| - 1]]; }
  }

  lemma ExtensionsSplit(front: set<seq<Byte>>, last: set<Byte>, c: Byte)
    requires c in last
    ensures Extensions(front, last) == Extensions(front, last - {c}) + Extensions(front, {c})
    ensures Extensions(front, last - {c}) !! Extensions(front, {c})
  {
    forall t ensures
      && (t in Extensions(front, last) <==> t in Extensions(front, last - {c}) + Extensions(front, {c}))
      && !(t in Extensions(front, last - {c}) && t in Extensions(front, {c}))
    {
      InExtensions(front, last, t);
      InExtensions(front, last - {c}, t);
      InExtensions(front, {c}, t);
    }
  }

  lemma {:induction false} ExtendedByOne(front: set<seq<Byte>>, c: Byte)
    ensures |Extensions(front, {c})| == |front|
    decreases |front|
  {
    if front == {} {
      assert Extensions(front, {c}) == {};
    } else {
      var s :| s in front;
      ExtendedByOne(front - {s}, c);
      forall t ensures t in Extensions(front, {c}) <==> t in Extensions(front - {s}, {c}) + {s + [c]} {
        InExtensions(front, {c}, t);
        InExtensions(front - {s}, {c}, t);
        if t != [] { assert t == t[..|t| - 1] + [t[|t| - 1]]; }
        assert (s + [c])[..|s + [c]| - 1] == s;
      }
      InExtensions(front - {s}, {c}, s + [c]);
      assert (s + [c])[..|s + [c]| - 1] == s;
      assert Extensions(front, {c}) == Extensions(front - {s}, {c}) + {s + [c]};
    }
  }

  lemma OneMore(m: nat, n: nat)
    ensures m * (n + 1) == m * n + m
  {
  }

  lemma {:induction false} ExtendedCount(front: set<seq<Byte>>, last: set<Byte>)
    ensures |Extensions(front, last)| == |front| * |last|
    decreases |last|
  {
    if last == {} {
      assert Extensions(front, last) == {};
    } else {
      var c :| c in last;
      var others := last - {c};
      ExtendedCount(front, others);
      ExtendedByOne(front, c);
      ExtensionsSplit(front, last, c);
      OneMore(|front|, |others|);
      assert |last| == |others| + 1;
      assert |Extensions(front, last)| == |Extensions(front, others)| + |Extensions(front, {c})|;
    }
  }

  /** The strings of accepted bytes that draw this id. */
  function Draws(id: string): set<seq<Byte>> {
    if id == "" then {[]} else Extensions(Draws(id[..|id| - 1]), BytesFor(id[|id| - 1]))
  }

  lemma {:induction false} DrawsAreExact(id: string, bytes: seq<Byte>)
    ensures bytes in Draws(id) <==> AllAccepted(bytes) && Drawn(bytes) == id
  {
    if id == "" {
      assert AllAccepted(bytes) && bytes != [] ==> Drawn(bytes) != "";
    } else {
      InExtensions(Draws(id[..|id| - 1]), BytesFor(id[|id| - 1]), bytes);
      assert id == id[..|id| - 1] + [id[|id| - 1]];
      if bytes != [] {
        DrawsAreExact(id[..|id| - 1], bytes[..|bytes| - 1]);
      }
    }
  }

  function Pow4(n: nat): nat {
    if n == 0 then 1 else 4 * Pow4(n - 1)
  }

  /** The draw is uniform: every id of a length comes from the same number of accepted byte strings. */
  lemma {:induction false} EveryIdIsAsLikely(id: string)
    requires IsId(id)
    ensures |Draws(id)| == Pow4(|id|)
  {
    if id != "" {
      var front := id[..|id| - 1];
      assert forall i :: 0 <= i < |front| ==> front[i] == id[i];
      EveryIdIsAsLikely(front);
      var k: nat :| k < LETTERS && Letter(k) == id[|id| - 1];
      FourBytesForEachLetter(k);
      ExtendedCount(Draws(front), BytesFor(id[|id| - 1]));
    }
  }
}
