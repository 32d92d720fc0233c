/**
 * What a sequence of occurrences looks like to a capped table of counters: how often each key occurred, and
 * which keys were the first to appear. Both error caps are stated against this.
 */
module Tally {
  import opened Prelude

  function Count<T(==)>(s: seq<T>, x: T): nat {
    if s == [] then 0
    else Count(s[..|s| - 1], x) + (if s[|s| - 1] == x then 1 else 0)
  }

  /** The different keys, in the order of their first occurrence. */
  function Distinct<T(==)>(s: seq<T>): seq<T> {
    if s == [] then []
    else
      var before := Distinct(s[..|s| - 1]);
      if s[|s| - 1] in before then before else before + [s[|s| - 1]]
  }

  /** The keys a table with room for `room` of them holds: the first to occur. */
  function Tracked<T(==)>(s: seq<T>, room: nat): seq<T> {
    Take(Distinct(s), room)
  }

  lemma {:induction false} DistinctHasNoRepeats<T>(s: seq<T>)
    ensures NoRepeats(Distinct(s))
  {
    if s != [] { DistinctHasNoRepeats(s[..|s| - 1]); }
  }

  lemma {:induction false} CountedIffDistinct<T>(s: seq<T>, x: T)
    ensures x in Distinct(s) <==> Count(s, x) > 0
  {
    if s != [] { CountedIffDistinct(s[..|s| - 1], x); }
  }

  lemma Append<T>(s: seq<T>, x: T)
    ensures Distinct(s + [x]) == (if x in Distinct(s) then Distinct(s) else Distinct(s) + [x])
    ensures forall y :: Count(s + [x], y) == Count(s, y) + (if y == x then 1 else 0)
  {
    assert (s + [x])[..|s|] == s;
  }

  /** A table takes in a new key exactly while it has room. */
  lemma TrackedGrows<T>(s: seq<T>, x: T, room: nat)
    ensures Tracked(s + [x], room)
      == (if x !in Distinct(s) && |Distinct(s)| < room then Tracked(s, room) + [x] else Tracked(s, room))
    ensures x in Tracked(s + [x], room) <==> x in Tracked(s, room) || (x !in Distinct(s) && |Distinct(s)| < room)
  {
    Append(s, x);
    DistinctHasNoRepeats(s);
  }

  function KeySet<T(==)>(s: seq<T>): set<T> {
    set x | x in s
  }

  lemma {:induction false} KeySetSize<T>(s: seq<T>)
    requires NoRepeats(s)
    ensures |KeySet(s)| == |s|
  {
    if s == [] {
      assert KeySet(s) == {};
    } else {
      var front := s[..|s| - 1];
      KeySetSize(front);
      assert s[|s| - 1] !in front;
      assert KeySet(s) == KeySet(front) + {s[|s| - 1]};
    }
  }

  /** The sum over some keys of how often each occurred, each capped. */
  function CappedTotal<T(==)>(keys: seq<T>, s: seq<T>, cap: nat): nat {
    if keys == [] then 0
    else CappedTotal(keys[..|keys| - 1], s, cap) + Min(Count(s, keys[|keys| - 1]), cap)
  }

  lemma {:induction false} CappedTotalIsBounded<T>(keys: seq<T>, s: seq<T>, cap: nat)
    ensures CappedTotal(keys, s, cap) <= |keys| * cap
  {
    if keys != [] {
      CappedTotalIsBounded(keys[..|keys| - 1], s, cap);
      assert |keys| * cap == (|keys| - 1) * cap + cap;
    }
  }

  lemma {:induction false} CappedTotalGrows<T>(keys: seq<T>, s: seq<T>, x: T, cap: nat)
    requires NoRepeats(keys)
    ensures CappedTotal(keys, s + [x], cap)
      == CappedTotal(keys, s, cap) + (if x in keys && Count(s, x) < cap then 1 else 0)
  {
    if keys != [] {
      var front := keys[..|keys| - 1];
      CappedTotalGrows(front, s, x, cap);
      Append(s, x);
      assert keys[|keys| - 1] !in front;
      assert x in keys <==> x in front || x == keys[|keys| - 1];
    }
  }

  /** Over the tracked keys, one more occurrence adds one while its key is tracked and below the cap. */
  lemma TrackedTotalGrows<T>(s: seq<T>, x: T, room: nat, cap: nat)
    requires cap > 0
    ensures CappedTotal(Tracked(s + [x], room), s + [x], cap)
      == CappedTotal(Tracked(s, room), s, cap) + (if x in Tracked(s + [x], room) && Count(s, x) < cap then 1 else 0)
  {
    var before := Tracked(s, room);
    DistinctHasNoRepeats(s);
    TrackedGrows(s, x, room);
    CappedTotalGrows(before, s, x, cap);
    if Tracked(s + [x], room) != before {
      CountedIffDistinct(s, x);
      assert x !in before;
      NewKeyCountsOne(before, s, x, cap);
    }
  }

  lemma NewKeyCountsOne<T>(keys: seq<T>, s: seq<T>, x: T, cap: nat)
    requires cap > 0 && Count(s, x) == 0
    ensures CappedTotal(keys + [x], s + [x], cap) == CappedTotal(keys, s + [x], cap) + 1
  {
    Append(s, x);
    assert (keys + [x])[..|keys|] == keys;
  }
}
