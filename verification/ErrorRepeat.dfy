/** The identical-line cap (errorRepeat.ts): five copies of a line, one notice, and then only a count. */
module ErrorRepeat {
  import opened Prelude
  import opened Tally

  const MAX_IDENTICAL_ERROR_LINES: nat := 5
  const MAX_TRACKED_ERROR_KEYS: nat := 500
  const ERROR_KEY_CHARS: nat := 300
  const NUL: char := '\0'

  datatype Decision = Decision(write: bool, notice: bool, suppressed: bool)

  function Key(source: string, body: string): string {
    source + [NUL] + Take(body, ERROR_KEY_CHARS)
  }

  function Note(seen: map<string, nat>, key: string): (map<string, nat>, Decision) {
    if key !in seen && |seen| >= MAX_TRACKED_ERROR_KEYS then (seen, Decision(true, false, false))
    else
      var n := (if key in seen then seen[key] else 0) + 1;
      (seen[key := Min(n, MAX_IDENTICAL_ERROR_LINES + 1)],
       Decision(n <= MAX_IDENTICAL_ERROR_LINES, n == MAX_IDENTICAL_ERROR_LINES + 1, n > MAX_IDENTICAL_ERROR_LINES))
  }

  class Session {
    var seen: map<string, nat>

    constructor ()
      ensures seen == map[]
    {
      seen := map[];
    }

    method Ask(source: string, body: string) returns (decision: Decision)
      modifies this
      ensures (seen, decision) == Note(old(seen), Key(source, body))
    {
      var key := Key(source, body);
      var known := key in seen;
      if !known && |seen| >= MAX_TRACKED_ERROR_KEYS { return Decision(true, false, false); }
      var n := (if known then seen[key] else 0) + 1;
      seen := seen[key := if n > MAX_IDENTICAL_ERROR_LINES then MAX_IDENTICAL_ERROR_LINES + 1 else n];
      if n <= MAX_IDENTICAL_ERROR_LINES { return Decision(true, false, false); }
      if n == MAX_IDENTICAL_ERROR_LINES + 1 { return Decision(false, true, true); }
      return Decision(false, false, true);
    }
  }

  lemma ShorterSourceShowsNul(long: string, a: string, short: string, b: string)
    requires long + [NUL] + a == short + [NUL] + b && |short| < |long|
    ensures NUL in long
  {
    assert long[|short|] == (short + [NUL] + b)[|short|];
  }

  /**
   * Lines from sources without NUL are taken for copies of one another exactly when the source and the first
   * three hundred characters agree.
   */
  lemma KeyIsTheLine(source: string, body: string, otherSource: string, otherBody: string)
    requires NUL !in source && NUL !in otherSource
    ensures Key(source, body) == Key(otherSource, otherBody) <==>
      source == otherSource && Take(body, 300) == Take(otherBody, 300)
  {
    var a, b := Key(source, body), Key(otherSource, otherBody);
    if a == b {
      if |source| < |otherSource| {
        ShorterSourceShowsNul(otherSource, Take(otherBody, ERROR_KEY_CHARS), source, Take(body, ERROR_KEY_CHARS));
      } else if |otherSource| < |source| {
        ShorterSourceShowsNul(source, Take(body, ERROR_KEY_CHARS), otherSource, Take(otherBody, ERROR_KEY_CHARS));
      }
      assert source == a[..|source|] && otherSource == b[..|source|];
      assert Take(body, ERROR_KEY_CHARS) == a[|source| + 1..] && Take(otherBody, ERROR_KEY_CHARS) == b[|source| + 1..];
    }
  }

  /** A source with a NUL in it can be taken for another, which is why the tags must not contain one. */
  lemma NulMakesKeysCollide()
    ensures Key("a", [NUL] + "b") == Key("a" + [NUL], "b") && "a" != "a" + [NUL]
  {
    assert "a" + [NUL] + ([NUL] + "b") == ("a" + [NUL]) + [NUL] + "b";
  }

  // --------------------------------------------------------------------------------------- a whole session

  function After(keys: seq<string>): map<string, nat> {
    if keys == [] then map[] else Note(After(keys[..|keys| - 1]), keys[|keys| - 1]).0
  }

  predicate Knows(seen: map<string, nat>, keys: seq<string>) {
    && seen.Keys == KeySet(Tracked(keys, MAX_TRACKED_ERROR_KEYS))
    && (forall k :: k in seen ==> seen[k] == Min(Count(keys, k), MAX_IDENTICAL_ERROR_LINES + 1))
  }

  lemma TableSize(seen: map<string, nat>, keys: seq<string>)
    requires Knows(seen, keys)
    ensures |seen| == Min(|Distinct(keys)|, MAX_TRACKED_ERROR_KEYS)
  {
    DistinctHasNoRepeats(keys);
    KeySetSize(Tracked(keys, MAX_TRACKED_ERROR_KEYS));
    assert |seen| == |seen.Keys|;
  }

  lemma NoteKnows(seen: map<string, nat>, keys: seq<string>, k: string)
    requires Knows(seen, keys)
    ensures Knows(Note(seen, k).0, keys + [k])
  {
    TableSize(seen, keys);
    Append(keys, k);
    TrackedGrows(keys, k, MAX_TRACKED_ERROR_KEYS);
    CountedIffDistinct(keys, k);
    assert Note(seen, k).0.Keys == KeySet(Tracked(keys + [k], MAX_TRACKED_ERROR_KEYS));
  }

  lemma {:induction false} TableIsRight(keys: seq<string>)
    ensures Knows(After(keys), keys)
  {
    if keys != [] {
      var front := keys[..|keys| - 1];
      TableIsRight(front);
      NoteKnows(After(front), front, keys[|keys| - 1]);
      assert front + [keys[|keys| - 1]] == keys;
    }
  }

  /**
   * After any session, the next copy of a line is withheld exactly when its key is among the first five hundred
   * and five copies came before; the sixth brings the notice. Anything that is not withheld is written.
   */
  lemma DecisionIsExact(keys: seq<string>, k: string)
    ensures var d := Note(After(keys), k).1;
      && (d.suppressed <==> k in Tracked(keys, 500) && Count(keys, k) >= 5)
      && (d.notice <==> k in Tracked(keys, 500) && Count(keys, k) == 5)
      && (d.write <==> !d.suppressed)
  {
    TableIsRight(keys);
    TableSize(After(keys), keys);
    CountedIffDistinct(keys, k);
  }
}
