/**
 * The rows of a spell's slot table (scrape-spells.ts). What a row says once it is split is left to a parameter;
 * here are where the rows are, where they end, and that the loop over them ends.
 */
module SlotRows {
  import opened Prelude
  import opened TemplateDepth
  import TopLevelSplit

  const ROW_NAME := "spellslotrow"
  const ROW_NAME_CHARS: nat := 12

  predicate IsLetter(c: char) {
    'a' <= c <= 'z' || 'A' <= c <= 'Z'
  }

  function Lower(c: char): char {
    if 'A' <= c <= 'Z' then c - 'A' + 'a' else c
  }

  function SkipSpaces(s: string, i: nat): (j: nat)
    requires i <= |s|
    ensures i <= j <= |s| && forall k :: i <= k < j ==> IsSpace(s[k])
    decreases |s| - i
  {
    if i < |s| && IsSpace(s[i]) then SkipSpaces(s, i + 1) else i
  }

  function SkipLetters(s: string, i: nat): (j: nat)
    requires i <= |s|
    ensures i <= j <= |s| && forall k :: i <= k < j ==> IsLetter(s[k])
    decreases |s| - i
  {
    if i < |s| && IsLetter(s[i]) then SkipLetters(s, i + 1) else i
  }

  predicate LetterAt(s: string, i: nat, k: nat)
    requires i + ROW_NAME_CHARS <= |s| && k < ROW_NAME_CHARS
  {
    IsLetter(s[i + k]) && Lower(s[i + k]) == ROW_NAME[k]
  }

  predicate NameAt(s: string, i: nat) {
    i + ROW_NAME_CHARS <= |s| && forall k :: 0 <= k < ROW_NAME_CHARS ==> LetterAt(s, i, k)
  }

  function BarAfterName(s: string, name: nat): (end: Option<nat>)
    ensures end.Some? ==> name + ROW_NAME_CHARS < end.value <= |s|
  {
    if !NameAt(s, name) then None
    else
      var bar := SkipSpaces(s, SkipLetters(s, name + ROW_NAME_CHARS));
      if bar < |s| && s[bar] == '|' then Some(bar + 1) else None
  }

  /** Past the pipe of a row's opening `{{SpellSlotRow...|` at `i`, in any case and with any spaces. */
  function RowOpener(s: string, i: nat): (end: Option<nat>)
    ensures end.Some? ==> i + 2 + ROW_NAME_CHARS < end.value <= |s| && Pair(s, i, '{')
  {
    if Pair(s, i, '{') then BarAfterName(s, SkipSpaces(s, i + 2)) else None
  }

  /** The next row at or after `from`, as a global regular expression finds it. */
  function FindRow(s: string, from: nat): (p: Option<nat>)
    ensures p.Some? ==> from <= p.value < |s| && RowOpener(s, p.value).Some?
    ensures forall q: nat :: from <= q < (if p.Some? then p.value else |s|) ==> RowOpener(s, q).None?
    decreases |s| - from
  {
    if from >= |s| then None
    else if RowOpener(s, from).Some? then Some(from)
    else FindRow(s, from + 1)
  }

  // ------------------------------------------------------------------------------- what an opener is

  predicate Blank(s: string) {
    forall i :: 0 <= i < |s| ==> IsSpace(s[i])
  }

  /** Nothing but the letters of ASCII. */
  predicate Letters(s: string) {
    forall i :: 0 <= i < |s| ==> 65 <= s[i] as int <= 90 || 97 <= s[i] as int <= 122
  }

  predicate SpellSlotRowInAnyCase(s: string) {
    |s| == 12 && forall i :: 0 <= i < 12 ==> s[i] == "spellslotrow"[i] || s[i] == "SPELLSLOTROW"[i]
  }

  /** From `i` on: two braces, spaces up to `name`, the name, letters up to `spaces`, spaces up to `bar`, and the pipe. */
  predicate OpenerCut(s: string, i: nat, name: nat, spaces: nat, bar: nat) {
    && i + 2 <= name && name + ROW_NAME_CHARS <= spaces <= bar < |s|
    && s[i] == '{' && s[i + 1] == '{' && Blank(s[i + 2..name])
    && SpellSlotRowInAnyCase(s[name..name + ROW_NAME_CHARS]) && Letters(s[name + ROW_NAME_CHARS..spaces])
    && Blank(s[spaces..bar]) && s[bar] == '|'
  }

  /** The text from `i` up to `end` is an opener. */
  ghost predicate IsOpener(s: string, i: nat, end: nat) {
    exists name: nat, spaces: nat, bar: nat :: OpenerCut(s, i, name, spaces, bar) && end == bar + 1
  }

  lemma LetterOfNameIff(c: char, k: nat)
    requires k < ROW_NAME_CHARS
    ensures IsLetter(c) && Lower(c) == ROW_NAME[k] <==> c == "spellslotrow"[k] || c == "SPELLSLOTROW"[k]
  {
  }

  lemma NameIff(s: string, i: nat)
    requires i + ROW_NAME_CHARS <= |s|
    ensures NameAt(s, i) <==> SpellSlotRowInAnyCase(s[i..i + ROW_NAME_CHARS])
  {
    var name := s[i..i + ROW_NAME_CHARS];
    forall k | 0 <= k < ROW_NAME_CHARS
      ensures LetterAt(s, i, k) <==> name[k] == "spellslotrow"[k] || name[k] == "SPELLSLOTROW"[k]
    {
      LetterOfNameIff(name[k], k);
    }
  }

  lemma {:induction false} SkipsTheSpaces(s: string, i: nat, j: nat)
    requires i <= j < |s| && Blank(s[i..j]) && !IsSpace(s[j])
    ensures SkipSpaces(s, i) == j
    decreases j - i
  {
    if i < j {
      assert IsSpace(s[i..j][0]) && s[i + 1..j] == s[i..j][1..];
      SkipsTheSpaces(s, i + 1, j);
    }
  }

  lemma {:induction false} SkipsTheLetters(s: string, i: nat, j: nat)
    requires i <= j < |s| && Letters(s[i..j]) && !IsLetter(s[j])
    ensures SkipLetters(s, i) == j
    decreases j - i
  {
    if i < j {
      assert IsLetter(s[i..j][0]) && s[i + 1..j] == s[i..j][1..];
      SkipsTheLetters(s, i + 1, j);
    }
  }

  lemma FoundIsOpener(s: string, i: nat)
    requires RowOpener(s, i).Some?
    ensures IsOpener(s, i, RowOpener(s, i).value)
  {
    var name := SkipSpaces(s, i + 2);
    var spaces := SkipLetters(s, name + ROW_NAME_CHARS);
    NameIff(s, name);
    assert OpenerCut(s, i, name, spaces, SkipSpaces(s, spaces));
  }

  lemma NameIsNoSpace(s: string, i: nat)
    requires NameAt(s, i)
    ensures !IsSpace(s[i])
  {
    assert LetterAt(s, i, 0);
  }

  lemma BarIsFound(s: string, name: nat, spaces: nat, bar: nat)
    requires name + ROW_NAME_CHARS <= spaces <= bar < |s| && NameAt(s, name)
    requires Letters(s[name + ROW_NAME_CHARS..spaces]) && Blank(s[spaces..bar]) && s[bar] == '|'
    ensures BarAfterName(s, name) == Some(bar + 1)
  {
    if spaces < bar { assert IsSpace(s[spaces..bar][0]); }
    SkipsTheLetters(s, name + ROW_NAME_CHARS, spaces);
    SkipsTheSpaces(s, spaces, bar);
  }

  lemma OpenerIsFound(s: string, i: nat, name: nat, spaces: nat, bar: nat)
    requires OpenerCut(s, i, name, spaces, bar)
    ensures RowOpener(s, i) == Some(bar + 1)
  {
    NameIff(s, name);
    NameIsNoSpace(s, name);
    SkipsTheSpaces(s, i + 2, name);
    BarIsFound(s, name, spaces, bar);
  }

  /** The search stops exactly at the openers, and goes on just past their pipe. */
  lemma OpenerIff(s: string, i: nat, end: nat)
    ensures RowOpener(s, i) == Some(end) <==> IsOpener(s, i, end)
  {
    if RowOpener(s, i) == Some(end) { FoundIsOpener(s, i); }
    if IsOpener(s, i, end) {
      var name: nat, spaces: nat, bar: nat :| OpenerCut(s, i, name, spaces, bar) && end == bar + 1;
      OpenerIsFound(s, i, name, spaces, bar);
    }
  }

  /** An opener has no brace past its first two characters. */
  lemma NoBraceInOpener(s: string, i: nat, k: nat)
    requires RowOpener(s, i).Some? && i + 2 <= k < RowOpener(s, i).value
    ensures s[k] != '{' && s[k] != '}'
  {
    var name := SkipSpaces(s, i + 2);
    var letters := SkipLetters(s, name + ROW_NAME_CHARS);
    var bar := SkipSpaces(s, letters);
    if k < name {
      assert IsSpace(s[k]);
    } else if k < name + ROW_NAME_CHARS {
      assert LetterAt(s, name, k - name);
    } else if k < letters {
      assert IsLetter(s[k]);
    } else if k < bar {
      assert IsSpace(s[k]);
    }
  }

  /** The row's block reaches past its opener. */
  lemma RowEndsPastItsOpener(s: string, i: nat, end: nat)
    requires RowOpener(s, i).Some? && BlockEnd(s, i, end)
    ensures RowOpener(s, i).value <= end
  {
    var opener := RowOpener(s, i).value;
    if ClosesAt(s, i, end) && i < end - 2 {
      NextBoundary(s, i, i, end - 2);
      if end - 2 < opener { NoBraceInOpener(s, i, end - 2); }
    }
  }

  /** No row begins inside another row's opener. */
  lemma NoRowInOpener(s: string, i: nat, q: nat)
    requires RowOpener(s, i).Some? && i < q < RowOpener(s, i).value
    ensures RowOpener(s, q).None?
  {
    var next := if q == i + 1 then q + 1 else q;
    NoBraceInOpener(s, i, next);
  }

  datatype Row = Row(start: nat, end: nat, parts: seq<string>, text: Option<string>)

  predicate LooksClosed(s: string, end: nat) {
    2 <= end <= |s| && s[end - 2..end] == "}}"
  }

  function Interior(s: string, start: nat, end: nat): string
    requires start + 4 <= end <= |s|
  {
    s[start + 2..if LooksClosed(s, end) then end - 2 else end]
  }

  ghost predicate IsRow(s: string, read: seq<string> -> Option<string>, row: Row) {
    && RowOpener(s, row.start).Some? && BlockEnd(s, row.start, row.end)
    && row.start + 4 <= row.end <= |s|
    && row.parts == TopLevelSplit.Split(Interior(s, row.start, row.end))
    && row.text == read(row.parts)
  }

  /** Where the search goes on: past a row that said something, else past its opener only. */
  function Resume(s: string, row: Row): nat {
    if row.text.Some? then row.end
    else if RowOpener(s, row.start).Some? then RowOpener(s, row.start).value
    else |s|
  }

  predicate InOrder(s: string, rows: seq<Row>) {
    forall k :: 0 <= k < |rows| - 1 ==> Resume(s, rows[k]) <= rows[k + 1].start
  }

  /** The row at `q` was read, or lies inside a row that said something. */
  predicate Accounted(rows: seq<Row>, q: nat) {
    exists k :: 0 <= k < |rows| && (rows[k].start == q || (rows[k].text.Some? && rows[k].start < q < rows[k].end))
  }

  lemma AccountedGrows(rows: seq<Row>, row: Row, q: nat)
    requires Accounted(rows, q)
    ensures Accounted(rows + [row], q)
  {
    var k :| 0 <= k < |rows| && (rows[k].start == q || (rows[k].text.Some? && rows[k].start < q < rows[k].end));
    assert (rows + [row])[k] == rows[k];
  }

  lemma RowIsAccounted(s: string, rows: seq<Row>, row: Row, from: nat, next: nat)
    requires FindRow(s, from) == Some(row.start) && next == Resume(s, row)
    requires forall q: nat :: q < from && RowOpener(s, q).Some? ==> Accounted(rows, q)
    ensures forall q: nat :: q < next && RowOpener(s, q).Some? ==> Accounted(rows + [row], q)
  {
    forall q: nat | q < next && RowOpener(s, q).Some? ensures Accounted(rows + [row], q) {
      if q < from {
        AccountedGrows(rows, row, q);
      } else {
        assert (rows + [row])[|rows|] == row;
        if row.text.None? && row.start < q { NoRowInOpener(s, row.start, q); }
      }
    }
  }

  /** The rows before `from` have been read, in order, and the search goes on there. */
  ghost predicate ReadUpTo(s: string, read: seq<string> -> Option<string>, rows: seq<Row>, from: nat) {
    && (forall k :: 0 <= k < |rows| ==> IsRow(s, read, rows[k]))
    && InOrder(s, rows) && (rows != [] ==> Resume(s, rows[|rows| - 1]) <= from)
    && (forall q: nat :: q < from && RowOpener(s, q).Some? ==> Accounted(rows, q))
  }

  lemma OrderGrows(s: string, rows: seq<Row>, row: Row)
    requires InOrder(s, rows) && (rows != [] ==> Resume(s, rows[|rows| - 1]) <= row.start)
    ensures InOrder(s, rows + [row])
  {
    var all := rows + [row];
    forall k | 0 <= k < |all| - 1 ensures Resume(s, all[k]) <= all[k + 1].start {
      if k + 1 < |rows| { assert all[k + 1] == rows[k + 1]; }
    }
  }

  lemma ReadOneMore(s: string, read: seq<string> -> Option<string>, rows: seq<Row>, from: nat, row: Row)
    requires ReadUpTo(s, read, rows, from) && FindRow(s, from) == Some(row.start) && IsRow(s, read, row)
    ensures ReadUpTo(s, read, rows + [row], Resume(s, row))
    ensures from < Resume(s, row) <= |s|
  {
    RowEndsPastItsOpener(s, row.start, row.end);
    RowIsAccounted(s, rows, row, from, Resume(s, row));
    OrderGrows(s, rows, row);
    assert forall k :: 0 <= k < |rows| ==> (rows + [row])[k] == rows[k];
  }

  lemma ReadAll(s: string, read: seq<string> -> Option<string>, rows: seq<Row>, from: nat)
    requires ReadUpTo(s, read, rows, from) && FindRow(s, from).None?
    ensures forall q: nat :: RowOpener(s, q).Some? ==> Accounted(rows, q)
  {
  }

  /**
   * Every row that is read is a row with its own block, the rows come in order without overlapping a row that
   * said something, and no row of the text is passed over except inside such a row.
   */
  method ParseSlotRows(slots: string, read: seq<string> -> Option<string>) returns (rows: seq<Row>)
    ensures forall k :: 0 <= k < |rows| ==> IsRow(slots, read, rows[k])
    ensures InOrder(slots, rows)
    ensures forall q: nat :: RowOpener(slots, q).Some? ==> Accounted(rows, q)
  {
    rows := [];
    var lastIndex := 0;
    var m := FindRow(slots, lastIndex);
    while m.Some?
      invariant lastIndex <= |slots| && m == FindRow(slots, lastIndex)
      invariant ReadUpTo(slots, read, rows, lastIndex)
      decreases |slots| - lastIndex
    {
      var end := TemplateBlockEnd(slots, m.value);
      RowEndsPastItsOpener(slots, m.value, end);
      var parts := TopLevelSplit.SplitTopLevel(Interior(slots, m.value, end));
      var row := Row(m.value, end, parts, read(parts));
      ReadOneMore(slots, read, rows, lastIndex, row);
      rows := rows + [row];
      lastIndex := if row.text.Some? then end else RowOpener(slots, m.value).value;
      m := FindRow(slots, lastIndex);
    }
    ReadAll(slots, read, rows, lastIndex);
  }

  // ------------------------------------------------------------- the row whose closer the field reader took

  predicate AllSpaces(s: string) {
    forall k :: 0 <= k < |s| ==> IsSpace(s[k])
  }

  /**
   * `s` is what is left of a field that went on with `spaces` and a closer, and that closer belonged to the row
   * at `start`.
   */
  ghost predicate LostItsCloser(s: string, spaces: string, start: nat) {
    var field := s + spaces + "}}";
    RowOpener(s, start).Some? && AllSpaces(spaces) && BlockEnd(field, start, |field|) && ClosesAt(field, start, |field|)
  }

  /**
   * Such a row is read to the end of `s`. Its interior comes out as it stood in the field, but for the trailing
   * spaces, if and only if `s` does not end in a closer of its own.
   */
  lemma LostCloserIsHarmlessIff(s: string, spaces: string, start: nat)
    requires LostItsCloser(s, spaces, start)
    ensures BlockEnd(s, start, |s|)
    ensures var field := s + spaces + "}}";
      && Interior(field, start, |field|) == s[start + 2..] + spaces
      && (Interior(s, start, |s|) + spaces == Interior(field, start, |field|) <==> !LooksClosed(s, |s|))
  {
    var field := s + spaces + "}}";
    assert field[..|s|] == s;
    forall p: nat ensures !ClosesAt(s, start, p) {
      if ClosesAt(s, start, p) { ClosesInPrefix(field, |s|, start, p); }
    }
    FieldSlices(s, spaces, start + 2);
    LooksClosedCosts(s, spaces, start);
  }

  lemma FieldSlices(s: string, spaces: string, from: nat)
    requires from <= |s|
    ensures var field := s + spaces + "}}";
      field[|field| - 2..|field|] == "}}" && field[from..|field| - 2] == s[from..] + spaces
  {
  }

  lemma LooksClosedCosts(s: string, spaces: string, start: nat)
    requires start + 4 <= |s|
    ensures Interior(s, start, |s|) + spaces == s[start + 2..] + spaces <==> !LooksClosed(s, |s|)
  {
    if LooksClosed(s, |s|) {
      assert |Interior(s, start, |s|)| == |s[start + 2..]| - 2;
    } else {
      assert Interior(s, start, |s|) == s[start + 2..];
    }
  }

  lemma {:induction false} SkipSpacesOn(r: string, more: string, i: nat)
    requires i <= |r| && SkipSpaces(r, i) < |r|
    ensures SkipSpaces(r + more, i) == SkipSpaces(r, i)
    decreases |r| - i
  {
    if IsSpace(r[i]) { SkipSpacesOn(r, more, i + 1); }
  }

  lemma {:induction false} SkipLettersOn(r: string, more: string, i: nat)
    requires i <= |r| && SkipLetters(r, i) < |r|
    ensures SkipLetters(r + more, i) == SkipLetters(r, i)
    decreases |r| - i
  {
    if IsLetter(r[i]) { SkipLettersOn(r, more, i + 1); }
  }

  lemma NameOn(r: string, more: string, i: nat)
    requires NameAt(r, i)
    ensures NameAt(r + more, i)
  {
    forall k | 0 <= k < ROW_NAME_CHARS ensures LetterAt(r + more, i, k) { assert LetterAt(r, i, k); }
  }

  lemma BarOn(r: string, more: string, name: nat)
    requires BarAfterName(r, name) == Some(|r|)
    ensures BarAfterName(r + more, name) == Some(|r|)
  {
    NameOn(r, more, name);
    SkipLettersOn(r, more, name + ROW_NAME_CHARS);
    SkipSpacesOn(r, more, SkipLetters(r, name + ROW_NAME_CHARS));
  }

  lemma OpenerOn(r: string, more: string)
    requires RowOpener(r, 0) == Some(|r|)
    ensures RowOpener(r + more, 0) == Some(|r|)
  {
    SkipSpacesOn(r, more, 2);
    BarOn(r, more, SkipSpaces(r, 2));
  }

  lemma InnerRowCloses(opener: string, field: string)
    requires RowOpener(opener, 0) == Some(|opener|) && field == opener + "{{}}}}"
    ensures BlockEnd(field, 0, |field|) && ClosesAt(field, 0, |field|)
  {
    OpenerOn(opener, "{{}}}}");
    forall k | 2 <= k < |opener| ensures field[k] != '{' && field[k] != '}' { NoBraceInOpener(field, 0, k); }
    PlainStretch(field, 2, |opener|);
    assert opener[0] == field[0] && opener[1] == field[1];
    OpenThenInner(field, |opener|);
  }

  /** Behind any opener, an empty inner template is enough: the row loses that template's closer. */
  lemma InnerCloserIsMistaken(opener: string)
    requires RowOpener(opener, 0) == Some(|opener|)
    ensures var s := opener + "{{}}";
      LostItsCloser(s, "", 0) && Interior(s, 0, |s|) == opener[2..] + "{{"
  {
    OpenerOn(opener, "{{}}");
    InnerRowCloses(opener, opener + "{{}}" + "" + "}}");
    InnerTail(opener);
  }

  lemma InnerTail(opener: string)
    requires |opener| >= 2
    ensures var s := opener + "{{}}"; s[|s| - 2..|s|] == "}}" && s[2..|s| - 2] == opener[2..] + "{{"
  {
  }

  /** An opener up to `n`, then `{{}}` and `}}`: the row closes at the end and no earlier. */
  lemma OpenThenInner(field: string, n: nat)
    requires 2 <= n && |field| == n + 6 && field[n..] == "{{}}}}" && Pair(field, 0, '{')
    requires Boundary(field, 2, n) && Depth(field, 2, n) == 0
    requires forall k :: 2 <= k < n ==> field[k] != '}'
    ensures BlockEnd(field, 0, n + 6) && ClosesAt(field, 0, n + 6)
  {
    assert field[n] == '{' && field[n + 1] == '{' && field[n + 2] == '}' && field[n + 3] == '}'
      && field[n + 4] == '}' && field[n + 5] == '}' by {
      assert forall k :: 0 <= k < 6 ==> field[n + k] == field[n..][k];
    }
    DepthIsAdditive(field, 0, 2, n);
    assert Boundary(field, 0, n) && Depth(field, 0, n) == 1;
    BoundaryStep(field, 0, n);
    BoundaryStep(field, 0, n + 2);
    BoundaryStep(field, 0, n + 4);
    forall p: nat | p < n + 6 ensures !ClosesAt(field, 0, p) {
      if ClosesAt(field, 0, p) {
        if p - 2 > n + 2 { NextBoundary(field, 0, n + 2, p - 2); }
      }
    }
  }

  lemma NameIsPlain(r: string)
    requires r == "{{SpellSlotRow|"
    ensures NameAt(r, 2)
  {
    forall k | 0 <= k < ROW_NAME_CHARS ensures LetterAt(r, 2, k) {}
  }

  /** The opener every such row begins with. */
  lemma PlainOpener()
    ensures RowOpener("{{SpellSlotRow|", 0) == Some(15)
  {
    var r := "{{SpellSlotRow|";
    NameIsPlain(r);
    assert SkipLetters(r, 14) == 14 && SkipSpaces(r, 14) == 14;
  }
}
