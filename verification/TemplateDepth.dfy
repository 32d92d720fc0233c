/**
 * Nesting of wiki templates by brace depth (scrape-spells.ts). A scan reads `{{` and `}}` two characters at a
 * time and everything else one at a time; the positions between those tokens are its boundaries.
 */
module TemplateDepth {
  import opened Prelude

  predicate Pair(text: string, i: nat, c: char) {
    i + 1 < |text| && text[i] == c && text[i + 1] == c
  }

  function Width(text: string, i: nat): (w: nat)
    ensures 1 <= w <= 2
    ensures w == 2 ==> i + 2 <= |text|
  {
    if Pair(text, i, '{') || Pair(text, i, '}') then 2 else 1
  }

  function Delta(text: string, i: nat): int {
    if Pair(text, i, '{') then 1 else if Pair(text, i, '}') then -1 else 0
  }

  /** Opened minus closed by the tokens that begin in [i, pos). */
  function Depth(text: string, i: nat, pos: nat): int
    decreases pos - i
  {
    if i >= pos then 0 else Delta(text, i) + Depth(text, i + Width(text, i), pos)
  }

  /** `p` is a boundary of the scan that begins at `i`. */
  predicate Boundary(text: string, i: nat, p: nat)
    decreases p - i
  {
    i == p || (i < p && Boundary(text, i + Width(text, i), p))
  }

  lemma {:induction false} DepthIsAdditive(text: string, i: nat, p: nat, q: nat)
    requires Boundary(text, i, p) && p <= q
    ensures Depth(text, i, q) == Depth(text, i, p) + Depth(text, p, q)
    decreases p - i
  {
    if i < p { DepthIsAdditive(text, i + Width(text, i), p, q); }
  }

  lemma {:induction false} BoundaryStep(text: string, i: nat, p: nat)
    requires Boundary(text, i, p)
    ensures Boundary(text, i, p + Width(text, p))
    ensures Depth(text, i, p + Width(text, p)) == Depth(text, i, p) + Delta(text, p)
    decreases p - i
  {
    if i < p {
      BoundaryStep(text, i + Width(text, i), p);
    } else {
      assert Depth(text, p + Width(text, p), p + Width(text, p)) == 0;
    }
  }

  /** No boundary lies inside a token. */
  lemma {:induction false} NextBoundary(text: string, i: nat, p: nat, q: nat)
    requires Boundary(text, i, p) && Boundary(text, i, q) && p < q
    ensures p + Width(text, p) <= q
    decreases p - i
  {
    if i < p { NextBoundary(text, i + Width(text, i), p, q); }
  }

  /** templateDepthAt: the whole block is visible, so a token that straddles `pos` is counted. */
  method TemplateDepthAt(block: string, pos: nat) returns (d: int)
    ensures d == Depth(block, 0, pos)
  {
    d := 0;
    var i := 0;
    while i < pos
      invariant Depth(block, 0, pos) == d + Depth(block, i, pos)
      decreases pos - i
    {
      if Pair(block, i, '{') {
        d := d + 1;
        i := i + 1;
      } else if Pair(block, i, '}') {
        d := d - 1;
        i := i + 1;
      }
      i := i + 1;
    }
  }

  /** Just past the close that brings the depth to zero, by the scan that starts at `i` with `depth` open. */
  predicate ClosesAt(text: string, start: nat, end: nat) {
    end >= 2 && Boundary(text, start, end - 2) && start <= end - 2
    && Pair(text, end - 2, '}') && !Pair(text, end - 2, '{') && Depth(text, start, end) == 0
  }

  /** The least close that brings the depth to zero; the end of the text when there is none. */
  ghost predicate BlockEnd(text: string, start: nat, end: nat) {
    && end <= |text|
    && (ClosesAt(text, start, end) || (end == |text| && forall p: nat :: !ClosesAt(text, start, p)))
    && (forall p: nat :: p < end ==> !ClosesAt(text, start, p))
  }

  method TemplateBlockEnd(text: string, start: nat) returns (end: nat)
    requires start <= |text|
    ensures BlockEnd(text, start, end)
  {
    var depth := 0;
    var i := start;
    while i + 1 < |text|
      invariant start <= i <= |text| && Boundary(text, start, i) && depth == Depth(text, start, i)
      invariant forall p: nat :: p <= i ==> !ClosesAt(text, start, p)
      decreases |text| - i
    {
      BoundaryStep(text, start, i);
      NoCloseInside(text, start, i);
      if Pair(text, i, '{') {
        depth := depth + 1;
        i := i + 1;
      } else if Pair(text, i, '}') {
        depth := depth - 1;
        i := i + 1;
        if depth == 0 { return i + 1; }
      }
      i := i + 1;
    }
    forall p: nat ensures !ClosesAt(text, start, p) {
      if ClosesAt(text, start, p) && p > i { NextCloseIsAToken(text, start, i, p); }
    }
    return |text|;
  }

  /** Between a boundary and the next one no template closes, unless the token between them is the close. */
  lemma NoCloseInside(text: string, start: nat, i: nat)
    requires start <= i && Boundary(text, start, i)
    ensures forall p: nat :: i < p <= i + Width(text, i) && ClosesAt(text, start, p) ==> p == i + 2 && Delta(text, i) == -1
  {
    forall p: nat | i < p <= i + Width(text, i) && ClosesAt(text, start, p) ensures p == i + 2 && Delta(text, i) == -1 {
      if p - 2 < i { NextBoundary(text, start, p - 2, i); }
    }
  }

  lemma NextCloseIsAToken(text: string, start: nat, i: nat, p: nat)
    requires start <= i && Boundary(text, start, i) && ClosesAt(text, start, p) && p > i
    ensures i + 2 <= p <= |text|
  {
    if p - 2 < i { NextBoundary(text, start, p - 2, i); }
  }

  // --------------------------------------------------------------------------- the two scanners agree

  /** From an opening pair, the depth stays positive up to the first boundary that closes it. */
  lemma {:induction false} OpenUntilClosed(text: string, start: nat, p: nat)
    requires Pair(text, start, '{') && Boundary(text, start, p) && start < p
    requires forall q: nat :: q <= p ==> !ClosesAt(text, start, q)
    ensures Depth(text, start, p) > 0
    decreases p
  {
    var before := PreviousBoundary(text, start, p);
    BoundaryStep(text, start, before);
    if before == start {
      assert Depth(text, start, start) == 0;
    } else {
      OpenUntilClosed(text, start, before);
      assert Delta(text, before) == -1 && Depth(text, start, p) == 0 ==> ClosesAt(text, start, p);
    }
  }

  lemma {:induction false} PreviousBoundary(text: string, i: nat, p: nat) returns (q: nat)
    requires Boundary(text, i, p) && i < p
    ensures i <= q < p && Boundary(text, i, q) && q + Width(text, q) == p
    decreases p - i
  {
    var next := i + Width(text, i);
    if next == p {
      q := i;
    } else {
      q := PreviousBoundary(text, next, p);
    }
  }

  /**
   * For a block that opens with `{{`, the end templateBlockEnd finds is the least boundary past the opening at
   * which templateDepthAt answers zero; and where it finds none, templateDepthAt is positive at every boundary.
   */
  lemma BlockEndIsTheFirstZero(block: string, end: nat, p: nat)
    requires Pair(block, 0, '{')
    requires BlockEnd(block, 0, end) && 0 < p && Boundary(block, 0, p)
    ensures p < end ==> Depth(block, 0, p) > 0
    ensures ClosesAt(block, 0, end) ==> Boundary(block, 0, end) && Depth(block, 0, end) == 0
    ensures !ClosesAt(block, 0, end) ==> Depth(block, 0, p) > 0
  {
    if p < end || !ClosesAt(block, 0, end) {
      OpenUntilClosed(block, 0, p);
    }
    if ClosesAt(block, 0, end) {
      BoundaryStep(block, 0, end - 2);
    }
  }

  /** Inside a token templateDepthAt already answers for the boundary behind it. */
  lemma DepthInsideAToken(block: string, i: nat)
    requires Boundary(block, 0, i) && Width(block, i) == 2
    ensures Depth(block, 0, i + 1) == Depth(block, 0, i + 2)
  {
    DepthIsAdditive(block, 0, i, i + 1);
    DepthIsAdditive(block, 0, i, i + 2);
  }

  /** A token of the scan from `i` begins just before `end` and reaches past it. */
  predicate Straddles(text: string, i: nat, end: nat) {
    i < end && Boundary(text, i, end - 1) && Width(text, end - 1) == 2
  }

  lemma StraddlesStep(text: string, i: nat, end: nat)
    requires i < end - 1
    ensures Straddles(text, i, end) <==> Straddles(text, i + Width(text, i), end)
  {
    assert Boundary(text, i, end - 1) <==> Boundary(text, i + Width(text, i), end - 1);
  }

  /** A scan of a piece cut from a text is the scan of the text, moved, unless the cut goes through a token. */
  lemma {:induction false} DepthOfPieceIff(text: string, start: nat, end: nat, i: nat, pos: nat)
    requires start + pos <= end <= |text|
    ensures Depth(text[start..end], i, pos) == Depth(text, start + i, start + pos)
      <==> !(start + pos == end && Straddles(text, start + i, end))
    decreases pos - i
  {
    var piece := text[start..end];
    if i < pos {
      if start + i + 1 < end {
        assert Width(piece, i) == Width(text, start + i) && Delta(piece, i) == Delta(text, start + i);
        var next := i + Width(piece, i);
        DepthOfPieceIff(text, start, end, next, pos);
        assert start + next == start + i + Width(text, start + i);
        StraddlesStep(text, start + i, end);
      } else {
        assert Width(piece, i) == 1 && Depth(piece, i, pos) == 0;
        assert Depth(text, start + i, start + pos) == Delta(text, start + i);
      }
    }
  }

  lemma BlockEndsBetweenTokens(text: string, start: nat, end: nat)
    requires start <= |text| && BlockEnd(text, start, end)
    ensures !Straddles(text, start, end)
  {
    if ClosesAt(text, start, end) && Straddles(text, start, end) {
      NextBoundary(text, start, end - 2, end - 1);
    }
  }

  /** So templateDepthAt on the block that templateBlockEnd cuts out is the depth in the page it was cut from. */
  lemma DepthOfBlock(text: string, start: nat, end: nat, pos: nat)
    requires start <= |text| && BlockEnd(text, start, end) && start + pos <= end
    ensures Depth(text[start..end], 0, pos) == Depth(text, start, start + pos)
  {
    BlockEndsBetweenTokens(text, start, end);
    DepthOfPieceIff(text, start, end, 0, pos);
  }

  /** What a scan sees of a text that goes on, as long as it stays away from the end of the piece. */
  lemma {:induction false} BoundaryOfPrefix(text: string, n: nat, i: nat, p: nat)
    requires p < n <= |text|
    ensures Boundary(text[..n], i, p) <==> Boundary(text, i, p)
    decreases p - i
  {
    if i < p {
      assert Width(text[..n], i) == Width(text, i);
      BoundaryOfPrefix(text, n, i + Width(text, i), p);
    }
  }

  /** A close within a piece is a close of the text. */
  lemma ClosesInPrefix(text: string, n: nat, start: nat, p: nat)
    requires n <= |text| && ClosesAt(text[..n], start, p)
    ensures p <= n && ClosesAt(text, start, p)
  {
    BoundaryOfPrefix(text, n, start, p - 2);
    BoundaryStep(text, start, p - 2);
    assert text[0..n] == text[..n];
    DepthOfPieceIff(text, 0, n, start, p);
    if p == n && Straddles(text, start, n) { NextBoundary(text, start, p - 2, n - 1); }
  }

  /** Without braces there is nothing but boundaries, and the depth stays. */
  lemma {:induction false} PlainStretch(text: string, i: nat, p: nat)
    requires i <= p <= |text| && forall k :: i <= k < p ==> text[k] != '{' && text[k] != '}'
    ensures Boundary(text, i, p) && Depth(text, i, p) == 0
    decreases p - i
  {
    if i < p { PlainStretch(text, i + 1, p); }
  }
}
