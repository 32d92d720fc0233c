/** Splitting a template's interior on the pipes that are in no template and no link (scrape-spells.ts). */
module TopLevelSplit {
  import opened Prelude

  datatype Kind = Opening | Closing | Other

  /** What begins at `i`: two equal braces or brackets count as one token. */
  function KindAt(s: string, i: nat): Kind {
    if i + 1 >= |s| || s[i] != s[i + 1] then Other
    else if s[i] == '{' || s[i] == '[' then Opening
    else if s[i] == '}' || s[i] == ']' then Closing
    else Other
  }

  function Step(s: string, i: nat): (w: nat)
    ensures 1 <= w <= 2
    ensures i < |s| ==> i + w <= |s|
  {
    if KindAt(s, i).Other? then 1 else 2
  }

  function Change(s: string, i: nat): int {
    match KindAt(s, i)
    case Opening => 1
    case Closing => -1
    case Other => 0
  }

  predicate PipeAt(s: string, i: nat, d: int)
    requires i < |s|
  {
    s[i] == '|' && d == 0
  }

  /** Where the scan that stands at `i` at depth `d` meets its next top-level pipe; else the end of the text. */
  function NextPipe(s: string, i: nat, d: int): (p: nat)
    requires i <= |s|
    ensures i <= p <= |s| && (p < |s| ==> s[p] == '|')
    decreases |s| - i
  {
    if i == |s| || PipeAt(s, i, d) then i else NextPipe(s, i + Step(s, i), d + Change(s, i))
  }

  /** The text from `start`, cut at every top-level pipe. */
  function Cut(s: string, start: nat): (parts: seq<string>)
    requires start <= |s|
    ensures parts != []
    decreases |s| - start
  {
    var p := NextPipe(s, start, 0);
    if p == |s| then [s[start..]] else [s[start..p]] + Cut(s, p + 1)
  }

  function Split(s: string): seq<string> {
    Cut(s, 0)
  }

  function Join(parts: seq<string>): string {
    if parts == [] then ""
    else if |parts| == 1 then parts[0]
    else parts[0] + "|" + Join(parts[1..])
  }

  /** The part begun at `start` and ended by the pipe at `p`, and what follows it. */
  function CutAt(s: string, start: nat, p: nat): seq<string>
    requires start <= p <= |s|
  {
    if p == |s| then [s[start..]] else [s[start..p]] + Cut(s, p + 1)
  }

  /** What is left to produce with the part begun at `start` read up to `i` at depth `d`. */
  function Rest(s: string, start: nat, i: nat, d: int): seq<string>
    requires start <= i <= |s|
  {
    CutAt(s, start, NextPipe(s, i, d))
  }

  lemma TokenIsNoPipe(s: string, i: nat, d: int)
    requires i < |s| && !PipeAt(s, i, d)
    ensures NextPipe(s, i, d) == NextPipe(s, i + Step(s, i), d + Change(s, i))
  {
  }

  lemma Regroup(done: seq<string>, part: string, todo: seq<string>)
    requires todo != []
    ensures done + ([part] + todo) == (done + [part]) + todo
  {
  }

  /** The parts already cut, and the rest, are the parts of the whole. */
  predicate Leads(done: seq<string>, s: string, start: nat, i: nat, d: int) {
    start <= i <= |s| && Split(s) == done + Rest(s, start, i, d)
  }

  lemma ReadToken(done: seq<string>, s: string, start: nat, i: nat, d: int)
    requires Leads(done, s, start, i, d) && i < |s| && !PipeAt(s, i, d)
    ensures Leads(done, s, start, i + Step(s, i), d + Change(s, i))
  {
    TokenIsNoPipe(s, i, d);
  }

  lemma ReadPipe(done: seq<string>, s: string, start: nat, i: nat)
    requires Leads(done, s, start, i, 0) && i < |s| && PipeAt(s, i, 0)
    ensures Leads(done + [s[start..i]], s, i + 1, i + 1, 0)
  {
    assert NextPipe(s, i, 0) == i;
    Regroup(done, s[start..i], Cut(s, i + 1));
  }

  /** One turn of the loop: a pipe ends a part, and anything else moves the scan. */
  lemma ReadOne(done: seq<string>, s: string, start: nat, i: nat, d: int)
    requires Leads(done, s, start, i, d) && i < |s|
    ensures PipeAt(s, i, d) ==> Leads(done + [s[start..i]], s, i + 1, i + 1, d)
    ensures !PipeAt(s, i, d) ==> Leads(done, s, start, i + Step(s, i), d + Change(s, i))
  {
    if PipeAt(s, i, d) { ReadPipe(done, s, start, i); } else { ReadToken(done, s, start, i, d); }
  }

  lemma ReadAll(done: seq<string>, s: string, start: nat, d: int)
    requires Leads(done, s, start, |s|, d)
    ensures Split(s) == done + [s[start..]]
  {
  }

  lemma ReadNothing(s: string)
    ensures Leads([], s, 0, 0, 0)
  {
    assert [] + Cut(s, 0) == Cut(s, 0);
  }

  method SplitTopLevel(interior: string) returns (parts: seq<string>)
    ensures parts == Split(interior)
  {
    parts := [];
    var depth := 0;
    var start := 0;
    var i := 0;
    ReadNothing(interior);
    while i < |interior|
      invariant Leads(parts, interior, start, i, depth)
      decreases |interior| - i
    {
      ReadOne(parts, interior, start, i, depth);
      if KindAt(interior, i).Opening? {
        depth := depth + 1;
        i := i + 1;
      } else if KindAt(interior, i).Closing? {
        depth := depth - 1;
        i := i + 1;
      } else if PipeAt(interior, i, depth) {
        parts := parts + [interior[start..i]];
        start := i + 1;
      }
      i := i + 1;
    }
    ReadAll(parts, interior, start, depth);
    parts := parts + [interior[start..]];
  }

  // ------------------------------------------------------------------------------------------ inverses

  lemma {:induction false} JoinUndoesCut(s: string, start: nat)
    requires start <= |s|
    ensures Join(Cut(s, start)) == s[start..]
    decreases |s| - start
  {
    var p := NextPipe(s, start, 0);
    if p < |s| {
      JoinUndoesCut(s, p + 1);
      assert Cut(s, start)[1..] == Cut(s, p + 1);
      assert s[start..] == s[start..p] + "|" + s[p + 1..];
    }
  }

  /** Joining the parts gives back the text, for every text. */
  lemma JoinUndoesSplit(s: string)
    ensures Join(Split(s)) == s
  {
    JoinUndoesCut(s, 0);
    assert s[0..] == s;
  }

  /** The depth at which a scan that stands at `i` at depth `d` ends. */
  function EndDepth(s: string, i: nat, d: int): int
    requires i <= |s|
    decreases |s| - i
  {
    if i == |s| then d else EndDepth(s, i + Step(s, i), d + Change(s, i))
  }

  predicate WholeFrom(part: string, i: nat, d: int)
    requires i <= |part|
  {
    NextPipe(part, i, d) == |part|
  }

  /** No part has a top-level pipe, and every part but the last leaves nothing open. */
  predicate Clean(parts: seq<string>) {
    && parts != []
    && (forall k :: 0 <= k < |parts| ==> WholeFrom(parts[k], 0, 0))
    && (forall k :: 0 <= k < |parts| - 1 ==> EndDepth(parts[k], 0, 0) == 0)
  }

  /** `s[a..b]` is followed by a pipe or by nothing. */
  predicate PartOf(s: string, a: nat, b: nat) {
    a <= b <= |s| && (b < |s| ==> s[b] == '|')
  }

  /** A token of a part is the same token of the text around it: a pipe is half of no pair. */
  lemma TokenOfPart(s: string, a: nat, b: nat, k: nat)
    requires PartOf(s, a, b) && a + k < b
    ensures Step(s[a..b], k) == Step(s, a + k) && Change(s[a..b], k) == Change(s, a + k)
    ensures s[a..b][k] == s[a + k] && a + k + Step(s, a + k) <= b
  {
  }

  /** Scanning the text finds the first top-level pipe of a part inside it, or gets to the end of the part. */
  lemma {:induction false} ScanOfPart(s: string, a: nat, b: nat, k: nat, d: int)
    requires PartOf(s, a, b) && a + k <= b
    ensures WholeFrom(s[a..b], k, d) && (b == |s| || EndDepth(s[a..b], k, d) == 0) ==> NextPipe(s, a + k, d) == b
    ensures NextPipe(s, a + k, d) == b ==> WholeFrom(s[a..b], k, d) && (b == |s| || EndDepth(s[a..b], k, d) == 0)
    decreases b - a - k
  {
    if a + k < b {
      TokenOfPart(s, a, b, k);
      if !PipeAt(s, a + k, d) {
        ScanOfPart(s, a, b, k + Step(s, a + k), d + Change(s, a + k));
      }
    }
  }

  lemma {:induction false} CutIsClean(s: string, start: nat)
    requires start <= |s|
    ensures Clean(Cut(s, start))
    decreases |s| - start
  {
    var p := NextPipe(s, start, 0);
    ScanOfPart(s, start, p, 0, 0);
    if p < |s| {
      CutIsClean(s, p + 1);
      var later := Cut(s, p + 1);
      assert forall k :: 1 <= k < |Cut(s, start)| ==> Cut(s, start)[k] == later[k - 1];
    } else {
      assert s[start..p] == s[start..];
    }
  }

  lemma JoinBegins(s: string, start: nat, parts: seq<string>)
    requires start <= |s| && s[start..] == Join(parts) && parts != []
    ensures var b := start + |parts[0]|;
      && PartOf(s, start, b) && s[start..b] == parts[0]
      && (if |parts| == 1 then b == |s| && s[start..] == parts[0] else b < |s| && s[b + 1..] == Join(parts[1..]))
  {
    var b := start + |parts[0]|;
    assert s[start..][..|parts[0]|] == parts[0];
    if |parts| > 1 {
      assert s[start..][|parts[0]|] == '|';
      assert s[b + 1..] == s[start..][|parts[0]| + 1..];
    }
  }

  lemma CleanTail(parts: seq<string>)
    requires Clean(parts)
    ensures WholeFrom(parts[0], 0, 0)
    ensures |parts| > 1 ==> EndDepth(parts[0], 0, 0) == 0 && Clean(parts[1..])
  {
  }

  lemma Assembled(s: string, start: nat, b: nat, parts: seq<string>)
    requires start <= b <= |s| && NextPipe(s, start, 0) == b && parts != [] && s[start..b] == parts[0]
    requires if b == |s| then |parts| == 1 && s[start..] == parts[0] else Cut(s, b + 1) == parts[1..]
    ensures Cut(s, start) == parts
  {
    assert parts == [parts[0]] + parts[1..];
  }

  lemma FirstPart(s: string, start: nat, parts: seq<string>)
    requires start <= |s| && s[start..] == Join(parts) && Clean(parts)
    ensures NextPipe(s, start, 0) == start + |parts[0]|
  {
    CleanTail(parts);
    JoinBegins(s, start, parts);
    ScanOfPart(s, start, start + |parts[0]|, 0, 0);
  }

  lemma {:induction false} CutUndoesJoin(s: string, start: nat, parts: seq<string>)
    requires start <= |s| && s[start..] == Join(parts) && Clean(parts)
    ensures Cut(s, start) == parts
    decreases |parts|
  {
    FirstPart(s, start, parts);
    JoinBegins(s, start, parts);
    var b := start + |parts[0]|;
    if |parts| > 1 {
      CleanTail(parts);
      CutUndoesJoin(s, b + 1, parts[1..]);
    }
    Assembled(s, start, b, parts);
  }

  /** Splitting undoes joining for the clean lists of parts and for no others. */
  lemma SplitUndoesJoinIff(parts: seq<string>)
    ensures Split(Join(parts)) == parts <==> Clean(parts)
  {
    var s := Join(parts);
    CutIsClean(s, 0);
    if Clean(parts) {
      assert s[0..] == s;
      CutUndoesJoin(s, 0, parts);
    }
  }

  // ------------------------------------------------------------------------------ which pipes are top-level

  predicate Reads(s: string, a: nat, token: string) {
    a + |token| <= |s| && s[a..a + |token|] == token
  }

  predicate Opens(s: string, a: nat) {
    Reads(s, a, "{{") || Reads(s, a, "[[")
  }

  predicate Closes(s: string, a: nat) {
    Reads(s, a, "}}") || Reads(s, a, "]]")
  }

  /** The positions at which the tokens of a text begin, read from its beginning, and its end. */
  predicate IsScan(s: string, marks: seq<nat>) {
    && marks != [] && marks[0] == 0 && marks[|marks| - 1] == |s|
    && forall k :: 0 <= k < |marks| - 1 ==> marks[k] < |s| && marks[k + 1] == marks[k] + TokenLength(s, marks[k])
  }

  function TokenLength(s: string, a: nat): nat {
    if Opens(s, a) || Closes(s, a) then 2 else 1
  }

  /** How many of the first `k` tokens open, less those that close. */
  function OpenBefore(s: string, marks: seq<nat>, k: nat): int
    requires k < |marks|
  {
    if k == 0 then 0
    else
      var a := marks[k - 1];
      OpenBefore(s, marks, k - 1) + (if Opens(s, a) then 1 else if Closes(s, a) then -1 else 0)
  }

  /** The pipes, from the `k`-th token on, before which as many tokens open as close. */
  function BalancedPipes(s: string, marks: seq<nat>, k: nat): seq<nat>
    requires IsScan(s, marks) && k < |marks|
    decreases |marks| - k
  {
    if k == |marks| - 1 then []
    else if s[marks[k]] == '|' && OpenBefore(s, marks, k) == 0 then [marks[k]] + BalancedPipes(s, marks, k + 1)
    else BalancedPipes(s, marks, k + 1)
  }

  /** Where parts joined from `start` on end, but for the last. */
  function Ends(parts: seq<string>, start: nat): seq<nat> {
    if |parts| <= 1 then [] else [start + |parts[0]|] + Ends(parts[1..], start + |parts[0]| + 1)
  }

  lemma TokenIsRead(s: string, a: nat)
    requires a < |s|
    ensures Step(s, a) == TokenLength(s, a) && Change(s, a) == if Opens(s, a) then 1 else if Closes(s, a) then -1 else 0
  {
    if a + 2 <= |s| { assert s[a..a + 2] == [s[a], s[a + 1]]; }
  }

  /** The ends that are left when the scan has met its next top-level pipe at `p`. */
  function EndsFrom(s: string, p: nat): seq<nat>
    requires p <= |s|
  {
    if p == |s| then [] else [p] + Ends(Cut(s, p + 1), p + 1)
  }

  lemma EndsOfCut(s: string, start: nat)
    requires start <= |s|
    ensures Ends(Cut(s, start), start) == EndsFrom(s, NextPipe(s, start, 0))
  {
    var p := NextPipe(s, start, 0);
    if p < |s| { assert Cut(s, start)[1..] == Cut(s, p + 1); }
  }

  lemma BalancedPipeIsMet(s: string, marks: seq<nat>, k: nat)
    requires IsScan(s, marks) && k < |marks| - 1 && s[marks[k]] == '|' && OpenBefore(s, marks, k) == 0
    ensures NextPipe(s, marks[k], 0) == marks[k] && OpenBefore(s, marks, k + 1) == 0
    ensures EndsFrom(s, marks[k]) == [marks[k]] + EndsFrom(s, NextPipe(s, marks[k + 1], 0))
  {
    TokenIsRead(s, marks[k]);
    EndsOfCut(s, marks[k + 1]);
  }

  lemma OtherTokenIsPassed(s: string, marks: seq<nat>, k: nat)
    requires IsScan(s, marks) && k < |marks| - 1 && !PipeAt(s, marks[k], OpenBefore(s, marks, k))
    ensures NextPipe(s, marks[k], OpenBefore(s, marks, k)) == NextPipe(s, marks[k + 1], OpenBefore(s, marks, k + 1))
  {
    TokenIsRead(s, marks[k]);
    TokenIsNoPipe(s, marks[k], OpenBefore(s, marks, k));
  }

  /** From the `k`-th token on the next end is the next balanced pipe. */
  lemma {:induction false} ScanFindsBalanced(s: string, marks: seq<nat>, k: nat)
    requires IsScan(s, marks) && k < |marks|
    ensures marks[k] <= |s| && BalancedPipes(s, marks, k) == EndsFrom(s, NextPipe(s, marks[k], OpenBefore(s, marks, k)))
    decreases |marks| - k
  {
    if k < |marks| - 1 {
      ScanFindsBalanced(s, marks, k + 1);
      if PipeAt(s, marks[k], OpenBefore(s, marks, k)) {
        BalancedPipeIsMet(s, marks, k);
      } else {
        OtherTokenIsPassed(s, marks, k);
      }
    }
  }

  /** The parts end at exactly the balanced pipes, in their order. */
  lemma PartsEndAtTheBalancedPipes(s: string, marks: seq<nat>)
    requires IsScan(s, marks)
    ensures Ends(Split(s), 0) == BalancedPipes(s, marks, 0)
  {
    ScanFindsBalanced(s, marks, 0);
    EndsOfCut(s, 0);
  }

  lemma {:induction false} ScanGoesOn(s: string, marks: seq<nat>) returns (all: seq<nat>)
    requires marks != [] && marks[0] == 0 && marks[|marks| - 1] <= |s|
    requires forall k :: 0 <= k < |marks| - 1 ==> marks[k] < |s| && marks[k + 1] == marks[k] + TokenLength(s, marks[k])
    ensures IsScan(s, all)
    decreases |s| - marks[|marks| - 1]
  {
    var last := marks[|marks| - 1];
    if last == |s| { return marks; }
    all := ScanGoesOn(s, marks + [last + TokenLength(s, last)]);
  }

  /** Every text has its tokens. */
  lemma EveryTextHasAScan(s: string) returns (marks: seq<nat>)
    ensures IsScan(s, marks)
  {
    marks := ScanGoesOn(s, [0]);
  }
}
