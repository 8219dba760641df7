/** Indexes built in one pass and the searches they replace: closing parentheses, and closing backtick runs. */
module SpanIndex {
  import opened Options

  // ----- parentheses ------------------------------------------------------------------------------------------

  /** Counting depth forward from `pos`: where the open parenthesis is closed, if it is. */
  function ClosedAt(content: string, pos: nat, depth: nat): Option<nat>
    requires depth >= 1
    decreases |content| - pos
  {
    if pos >= |content| then None
    else if content[pos] == '(' then ClosedAt(content, pos + 1, depth + 1)
    else if content[pos] != ')' then ClosedAt(content, pos + 1, depth)
    else if depth == 1 then Some(pos)
    else ClosedAt(content, pos + 1, depth - 1)
  }

  /** Open less closing parentheses in `[from, until)`. */
  function Balance(content: string, from: nat, until: nat): int
    requires from <= until <= |content|
  {
    if from == until then 0
    else Balance(content, from, until - 1)
         + if content[until - 1] == '(' then 1 else if content[until - 1] == ')' then -1 else 0
  }

  lemma {:induction false} BalanceFromLeft(content: string, from: nat, until: nat)
    requires from < until <= |content|
    ensures Balance(content, from, until) == Balance(content, from + 1, until)
      + if content[from] == '(' then 1 else if content[from] == ')' then -1 else 0
    decreases until
  {
    if from + 1 < until {
      BalanceFromLeft(content, from, until - 1);
    }
  }

  /** Depth counting finds the first place where the parentheses from `pos` on have closed `depth` more than they have
      opened, and nothing exactly when there is no such place. */
  lemma {:induction false} ClosedAtBalances(content: string, pos: nat, depth: nat)
    requires depth >= 1 && pos <= |content|
    ensures var closed := ClosedAt(content, pos, depth);
      && (closed.Some? ==> pos <= closed.value < |content| && Balance(content, pos, closed.value + 1) == -(depth as int))
      && forall k | pos <= k <= (if closed.Some? then closed.value else |content|) ::
           Balance(content, pos, k) > -(depth as int)
    decreases |content| - pos
  {
    if pos < |content| {
      var c := content[pos];
      var next := if c == '(' then depth + 1 else if c == ')' then depth - 1 else depth;
      if next > 0 {
        ClosedAtBalances(content, pos + 1, next);
      }
      var closed := ClosedAt(content, pos, depth);
      if closed.Some? && next > 0 {
        BalanceFromLeft(content, pos, closed.value + 1);
      }
      forall k | pos <= k <= (if closed.Some? then closed.value else |content|)
        ensures Balance(content, pos, k) > -(depth as int)
      {
        if k > pos {
          BalanceFromLeft(content, pos, k);
        }
      }
    }
  }

  function Lookup(index: map<nat, nat>, key: nat): Option<nat> {
    if key in index then Some(index[key]) else None
  }

  /** The open parentheses on the stack stand in order, and counting forward from the one `k`-th from the bottom has
      reached `offset` at the depth of the stack above it. */
  ghost predicate Waiting(content: string, stack: seq<nat>, offset: nat) {
    && (forall k, l | 0 <= k < l < |stack| :: stack[k] < stack[l])
    && forall k | 0 <= k < |stack| ::
         && stack[k] < offset <= |content| && content[stack[k]] == '('
         && ClosedAt(content, stack[k] + 1, 1) == ClosedAt(content, offset, |stack| - k)
  }

  /** Every open parenthesis before `offset` is on the stack or indexed with what counting forward finds. */
  ghost predicate Settled(content: string, stack: seq<nat>, closing: map<nat, nat>, offset: nat) {
    && (forall o | o in closing :: o < offset <= |content| && content[o] == '(' && o !in stack)
    && forall o: nat | o < offset <= |content| && content[o] == '(' ::
         o in stack || (o in closing && ClosedAt(content, o + 1, 1) == Some(closing[o]))
  }

  lemma WaitingPush(content: string, stack: seq<nat>, offset: nat)
    requires Waiting(content, stack, offset) && offset < |content| && content[offset] == '('
    ensures Waiting(content, stack + [offset], offset + 1)
  {
  }

  lemma WaitingSkip(content: string, stack: seq<nat>, offset: nat)
    requires Waiting(content, stack, offset) && offset < |content| && content[offset] != '('
    requires content[offset] != ')' || stack == []
    ensures Waiting(content, stack, offset + 1)
  {
  }

  lemma WaitingPop(content: string, stack: seq<nat>, offset: nat)
    requires Waiting(content, stack, offset) && offset < |content| && content[offset] == ')' && stack != []
    ensures Waiting(content, stack[..|stack| - 1], offset + 1)
    ensures ClosedAt(content, stack[|stack| - 1] + 1, 1) == Some(offset)
  {
  }

  lemma SettledPush(content: string, stack: seq<nat>, closing: map<nat, nat>, offset: nat)
    requires Settled(content, stack, closing, offset) && offset < |content| && content[offset] == '('
    ensures Settled(content, stack + [offset], closing, offset + 1)
  {
    hide ClosedAt;
  }

  lemma SettledSkip(content: string, stack: seq<nat>, closing: map<nat, nat>, offset: nat)
    requires Settled(content, stack, closing, offset) && offset < |content| && content[offset] != '('
    ensures Settled(content, stack, closing, offset + 1)
  {
    hide ClosedAt;
  }

  lemma SettledPop(content: string, stack: seq<nat>, closing: map<nat, nat>, offset: nat)
    requires Waiting(content, stack, offset) && Settled(content, stack, closing, offset) && stack != []
    requires offset < |content| && content[offset] == ')'
    ensures Settled(content, stack[..|stack| - 1], closing[stack[|stack| - 1] := offset], offset + 1)
  {
    WaitingPop(content, stack, offset);
    hide ClosedAt;
    var last, rest := stack[|stack| - 1], stack[..|stack| - 1];
    var closing' := closing[last := offset];
    assert stack == rest + [last] && last < offset && content[last] == '(' && last !in rest;
    forall o | o in closing' ensures o < offset && content[o] == '(' && o !in rest {
      assert o != last ==> o in closing && o !in stack;
    }
    forall o: nat | o < offset && content[o] == '('
      ensures o in rest || (o in closing' && ClosedAt(content, o + 1, 1) == Some(closing'[o]))
    {
      assert o in stack ==> o in rest || o == last;
    }
  }

  /** One pass with a stack of open parentheses gives, for every one of them, what counting forward would find. */
  method ClosingParentheses(content: string) returns (closing: map<nat, nat>)
    ensures forall o: nat | o < |content| && content[o] == '(' :: Lookup(closing, o) == ClosedAt(content, o + 1, 1)
    ensures forall o | o in closing :: o < |content| && content[o] == '('
  {
    hide Waiting, Settled;
    closing := map[];
    var stack: seq<nat> := [];
    assert Waiting(content, stack, 0) && Settled(content, stack, closing, 0) by { NothingWaits(content); }
    for offset := 0 to |content|
      invariant Waiting(content, stack, offset) && Settled(content, stack, closing, offset)
    {
      if content[offset] == '(' {
        WaitingPush(content, stack, offset);
        SettledPush(content, stack, closing, offset);
        stack := stack + [offset];
      } else if content[offset] == ')' && |stack| > 0 {
        WaitingPop(content, stack, offset);
        SettledPop(content, stack, closing, offset);
        closing := closing[stack[|stack| - 1] := offset];
        stack := stack[..|stack| - 1];
      } else {
        WaitingSkip(content, stack, offset);
        SettledSkip(content, stack, closing, offset);
      }
    }
    IndexIsComplete(content, stack, closing);
  }

  lemma NothingWaits(content: string)
    ensures Waiting(content, [], 0) && Settled(content, [], map[], 0)
  {
  }

  lemma IndexIsComplete(content: string, stack: seq<nat>, closing: map<nat, nat>)
    requires Waiting(content, stack, |content|) && Settled(content, stack, closing, |content|)
    ensures forall o: nat | o < |content| && content[o] == '(' :: Lookup(closing, o) == ClosedAt(content, o + 1, 1)
    ensures forall o | o in closing :: o < |content| && content[o] == '('
  {
    forall k | 0 <= k < |stack| ensures ClosedAt(content, stack[k] + 1, 1) == None {
      assert ClosedAt(content, |content|, |stack| - k) == None;
    }
    hide ClosedAt;
    forall o: nat | o < |content| && content[o] == '(' ensures Lookup(closing, o) == ClosedAt(content, o + 1, 1) {
      if o in stack {
        var k :| 0 <= k < |stack| && stack[k] == o;
      }
    }
  }

  // ----- backtick runs ------------------------------------------------------------------------------------------

  predicate Tick(text: string, i: int) {
    0 <= i < |text| && text[i] == '`'
  }

  /** How many backticks follow one another from `start`. */
  function RunLength(text: string, start: nat): (n: nat)
    ensures start + n <= |text| || n == 0
    ensures !Tick(text, start + n) && forall i | start <= i < start + n :: Tick(text, i)
    decreases |text| - start
  {
    if Tick(text, start) then 1 + RunLength(text, start + 1) else 0
  }

  /** A maximal run of exactly `length` backticks starts at `p`. */
  predicate RunStart(text: string, p: nat, length: nat) {
    length > 0 && !Tick(text, p - 1) && RunLength(text, p) == length
  }

  /** `n` backticks from `p` on, with no backtick right before or right after. */
  predicate LoneTicks(text: string, p: nat, n: nat) {
    && 0 < n && p + n <= |text| && (forall i | p <= i < p + n :: text[i] == '`')
    && (p == 0 || text[p - 1] != '`') && (p + n == |text| || text[p + n] != '`')
  }

  lemma RunStartIs(text: string, p: nat, n: nat)
    ensures RunStart(text, p, n) <==> LoneTicks(text, p, n)
  {
    hide RunLength;
    var m := RunLength(text, p);
    if LoneTicks(text, p, n) {
      assert m < n ==> Tick(text, p + m);
      assert m > n ==> Tick(text, p + n);
    }
    if RunStart(text, p, n) {
      forall i | p <= i < p + n ensures text[i] == '`' {
        assert Tick(text, i);
      }
    }
  }

  /** The naive search: the end of the first maximal run of this length that starts in `[pos, limit)`. */
  function FirstClosing(text: string, pos: nat, limit: nat, length: nat): Option<nat>
    decreases limit - pos
  {
    if pos >= limit then None
    else if RunStart(text, pos, length) then Some(pos + length)
    else FirstClosing(text, pos + 1, limit, length)
  }

  lemma FirstClosingIs(text: string, pos: nat, limit: nat, length: nat, p: nat)
    requires pos <= p < limit && RunStart(text, p, length)
    requires forall i | pos <= i < p :: !RunStart(text, i, length)
    ensures FirstClosing(text, pos, limit, length) == Some(p + length)
    decreases p - pos
  {
    if pos < p { FirstClosingIs(text, pos + 1, limit, length, p); }
  }

  lemma NoClosing(text: string, pos: nat, limit: nat, length: nat)
    requires forall i | pos <= i < limit :: !RunStart(text, i, length)
    ensures FirstClosing(text, pos, limit, length) == None
    decreases limit - pos
  {
    if pos < limit { NoClosing(text, pos + 1, limit, length); }
  }

  /** The naive search finds a run of exactly this length in the range, and none starts earlier in it; or there is none
      in the range at all. */
  lemma {:induction false} FirstClosingMeans(text: string, pos: nat, limit: nat, length: nat)
    ensures var end := FirstClosing(text, pos, limit, length);
      && (end.Some? ==> end.value >= length && pos <= end.value - length < limit
                        && LoneTicks(text, end.value - length, length))
      && forall p | pos <= p < (if end.Some? then end.value - length else limit) :: !LoneTicks(text, p, length)
    decreases limit - pos
  {
    hide RunStart, LoneTicks;
    if pos < limit {
      RunStartIs(text, pos, length);
      if !RunStart(text, pos, length) {
        FirstClosingMeans(text, pos + 1, limit, length);
      }
    }
  }

  ghost predicate Ascending(s: seq<nat>) {
    forall i, j | 0 <= i < j < |s| :: s[i] < s[j]
  }

  /** The number of entries not above `x`, by bisection. */
  method BisectRight(s: seq<nat>, x: nat) returns (k: nat)
    requires Ascending(s)
    ensures k <= |s| && (forall i | 0 <= i < k :: s[i] <= x) && forall i | k <= i < |s| :: s[i] > x
  {
    var low, high := 0, |s|;
    while low < high
      invariant 0 <= low <= high <= |s|
      invariant (forall i | 0 <= i < low :: s[i] <= x) && forall i | high <= i < |s| :: s[i] > x
    {
      var mid := (low + high) / 2;
      if x < s[mid] {
        high := mid;
      } else {
        low := mid + 1;
      }
    }
    k := low;
  }

  /** A line of the block layout: where it starts and whether a block begins there. */
  datatype Line = Line(start: nat, boundary: bool)

  predicate LinesInOrder(text: string, lines: seq<Line>) {
    && (forall i | 0 <= i < |lines| :: lines[i].start < |text|)
    && forall i, j | 0 <= i < j < |lines| :: lines[i].start < lines[j].start
  }

  /** The next block boundary after `start`: the first later line that begins a block, or the end of the text. */
  function NextBoundary(text: string, lines: seq<Line>, start: nat): nat {
    if lines == [] then |text|
    else if lines[0].boundary && lines[0].start > start then lines[0].start
    else NextBoundary(text, lines[1..], start)
  }

  /** It lies after `start`, begins a block or ends the text, and no line between begins a block. */
  lemma {:induction false} NextBoundaryIs(text: string, lines: seq<Line>, start: nat)
    requires LinesInOrder(text, lines) && start < |text|
    ensures var b := NextBoundary(text, lines, start);
      && start < b <= |text|
      && (b == |text| || exists i :: 0 <= i < |lines| && lines[i].start == b && lines[i].boundary)
      && forall i | 0 <= i < |lines| && lines[i].boundary && lines[i].start > start :: lines[i].start >= b
  {
    if lines != [] {
      var rest := lines[1..];
      assert LinesInOrder(text, rest);
      NextBoundaryIs(text, rest, start);
      var b := NextBoundary(text, rest, start);
      if b != |text| {
        var i :| 0 <= i < |rest| && rest[i].start == b && rest[i].boundary;
        assert lines[i + 1] == rest[i];
      }
      forall i | 0 < i < |lines| && lines[i].boundary && lines[i].start > start ensures lines[i].start >= b {
        assert rest[i - 1] == lines[i];
      }
    }
  }

  /** The starts of the lines that begin a block. */
  function BlockStarts(lines: seq<Line>): seq<nat> {
    if lines == [] then []
    else BlockStarts(lines[..|lines| - 1])
         + if lines[|lines| - 1].boundary then [lines[|lines| - 1].start] else []
  }

  lemma BlockStartsAscend(text: string, lines: seq<Line>)
    requires LinesInOrder(text, lines)
    ensures Ascending(BlockStarts(lines))
    ensures forall i | 0 <= i < |BlockStarts(lines)| :: lines != [] && BlockStarts(lines)[i] <= lines[|lines| - 1].start
  {
    if lines != [] {
      var rest := lines[..|lines| - 1];
      assert LinesInOrder(text, rest);
      BlockStartsAscend(text, rest);
      assert rest != [] ==> rest[|rest| - 1].start < lines[|lines| - 1].start;
    }
  }

  lemma FirstBlockStart(lines: seq<Line>)
    requires lines != []
    ensures BlockStarts(lines) == (if lines[0].boundary then [lines[0].start] else []) + BlockStarts(lines[1..])
  {
    if |lines| > 1 {
      FirstBlockStart(lines[..|lines| - 1]);
      assert lines[..|lines| - 1][1..] == lines[1..][..|lines| - 2];
    }
  }

  /** The first indexed boundary above `start` is the next boundary of the layout. */
  lemma FirstAboveIsNext(text: string, lines: seq<Line>, start: nat, k: nat)
    requires LinesInOrder(text, lines) && start < |text| && k <= |BlockStarts(lines)|
    requires forall i | 0 <= i < k :: BlockStarts(lines)[i] <= start
    requires k < |BlockStarts(lines)| ==> BlockStarts(lines)[k] > start
    ensures NextBoundary(text, lines, start) == (BlockStarts(lines) + [|text|])[k]
    decreases lines
  {
    if lines != [] {
      var all, rest := BlockStarts(lines), BlockStarts(lines[1..]);
      FirstBlockStart(lines);
      assert LinesInOrder(text, lines[1..]);
      if !lines[0].boundary {
        assert all == rest;
        FirstAboveIsNext(text, lines[1..], start, k);
      } else {
        assert all == [lines[0].start] + rest;
        assert all[0] == lines[0].start;
        if lines[0].start <= start {
          assert k > 0;
          assert forall i | 0 <= i < |rest| :: all[i + 1] == rest[i];
          FirstAboveIsNext(text, lines[1..], start, k - 1);
        }
      }
    }
  }

  /** The list is in order and holds maximal runs of this length that start before `limit`. */
  ghost predicate RealList(text: string, list: seq<nat>, length: nat, limit: nat) {
    Ascending(list) && forall k | 0 <= k < |list| :: list[k] < limit && RunStart(text, list[k], length)
  }

  ghost predicate RunsReal(text: string, runs: map<nat, seq<nat>>, limit: nat) {
    forall length | length in runs :: RealList(text, runs[length], length, limit)
  }

  ghost predicate RunsAll(text: string, runs: map<nat, seq<nat>>, limit: nat) {
    forall length, p: nat | p < limit && RunStart(text, p, length) :: length in runs && p in runs[length]
  }

  /** `runs` lists, by length and in order, the maximal runs that start before `limit`. */
  ghost predicate RunsBefore(text: string, runs: map<nat, seq<nat>>, limit: nat) {
    RunsReal(text, runs, limit) && RunsAll(text, runs, limit)
  }

  function WithRun(runs: map<nat, seq<nat>>, length: nat, p: nat): map<nat, seq<nat>> {
    runs[length := (if length in runs then runs[length] else []) + [p]]
  }

  lemma RunAddedIsReal(text: string, runs: map<nat, seq<nat>>, cursor: nat, length: nat)
    requires RunsReal(text, runs, cursor) && RunStart(text, cursor, length)
    ensures RunsReal(text, WithRun(runs, length, cursor), cursor + length)
  {
    assert length > 0;
    hide RunStart, Ascending, RealList;
    var earlier := if length in runs then runs[length] else [];
    forall n | n in WithRun(runs, length, cursor)
      ensures RealList(text, WithRun(runs, length, cursor)[n], n, cursor + length)
    {
      if n == length {
        EmptyListIsReal(text, length, cursor);
        RealListExtended(text, earlier, length, cursor);
      } else {
        RealListLater(text, runs[n], n, cursor, cursor + length);
      }
    }
  }

  lemma EmptyListIsReal(text: string, length: nat, limit: nat)
    ensures RealList(text, [], length, limit)
  {
  }

  lemma RealListExtended(text: string, list: seq<nat>, length: nat, cursor: nat)
    requires RealList(text, list, length, cursor) && RunStart(text, cursor, length) && length > 0
    ensures RealList(text, list + [cursor], length, cursor + length)
  {
    hide RunStart;
  }

  lemma RealListLater(text: string, list: seq<nat>, length: nat, limit: nat, later: nat)
    requires RealList(text, list, length, limit) && limit <= later
    ensures RealList(text, list, length, later)
  {
    hide RunStart;
  }

  lemma RunAddedIsAll(text: string, runs: map<nat, seq<nat>>, cursor: nat, length: nat)
    requires RunsAll(text, runs, cursor) && RunStart(text, cursor, length)
    ensures RunsAll(text, WithRun(runs, length, cursor), cursor + length)
  {
    var earlier := if length in runs then runs[length] else [];
    var runs' := WithRun(runs, length, cursor);
    forall n: nat, p: nat | p < cursor + length && RunStart(text, p, n) ensures n in runs' && p in runs'[n] {
      if p >= cursor { OneRunHere(text, cursor, length, p, n); }
      assert cursor in earlier + [cursor];
    }
  }

  lemma OneRunHere(text: string, cursor: nat, length: nat, p: nat, n: nat)
    requires RunStart(text, cursor, length) && RunStart(text, p, n) && cursor <= p < cursor + length
    ensures p == cursor && n == length
  {
    assert forall i | cursor <= i < cursor + length :: Tick(text, i);
    assert p > cursor ==> Tick(text, p - 1);
  }

  lemma NoRunAdded(text: string, runs: map<nat, seq<nat>>, cursor: nat)
    requires RunsBefore(text, runs, cursor) && !Tick(text, cursor)
    ensures RunsBefore(text, runs, cursor + 1)
  {
  }

  method IndexRuns(text: string) returns (runs: map<nat, seq<nat>>)
    ensures RunsBefore(text, runs, |text|)
  {
    hide RunsReal, RunsAll;
    runs := map[];
    assert RunsBefore(text, runs, 0) by { NoRunsYet(text); }
    var cursor := 0;
    while cursor < |text|
      invariant 0 <= cursor <= |text| && !(Tick(text, cursor - 1) && Tick(text, cursor))
      invariant RunsBefore(text, runs, cursor)
    {
      var length := RunLength(text, cursor);
      if length == 0 {
        NoRunAdded(text, runs, cursor);
        cursor := cursor + 1;
      } else {
        RunAddedIsReal(text, runs, cursor, length);
        RunAddedIsAll(text, runs, cursor, length);
        runs := WithRun(runs, length, cursor);
        cursor := cursor + length;
      }
    }
  }

  lemma NoRunsYet(text: string)
    ensures RunsBefore(text, map[], 0)
  {
  }

  /** Equal-length runs and block boundaries, indexed once. */
  class CodeSpans {
    const text: string
    const lines: seq<Line>
    var runs: map<nat, seq<nat>>
    var boundaries: seq<nat>

    ghost predicate Valid()
      reads this
    {
      LinesInOrder(text, lines) && RunsBefore(text, runs, |text|) && boundaries == BlockStarts(lines) + [|text|]
    }

    constructor (text: string, lines: seq<Line>)
      requires LinesInOrder(text, lines)
      ensures Valid() && this.text == text && this.lines == lines
    {
      this.text := text;
      this.lines := lines;
      boundaries := [];
      runs := map[];
      new;
      runs := IndexRuns(text);
      for i := 0 to |lines|
        invariant boundaries == BlockStarts(lines[..i]) && RunsBefore(text, runs, |text|)
        invariant this.text == text && this.lines == lines
      {
        assert lines[..i + 1][..i] == lines[..i];
        if lines[i].boundary {
          boundaries := boundaries + [lines[i].start];
        }
      }
      assert lines[..|lines|] == lines;
      boundaries := boundaries + [|text|];
    }

    method Boundary(start: nat) returns (b: nat)
      requires Valid()
      ensures b == if start < |text| then NextBoundary(text, lines, start) else |text|
    {
      hide NextBoundary, BlockStarts;
      if start >= |text| {
        return |text|;
      }
      BlockStartsAscend(text, lines);
      if lines != [] { LastLineInText(text, lines); }
      var k := BisectRight(boundaries, start);
      assert boundaries[|boundaries| - 1] > start;
      assert forall i | 0 <= i < |BlockStarts(lines)| :: boundaries[i] == BlockStarts(lines)[i];
      FirstAboveIsNext(text, lines, start, k);
      b := boundaries[k];
    }

    /** The end of the code span that opens at `start`: exactly what the naive search up to the next boundary finds. */
    method End(start: nat) returns (r: Option<nat>)
      requires Valid() && start <= |text|
      ensures !Tick(text, start) ==> r == None
      ensures Tick(text, start) ==>
        r == FirstClosing(text, start + 1, NextBoundary(text, lines, start), RunLength(text, start))
    {
      hide NextBoundary, BlockStarts, RunsBefore, RunStart, LinesInOrder, FirstClosing;
      var length := RunLength(text, start);
      if length == 0 {
        return None;
      }
      var positions := if length in runs then runs[length] else [];
      EntriesAreRuns(text, runs, length);
      var following := BisectRight(positions, start);
      var boundary := Boundary(start);
      BoundaryInText(text, lines, start);
      if following < |positions| && positions[following] < boundary {
        NothingFollows(text, runs, start, length, positions[following], following);
        FirstClosingIs(text, start + 1, boundary, length, positions[following]);
        return Some(positions[following] + length);
      }
      NothingFollows(text, runs, start, length, boundary, following);
      NoClosing(text, start + 1, boundary, length);
      return None;
    }
  }

  lemma EntriesAreRuns(text: string, runs: map<nat, seq<nat>>, length: nat)
    requires RunsBefore(text, runs, |text|)
    ensures length in runs ==> Ascending(runs[length])
    ensures length in runs ==> forall k | 0 <= k < |runs[length]| :: RunStart(text, runs[length][k], length)
  {
    hide RunStart;
  }

  /** Between two neighbours of an index entry list there is no run of that length. */
  lemma NothingFollows(text: string, runs: map<nat, seq<nat>>, start: nat, length: nat, limit: nat, following: nat)
    requires RunsBefore(text, runs, |text|) && limit <= |text|
    requires length in runs ==> following <= |runs[length]|
    requires length in runs ==> forall i | 0 <= i < following :: runs[length][i] <= start
    requires length in runs ==> forall i | following <= i < |runs[length]| :: runs[length][i] >= limit
    ensures forall i: nat | start < i < limit :: !RunStart(text, i, length)
  {
    hide RunStart;
  }

  lemma LastLineInText(text: string, lines: seq<Line>)
    requires LinesInOrder(text, lines) && lines != []
    ensures lines[|lines| - 1].start < |text|
  {
  }

  lemma BoundaryInText(text: string, lines: seq<Line>, start: nat)
    requires LinesInOrder(text, lines)
    ensures NextBoundary(text, lines, start) <= |text|
  {
    if lines != [] {
      assert LinesInOrder(text, lines[1..]);
      BoundaryInText(text, lines[1..], start);
    }
  }
}
