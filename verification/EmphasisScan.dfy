/** The emphasis scan as it runs: one pass with a stack, a set of removed positions and a memo of failed searches.
    The memo changes nothing about the result and makes the whole scan linear. */
module EmphasisScan {
  import opened Emphasis
  import opened EmphasisPairing

  /** The closers that fail together: marker, whether they may also open, and length modulo three. */
  datatype Class = Class(marker: char, canOpen: bool, residue: nat)

  /** For each class, the stack position at and below which no opener is eligible. */
  type Bottoms = map<Class, int>

  function ClassOf(run: Run): Class
    requires run.begin <= run.end
  {
    Class(run.marker, run.canOpen, (run.end - run.begin) % 3)
  }

  function Bottom(bottoms: Bottoms, c: Class): int {
    if c in bottoms then bottoms[c] else -1
  }

  /** No opener at or below its class's bottom is eligible for any closer of the class. */
  ghost predicate MemoSound(stack: seq<Opener>, bottoms: Bottoms) {
    forall k, run: Run | 0 <= k < |stack| && run.begin <= run.end && stack[k].start <= Bottom(bottoms, ClassOf(run)) ::
      !Eligible(stack[k], run)
  }

  /** Openers stand in strictly increasing order. */
  ghost predicate Rising(stack: seq<Opener>) {
    forall k, l | 0 <= k < l < |stack| :: stack[k].start < stack[l].start
  }

  // ----- the cost of the scan ------------------------------------------------------------------------------

  const CLASSES: set<Class> := {
    Class('*', false, 0), Class('*', false, 1), Class('*', false, 2),
    Class('*', true, 0), Class('*', true, 1), Class('*', true, 2),
    Class('_', false, 0), Class('_', false, 1), Class('_', false, 2),
    Class('_', true, 0), Class('_', true, 1), Class('_', true, 2)}

  /** The classes whose failed searches may still inspect an opener at `start`. */
  ghost function Pending(bottoms: Bottoms, start: int): set<Class> {
    set c | c in CLASSES && Bottom(bottoms, c) < start
  }

  /** Inspections the openers on the stack can still be charged with: each may be skipped by one successful search and
      fail once for each pending class. */
  ghost function Credit(stack: seq<Opener>, bottoms: Bottoms): nat {
    if stack == [] then 0
    else Credit(stack[..|stack| - 1], bottoms) + 1 + |Pending(bottoms, stack[|stack| - 1].start)|
  }

  /** How many openers stand above `bottom`. */
  ghost function Above(stack: seq<Opener>, bottom: int): nat {
    if stack == [] then 0 else Above(stack[..|stack| - 1], bottom) + if stack[|stack| - 1].start > bottom then 1 else 0
  }

  lemma PendingIsSmall(bottoms: Bottoms, start: int)
    ensures |Pending(bottoms, start)| <= 12
  {
    assert |CLASSES| <= 12;
    SubsetIsSmaller(Pending(bottoms, start), CLASSES);
  }

  lemma SubsetIsSmaller(a: set<Class>, b: set<Class>)
    requires a <= b
    ensures |a| <= |b|
  {
    assert b == a + (b - a);
  }

  lemma CreditOfPrefix(stack: seq<Opener>, k: nat, bottoms: Bottoms)
    requires k <= |stack|
    ensures Credit(stack[..k], bottoms) + |stack| - k <= Credit(stack, bottoms)
  {
    if k < |stack| {
      CreditOfPrefix(stack[..|stack| - 1], k, bottoms);
      assert stack[..|stack| - 1][..k] == stack[..k];
    } else {
      assert stack[..k] == stack;
    }
  }

  /** Raising a class's bottom over an opener takes the class off what is pending for it. */
  lemma PendingDrops(bottoms: Bottoms, c: Class, raised: int, start: int)
    requires c in CLASSES && Bottom(bottoms, c) <= raised && start <= raised
    ensures |Pending(bottoms[c := raised], start)| + (if start > Bottom(bottoms, c) then 1 else 0)
      == |Pending(bottoms, start)|
  {
    hide CLASSES;
    var before, after := Pending(bottoms, start), Pending(bottoms[c := raised], start);
    if start > Bottom(bottoms, c) {
      assert before == after + {c} && c !in after;
    } else {
      assert after == before;
    }
  }

  /** A failed search over the openers above the old bottom is paid for by raising the bottom. */
  lemma {:induction false} FailureIsPaid(stack: seq<Opener>, bottoms: Bottoms, c: Class, raised: int)
    requires c in CLASSES && Bottom(bottoms, c) <= raised
    requires forall k | 0 <= k < |stack| :: stack[k].start <= raised
    ensures Credit(stack, bottoms[c := raised]) + Above(stack, Bottom(bottoms, c)) <= Credit(stack, bottoms)
  {
    hide Pending, Bottom, CLASSES;
    if stack != [] {
      FailureIsPaid(stack[..|stack| - 1], bottoms, c, raised);
      PendingDrops(bottoms, c, raised, stack[|stack| - 1].start);
    }
  }

  lemma AboveOfSuffix(stack: seq<Opener>, k: nat, bottom: int)
    requires k <= |stack| && forall i | k <= i < |stack| :: stack[i].start > bottom
    ensures Above(stack, bottom) >= |stack| - k
  {
    if k < |stack| {
      AboveOfSuffix(stack[..|stack| - 1], k, bottom);
    }
  }

  // ----- the scan --------------------------------------------------------------------------------------------

  ghost predicate BottomsBelow(bottoms: Bottoms, bound: nat) {
    forall c | c in bottoms :: -1 <= bottoms[c] < bound
  }

  /** The openers the scan keeps between runs: in order, below `bound`, with a sound memo of failed searches. */
  ghost predicate Scanned(stack: seq<Opener>, bottoms: Bottoms, bound: nat) {
    && Open(stack) && Rising(stack) && MemoSound(stack, bottoms) && BottomsBelow(bottoms, bound)
    && forall k | 0 <= k < |stack| :: stack[k].start < bound
  }

  /** The loop over the stack, newest opener first, giving up at the class's bottom. */
  method Search(stack: seq<Opener>, bottom: int, run: Run) returns (k: int, ghost inspected: nat)
    requires run.begin <= run.end && Rising(stack)
    requires forall i | 0 <= i < |stack| && stack[i].start <= bottom :: !Eligible(stack[i], run)
    ensures k == Nearest(stack, run)
    ensures k >= 0 ==> inspected == |stack| - k
    ensures k < 0 ==> inspected <= Above(stack, bottom) + 1
  {
    hide Eligible;
    inspected := 0;
    for position := |stack| downto 0
      invariant inspected == |stack| - position
      invariant forall i | position <= i < |stack| :: !Eligible(stack[i], run) && stack[i].start > bottom
    {
      inspected := inspected + 1;
      if stack[position].start <= bottom {
        AboveOfSuffix(stack, position + 1, bottom);
        return -1, inspected;
      }
      if Eligible(stack[position], run) {
        return position, inspected;
      }
    }
    AboveOfSuffix(stack, 0, bottom);
    return -1, inspected;
  }

  /** The positions from `low` up to, not including, `high`. */
  function Range(low: nat, high: nat): (r: set<nat>)
    requires low <= high
    ensures forall x :: x in r <==> low <= x < high
    decreases high - low
  {
    if low == high then {} else Range(low, high - 1) + {high - 1}
  }

  /** A match only shortens the stack and lowers what its top has left. */
  lemma MatchSomeFields(st: State, k: nat, q: nat, count: nat)
    requires k < |st.stack| && Open(st.stack) && 1 <= count <= 2 && count <= st.stack[k].remaining
    ensures var o, r := st.stack[k], MatchSome(st, k, q, count);
      && r.stack == Shortened(st.stack, k, count)
      && Removed(r.pairs) == Removed(st.pairs)
           + Range(o.start + o.remaining - count, o.start + o.remaining) + Range(q, q + count)
  {
    var o := st.stack[k];
    var st1 := MatchOne(st, k, q);
    assert st1.pairs[..|st.pairs|] == st.pairs;
    if count == 2 {
      var st2 := MatchOne(st1, k, q + 1);
      assert st2.pairs[..|st1.pairs|] == st1.pairs;
      assert st1.stack[..k] == st.stack[..k];
    }
  }

  /** The stack after `count` characters of opener `k` have been used. */
  function Shortened(stack: seq<Opener>, k: nat, count: nat): seq<Opener>
    requires k < |stack| && count <= stack[k].remaining
  {
    stack[..k]
    + if stack[k].remaining == count then [] else [stack[k].(remaining := stack[k].remaining - count)]
  }

  lemma ShortenedFields(stack: seq<Opener>, k: nat, count: nat)
    requires k < |stack| && count <= stack[k].remaining && Open(stack)
    ensures var stack' := Shortened(stack, k, count);
      && |stack'| <= |stack| && Open(stack')
      && forall i | 0 <= i < |stack'| :: stack'[i] == stack[i].(remaining := stack'[i].remaining)
  {
  }

  lemma MatchKeepsScan(stack: seq<Opener>, bottoms: Bottoms, bound: nat, k: nat, count: nat)
    requires Scanned(stack, bottoms, bound) && k < |stack| && count <= stack[k].remaining
    ensures Scanned(Shortened(stack, k, count), bottoms, bound)
  {
    hide Shortened;
    var stack' := Shortened(stack, k, count);
    ShortenedFields(stack, k, count);
    forall i, run: Run | 0 <= i < |stack'| && run.begin <= run.end && stack'[i].start <= Bottom(bottoms, ClassOf(run))
      ensures !Eligible(stack'[i], run)
    {
      assert !Eligible(stack[i], run);
    }
  }

  lemma MatchKeepsCredit(stack: seq<Opener>, bottoms: Bottoms, k: nat, count: nat)
    requires k < |stack| && count <= stack[k].remaining
    ensures Credit(Shortened(stack, k, count), bottoms) + |stack| - k - 1 <= Credit(stack, bottoms)
  {
    var stack' := Shortened(stack, k, count);
    CreditOfPrefix(stack, k + 1, bottoms);
    assert stack[..k + 1][..k] == stack[..k];
    if stack[k].remaining != count {
      assert stack'[..|stack'| - 1] == stack[..k];
    } else {
      assert stack' == stack[..k];
    }
  }

  /** One successful search, as the plain algorithm sees it. */
  lemma SuccessStep(st: State, run: Run, remaining: nat)
    requires Open(st.stack) && run.begin <= run.end && 0 < remaining <= run.end - run.begin
    requires Nearest(st.stack, run) >= 0
    ensures var k := Nearest(st.stack, run);
      var o := st.stack[k];
      var count := Count(o, remaining);
      var st' := MatchSome(st, k, run.end - remaining, count);
      && Close(st, run, remaining) == Close(st', run, remaining - count)
      && st'.stack == Shortened(st.stack, k, count)
      && Removed(st'.pairs) == Removed(st.pairs) + Range(o.start + o.remaining - count, o.start + o.remaining)
                               + Range(run.end - remaining, run.end - remaining + count)
  {
    hide Eligible, Nearest, MatchSome, Removed, Range;
    var k := Nearest(st.stack, run);
    MatchSomeFields(st, k, run.end - remaining, Count(st.stack[k], remaining));
  }

  /** After a failed search every opener on the stack is ineligible for the whole class. */
  lemma FailureKeepsScan(stack: seq<Opener>, bottoms: Bottoms, bound: nat, run: Run, raised: int)
    requires Scanned(stack, bottoms, bound) && run.begin <= run.end && Nearest(stack, run) < 0
    requires raised < bound && raised >= Bottom(bottoms, ClassOf(run))
    ensures Scanned(stack, bottoms[ClassOf(run) := raised], bound)
  {
    forall k, other: Run | 0 <= k < |stack| && other.begin <= other.end
      && stack[k].start <= Bottom(bottoms[ClassOf(run) := raised], ClassOf(other))
      ensures !Eligible(stack[k], other)
    {
      if ClassOf(other) == ClassOf(run) {
        SameClassSameVerdict(stack[k], run, other);
      }
    }
  }

  /** Eligibility depends on the closer only through its class. */
  lemma SameClassSameVerdict(o: Opener, run: Run, other: Run)
    requires run.begin <= run.end && other.begin <= other.end && ClassOf(run) == ClassOf(other)
    ensures Eligible(o, run) == Eligible(o, other)
  {
  }

  /** Close a run against the stack, remembering how far down its class has failed. */
  method CloseRun(stack0: seq<Opener>, removed0: set<nat>, bottoms0: Bottoms, run: Run, ghost pairs0: seq<(nat, nat)>)
    returns (stack: seq<Opener>, removed: set<nat>, bottoms: Bottoms, remaining: nat,
             ghost pairs: seq<(nat, nat)>, ghost inspected: nat)
    requires run.begin < run.end && run.marker in "_*" && Scanned(stack0, bottoms0, run.begin)
    requires removed0 == Removed(pairs0)
    ensures (State(stack, pairs), remaining) == Close(State(stack0, pairs0), run, run.end - run.begin)
    ensures removed == Removed(pairs) && Scanned(stack, bottoms, run.begin)
    ensures inspected + Credit(stack, bottoms) <= Credit(stack0, bottoms0) + (run.end - run.begin)
  {
    hide Eligible, Nearest, Credit, Removed, Scanned, MatchSome, Range, Close, Above, Shortened;
    stack, removed, bottoms, remaining := stack0, removed0, bottoms0, run.end - run.begin;
    pairs, inspected := pairs0, 0;
    ScannedGives(stack, bottoms, run.begin, run);
    var closerClass := ClassOf(run);
    while remaining > 0
      invariant remaining <= run.end - run.begin && Scanned(stack, bottoms, run.begin) && removed == Removed(pairs)
      invariant Open(stack)
      invariant Close(State(stack, pairs), run, remaining) == Close(State(stack0, pairs0), run, run.end - run.begin)
      invariant inspected + Credit(stack, bottoms) + remaining <= Credit(stack0, bottoms0) + (run.end - run.begin)
    {
      var bottom := Bottom(bottoms, closerClass);
      ScannedGives(stack, bottoms, run.begin, run);
      var k, cost := Search(stack, bottom, run);
      inspected := inspected + cost;
      if k < 0 {
        var top := if |stack| > 0 then stack[|stack| - 1].start else -1;
        var raised := if bottom >= top then bottom else top;
        FailureKeepsScan(stack, bottoms, run.begin, run, raised);
        FailureIsPaid(stack, bottoms, closerClass, raised);
        CloseStops(State(stack, pairs), run, remaining);
        bottoms := bottoms[closerClass := raised];
        break;
      }
      var opener := stack[k];
      var count := if opener.remaining >= 2 && remaining >= 2 then 2 else 1;
      SuccessStep(State(stack, pairs), run, remaining);
      MatchKeepsScan(stack, bottoms, run.begin, k, count);
      MatchKeepsCredit(stack, bottoms, k, count);
      pairs := MatchSome(State(stack, pairs), k, run.end - remaining, count).pairs;
      removed := removed + Range(opener.start + opener.remaining - count, opener.start + opener.remaining)
                 + Range(run.end - remaining, run.end - remaining + count);
      stack := Shortened(stack, k, count);
      remaining := remaining - count;
    }
    CloseStops(State(stack, pairs), run, remaining);
  }

  lemma CloseStops(st: State, run: Run, remaining: nat)
    requires Open(st.stack) && run.begin <= run.end && remaining <= run.end - run.begin
    ensures remaining == 0 || Nearest(st.stack, run) < 0 ==> Close(st, run, remaining) == (st, remaining)
  {
  }

  lemma ScannedGives(stack: seq<Opener>, bottoms: Bottoms, bound: nat, run: Run)
    requires Scanned(stack, bottoms, bound) && run.begin <= run.end
    ensures Open(stack) && Rising(stack) && -1 <= Bottom(bottoms, ClassOf(run)) < bound
    ensures forall k | 0 <= k < |stack| :: stack[k].start < bound
    ensures forall k | 0 <= k < |stack| :: stack[k].start <= if |stack| > 0 then stack[|stack| - 1].start else -1
    ensures forall i | 0 <= i < |stack| && stack[i].start <= Bottom(bottoms, ClassOf(run)) :: !Eligible(stack[i], run)
    ensures run.marker in "_*" ==> ClassOf(run) in CLASSES
  {
  }

  /** The run that starts at `begin`, found character by character. */
  method ScanRun(doc: Doc, begin: nat) returns (run: Run)
    requires Valid(doc) && MarkerAt(doc, begin)
    ensures run == RunAt(doc, begin)
  {
    var marker := doc.characters[begin];
    var cursor := begin + 1;
    while cursor < |doc.characters| && doc.characters[cursor] == marker && !doc.literal[cursor]
          && doc.locations[cursor] == doc.locations[cursor - 1] + 1
      invariant begin < cursor <= |doc.characters|
      invariant MarkerAt(doc, cursor - 1) && doc.characters[cursor - 1] == marker
      invariant RunEnd(doc, cursor) == RunEnd(doc, begin + 1)
    {
      cursor := cursor + 1;
    }
    var end := cursor;
    var before, after := doc.locations[begin] - 1, doc.locations[end - 1] + 1;
    var previousSpace := WhitespaceAt(doc, before);
    var followingSpace := WhitespaceAt(doc, after);
    var left := !followingSpace && (!PunctuationAt(doc, after) || previousSpace || PunctuationAt(doc, before));
    var right := !previousSpace && (!PunctuationAt(doc, before) || followingSpace || PunctuationAt(doc, after));
    var canOpen := left && (marker == '*' || !right || PunctuationAt(doc, before));
    var canClose := right && (marker == '*' || !left || PunctuationAt(doc, after));
    run := Run(begin, end, marker, canOpen, canClose);
  }

  /** What is left of a run goes on top of the stack, above every remembered failure. */
  lemma PushKeepsScan(stack: seq<Opener>, bottoms: Bottoms, run: Run, remaining: nat)
    requires Scanned(stack, bottoms, run.begin) && run.begin < run.end && 0 < remaining <= run.end - run.begin
    ensures var o := Opener(run.end - remaining, run.end, remaining, run.canClose, run.end - run.begin, run.marker);
      && Scanned(stack + [o], bottoms, run.end)
      && Credit(stack + [o], bottoms) <= Credit(stack, bottoms) + 13
  {
    hide Eligible;
    var o := Opener(run.end - remaining, run.end, remaining, run.canClose, run.end - run.begin, run.marker);
    assert (stack + [o])[..|stack|] == stack;
    PendingIsSmall(bottoms, o.start);
  }

  lemma ScanMovesOn(stack: seq<Opener>, bottoms: Bottoms, low: nat, high: nat)
    requires Scanned(stack, bottoms, low) && low <= high
    ensures Scanned(stack, bottoms, high) && Open(stack)
  {
    hide Eligible;
  }

  /** The whole scan: it keeps exactly the characters the plain algorithm keeps, whatever searches the memo cuts
      short, which are all but those of the pairing the text calls for, and it inspects at most fourteen openers per character. */
  method PlainEmphasis(doc: Doc) returns (text: string, ghost inspected: nat)
    requires Valid(doc)
    ensures text == Kept(doc.characters, Removed(Resolve(doc).pairs))
    ensures exists pairing :: Pairing(doc, pairing) && text == Kept(doc.characters, Ends(pairing))
    ensures inspected <= 14 * |doc.characters|
  {
    hide Scanned, Credit, Process, Close, RunAt, IsRun, MarkerAt, Removed, Pairing, Ends, PairSet;
    var removed: set<nat> := {};
    var stack: seq<Opener> := [];
    var bottoms: Bottoms := map[];
    var cursor := 0;
    ghost var pairs: seq<(nat, nat)> := [];
    inspected := 0;
    NothingScanned();
    while cursor < |doc.characters|
      invariant cursor <= |doc.characters| && Scanned(stack, bottoms, cursor) && Open(stack)
      invariant removed == Removed(pairs)
      invariant ResolveFrom(doc, cursor, State(stack, pairs)) == Resolve(doc)
      invariant inspected + Credit(stack, bottoms) <= 14 * cursor
    {
      if !MarkerAt(doc, cursor) {
        ScanMovesOn(stack, bottoms, cursor, cursor + 1);
        cursor := cursor + 1;
        continue;
      }
      var run := ScanRun(doc, cursor);
      RunBounds(doc, cursor);
      var remaining := run.end - run.begin;
      ghost var st := State(stack, pairs);
      if run.canClose {
        ghost var cost;
        stack, removed, bottoms, remaining, pairs, cost := CloseRun(stack, removed, bottoms, run, pairs);
        inspected := inspected + cost;
      }
      ProcessUnfolded(st, run, State(stack, pairs), remaining);
      if run.canOpen && remaining > 0 {
        PushKeepsScan(stack, bottoms, run, remaining);
        var length := run.end - run.begin;
        stack := stack + [Opener(run.end - remaining, run.end, remaining, run.canClose, length, run.marker)];
      }
      ScanMovesOn(stack, bottoms, if run.canOpen && remaining > 0 then run.end else run.begin, run.end);
      cursor := run.end;
    }
    text := KeepUnremoved(doc.characters, removed);
    ResolveIsPairing(doc);
    RemovedAreEnds(Resolve(doc).pairs);
  }

  lemma NothingScanned()
    ensures Scanned([], map[], 0) && Credit([], map[]) == 0 && Removed([]) == {}
  {
  }

  lemma RunBounds(doc: Doc, begin: nat)
    requires Valid(doc) && MarkerAt(doc, begin)
    ensures var run := RunAt(doc, begin);
      run.begin == begin < run.end <= |doc.characters| && run.marker in "_*"
  {
  }

  /** The two halves of a run's processing, put together. */
  lemma ProcessUnfolded(st: State, run: Run, st1: State, remaining: nat)
    requires run.begin < run.end && Open(st.stack) && remaining <= run.end - run.begin && Open(st1.stack)
    requires if run.canClose then (st1, remaining) == Close(st, run, run.end - run.begin)
             else st1 == st && remaining == run.end - run.begin
    ensures Process(st, run) ==
      if run.canOpen && remaining > 0
      then State(st1.stack + [Opener(run.end - remaining, run.end, remaining, run.canClose, run.end - run.begin, run.marker)],
                 st1.pairs)
      else st1
  {
    hide Close;
  }

  method KeepUnremoved(characters: string, removed: set<nat>) returns (text: string)
    ensures text == Kept(characters, removed)
  {
    text := "";
    for position := 0 to |characters|
      invariant text == Kept(characters[..position], removed)
    {
      assert characters[..position + 1][..position] == characters[..position];
      if position !in removed {
        text := text + [characters[position]];
      }
    }
    assert characters[..|characters|] == characters;
  }
}
