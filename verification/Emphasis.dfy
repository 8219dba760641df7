/** Emphasis resolution: competing star and underscore runs are paired off against a stack of openers. This module is
    the plain algorithm, without the memo of failed searches; `EmphasisScan` holds the loops. */
module Emphasis {

  /** What a source character counts as for flanking; the Unicode classification itself is an input. */
  datatype Kind = Space | Punctuation | Other

  /** The inline text to resolve: each character, whether it is literal, and where in the source it came from. */
  datatype Doc = Doc(characters: string, literal: seq<bool>, source: seq<Kind>, locations: seq<int>)

  predicate Valid(doc: Doc) {
    && |doc.characters| == |doc.literal| == |doc.locations|
    && forall i | 0 <= i < |doc.locations| :: 0 <= doc.locations[i] < |doc.source|
  }

  predicate PunctuationAt(doc: Doc, position: int) {
    0 <= position < |doc.source| && doc.source[position] == Punctuation
  }

  predicate WhitespaceAt(doc: Doc, position: int)
    requires position <= |doc.source|
  {
    position < 0 || position == |doc.source| || doc.source[position] == Space
  }

  /** A character that can delimit emphasis. */
  predicate MarkerAt(doc: Doc, i: int)
    requires Valid(doc)
  {
    0 <= i < |doc.characters| && doc.characters[i] in "_*" && !doc.literal[i]
  }

  /** Characters `i - 1` and `i` belong to one run. */
  predicate Joined(doc: Doc, i: int)
    requires Valid(doc)
  {
    && MarkerAt(doc, i - 1) && MarkerAt(doc, i) && doc.characters[i] == doc.characters[i - 1]
    && doc.locations[i] == doc.locations[i - 1] + 1
  }

  /** Where the run that contains `cursor - 1` ends. */
  function RunEnd(doc: Doc, cursor: nat): (end: nat)
    requires Valid(doc) && MarkerAt(doc, cursor - 1)
    ensures cursor <= end <= |doc.characters| && !Joined(doc, end)
    ensures forall i | cursor <= i < end :: Joined(doc, i)
    decreases |doc.characters| - cursor
  {
    if Joined(doc, cursor) then RunEnd(doc, cursor + 1) else cursor
  }

  datatype Run = Run(begin: nat, end: nat, marker: char, canOpen: bool, canClose: bool)

  predicate IsRun(doc: Doc, run: Run)
    requires Valid(doc)
  {
    && run.begin < run.end <= |doc.characters|
    && forall i | run.begin <= i < run.end :: MarkerAt(doc, i) && doc.characters[i] == run.marker
  }

  /** The run that starts at `begin`, with what its source neighbours allow it to do. */
  function RunAt(doc: Doc, begin: nat): (run: Run)
    requires Valid(doc) && MarkerAt(doc, begin)
    ensures IsRun(doc, run) && run.begin == begin
  {
    var end := RunEnd(doc, begin + 1);
    SameMarker(doc, begin, end);
    var marker := doc.characters[begin];
    var before, after := doc.locations[begin] - 1, doc.locations[end - 1] + 1;
    var left := !WhitespaceAt(doc, after)
      && (!PunctuationAt(doc, after) || WhitespaceAt(doc, before) || PunctuationAt(doc, before));
    var right := !WhitespaceAt(doc, before)
      && (!PunctuationAt(doc, before) || WhitespaceAt(doc, after) || PunctuationAt(doc, after));
    Run(begin, end, marker,
        left && (marker == '*' || !right || PunctuationAt(doc, before)),
        right && (marker == '*' || !left || PunctuationAt(doc, after)))
  }

  lemma {:induction false} SameMarker(doc: Doc, begin: nat, end: nat)
    requires Valid(doc) && begin < end && MarkerAt(doc, begin) && forall i | begin < i < end :: Joined(doc, i)
    ensures forall i | begin <= i < end :: MarkerAt(doc, i) && doc.characters[i] == doc.characters[begin]
  {
    if begin + 1 < end {
      SameMarker(doc, begin, end - 1);
      assert Joined(doc, end - 1);
    }
  }

  // ----- openers -----------------------------------------------------------------------------------------

  /** A run on the stack: `remaining` of its characters, from `start` on, can still open. */
  datatype Opener = Opener(start: nat, end: nat, remaining: nat, canClose: bool, length: nat, marker: char)

  /** May this opener be closed by this run? Of its own fields only `canClose`, `length` and `marker` matter. */
  predicate Eligible(o: Opener, run: Run)
    requires run.begin <= run.end
  {
    var length := run.end - run.begin;
    && o.marker == run.marker
    && !((o.canClose || run.canOpen) && (o.length + length) % 3 == 0 && (o.length % 3 != 0 || length % 3 != 0))
  }

  /** The nearest opener the run may close, or -1. */
  function Nearest(stack: seq<Opener>, run: Run): (k: int)
    requires run.begin <= run.end
    ensures -1 <= k < |stack|
    ensures k >= 0 ==> Eligible(stack[k], run)
    ensures forall i | k < i < |stack| :: !Eligible(stack[i], run)
  {
    if stack == [] then -1
    else if Eligible(stack[|stack| - 1], run) then |stack| - 1
    else Nearest(stack[..|stack| - 1], run)
  }

  /** The stack of openers and the delimiter characters paired so far, opener first. */
  datatype State = State(stack: seq<Opener>, pairs: seq<(nat, nat)>)

  /** Every opener on the stack still has something to open with. */
  predicate Open(stack: seq<Opener>) {
    forall k | 0 <= k < |stack| :: stack[k].remaining > 0
  }

  /** Pair the last open character of opener `k` with character `q`; openers above it are dropped. */
  function MatchOne(st: State, k: nat, q: nat): (r: State)
    requires k < |st.stack| && Open(st.stack)
    ensures Open(r.stack)
  {
    var o := st.stack[k];
    State(st.stack[..k] + if o.remaining == 1 then [] else [o.(remaining := o.remaining - 1)],
          st.pairs + [(o.start + o.remaining - 1, q)])
  }

  /** One or two characters of the run, against the opener they close. */
  function MatchSome(st: State, k: nat, q: nat, count: nat): (r: State)
    requires k < |st.stack| && Open(st.stack) && 1 <= count <= 2 && count <= st.stack[k].remaining
    ensures Open(r.stack)
  {
    if count == 1 then MatchOne(st, k, q) else MatchOne(MatchOne(st, k, q), k, q + 1)
  }

  /** Two characters at once where both sides have two. */
  function Count(o: Opener, remaining: nat): nat {
    if o.remaining >= 2 && remaining >= 2 then 2 else 1
  }

  /** Close as much of the run as openers allow; the number of its characters left over comes back. */
  function Close(st: State, run: Run, remaining: nat): (r: (State, nat))
    requires run.begin <= run.end && remaining <= run.end - run.begin && Open(st.stack)
    ensures Open(r.0.stack) && r.1 <= remaining
    ensures r.1 > 0 ==> Nearest(r.0.stack, run) < 0
    decreases remaining
  {
    var k := Nearest(st.stack, run);
    if remaining == 0 || k < 0 then (st, remaining)
    else
      var count := Count(st.stack[k], remaining);
      Close(MatchSome(st, k, run.end - remaining, count), run, remaining - count)
  }

  function Process(st: State, run: Run): (r: State)
    requires run.begin <= run.end && Open(st.stack)
    ensures Open(r.stack)
  {
    var (st1, remaining) := if run.canClose then Close(st, run, run.end - run.begin) else (st, run.end - run.begin);
    Push(st1, run, remaining)
  }

  /** What is left of a run that can open goes on the stack. */
  function Push(st: State, run: Run, remaining: nat): (r: State)
    requires run.begin <= run.end && remaining <= run.end - run.begin && Open(st.stack)
    ensures Open(r.stack)
  {
    if run.canOpen && remaining > 0
    then State(st.stack + [Opener(run.end - remaining, run.end, remaining, run.canClose, run.end - run.begin, run.marker)],
               st.pairs)
    else st
  }

  /** The whole text: its runs processed from left to right. */
  function ResolveFrom(doc: Doc, cursor: nat, st: State): State
    requires Valid(doc) && Open(st.stack)
    decreases |doc.characters| - cursor
  {
    if cursor >= |doc.characters| then st
    else if !MarkerAt(doc, cursor) then ResolveFrom(doc, cursor + 1, st)
    else ResolveFrom(doc, RunAt(doc, cursor).end, Process(st, RunAt(doc, cursor)))
  }

  function Resolve(doc: Doc): State
    requires Valid(doc)
  {
    ResolveFrom(doc, 0, State([], []))
  }

  /** The text without the removed characters. */
  function Kept(characters: string, removed: set<nat>): string {
    if characters == "" then ""
    else Kept(characters[..|characters| - 1], removed)
         + if |characters| - 1 in removed then "" else [characters[|characters| - 1]]
  }

  /** The characters the pairs remove. */
  function Removed(pairs: seq<(nat, nat)>): set<nat> {
    if pairs == [] then {} else Removed(pairs[..|pairs| - 1]) + {pairs[|pairs| - 1].0, pairs[|pairs| - 1].1}
  }

  // ----- the removed characters form a bracketing ----------------------------------------------------------

  /** Every pair joins two equal, non-literal markers, opener first. */
  ghost predicate Delimits(doc: Doc, pairs: seq<(nat, nat)>)
    requires Valid(doc)
  {
    forall a | 0 <= a < |pairs| ::
      && pairs[a].0 < pairs[a].1 && MarkerAt(doc, pairs[a].0) && MarkerAt(doc, pairs[a].1)
      && doc.characters[pairs[a].0] == doc.characters[pairs[a].1]
  }

  /** No character is in two pairs. */
  ghost predicate Disjoint(pairs: seq<(nat, nat)>) {
    forall a, b | 0 <= a < b < |pairs| ::
      pairs[a].0 != pairs[b].0 && pairs[a].0 != pairs[b].1 && pairs[a].1 != pairs[b].0 && pairs[a].1 != pairs[b].1
  }

  /** Two pairs nest or lie apart; they never cross. */
  ghost predicate NonCrossing(pairs: seq<(nat, nat)>) {
    forall a, b | 0 <= a < |pairs| && 0 <= b < |pairs| :: !(pairs[a].0 < pairs[b].0 < pairs[a].1 < pairs[b].1)
  }

  ghost predicate Bracketing(doc: Doc, pairs: seq<(nat, nat)>)
    requires Valid(doc)
  {
    Delimits(doc, pairs) && Disjoint(pairs) && NonCrossing(pairs)
  }

  /** `p` is one of the characters opener `o` can still use. */
  ghost predicate LiveIn(o: Opener, p: nat) {
    o.start <= p < o.start + o.remaining
  }

  /** The openers stand in order below `bound`, each over its own markers. */
  ghost predicate Ordered(doc: Doc, stack: seq<Opener>, bound: nat)
    requires Valid(doc)
  {
    && (forall k | 0 <= k < |stack| :: stack[k].start + stack[k].remaining <= bound)
    && (forall k, l | 0 <= k < l < |stack| :: stack[k].start + stack[k].remaining <= stack[l].start)
    && (forall k, p: nat | 0 <= k < |stack| && LiveIn(stack[k], p) ::
          MarkerAt(doc, p) && doc.characters[p] == stack[k].marker)
  }

  /** No pair reaches `bound`, touches a live character or encloses one. */
  ghost predicate Clear(stack: seq<Opener>, pairs: seq<(nat, nat)>, bound: nat) {
    && (forall a | 0 <= a < |pairs| :: pairs[a].0 < pairs[a].1 < bound)
    && (forall a, k, p: nat | 0 <= a < |pairs| && 0 <= k < |stack| && LiveIn(stack[k], p) ::
          p != pairs[a].0 && p != pairs[a].1 && !(pairs[a].0 < p < pairs[a].1))
  }

  ghost predicate Nested(doc: Doc, st: State, bound: nat)
    requires Valid(doc)
  {
    Open(st.stack) && Bracketing(doc, st.pairs) && Ordered(doc, st.stack, bound) && Clear(st.stack, st.pairs, bound)
  }

  /** What is left on the stack after a match: prefixes of what was there, all before the matched character. */
  lemma MatchOneTrims(doc: Doc, st: State, k: nat, q: nat)
    requires Valid(doc) && k < |st.stack| && Open(st.stack) && Ordered(doc, st.stack, q)
    ensures var p := st.stack[k].start + st.stack[k].remaining - 1;
      var r := MatchOne(st, k, q).stack;
      && LiveIn(st.stack[k], p) && |r| <= k + 1
      && forall i | 0 <= i < |r| ::
           && r[i].start == st.stack[i].start && r[i].marker == st.stack[i].marker
           && r[i].remaining <= st.stack[i].remaining && r[i].start + r[i].remaining <= p
  {
  }

  lemma MatchOneOrdered(doc: Doc, st: State, k: nat, q: nat)
    requires Valid(doc) && k < |st.stack| && Open(st.stack) && Ordered(doc, st.stack, q)
    ensures Ordered(doc, MatchOne(st, k, q).stack, q + 1)
  {
    MatchOneTrims(doc, st, k, q);
    var r := MatchOne(st, k, q).stack;
    hide MatchOne, MarkerAt;
    forall i, x: nat | 0 <= i < |r| && LiveIn(r[i], x) ensures MarkerAt(doc, x) && doc.characters[x] == r[i].marker {
      assert LiveIn(st.stack[i], x);
    }
  }

  lemma MatchOneClear(doc: Doc, st: State, k: nat, q: nat)
    requires Valid(doc) && k < |st.stack| && Open(st.stack) && Ordered(doc, st.stack, q) && Clear(st.stack, st.pairs, q)
    ensures Clear(MatchOne(st, k, q).stack, MatchOne(st, k, q).pairs, q + 1)
  {
    MatchOneTrims(doc, st, k, q);
    var r := MatchOne(st, k, q);
    var p := st.stack[k].start + st.stack[k].remaining - 1;
    assert r.pairs == st.pairs + [(p, q)];
    hide MatchOne, Ordered;
    forall a, i, x: nat | 0 <= a < |r.pairs| && 0 <= i < |r.stack| && LiveIn(r.stack[i], x)
      ensures x != r.pairs[a].0 && x != r.pairs[a].1 && !(r.pairs[a].0 < x < r.pairs[a].1)
    {
      assert LiveIn(st.stack[i], x);
    }
  }

  lemma PairAppended(doc: Doc, pairs: seq<(nat, nat)>, p: nat, q: nat)
    requires Valid(doc) && Bracketing(doc, pairs) && p < q && MarkerAt(doc, p) && MarkerAt(doc, q)
    requires doc.characters[p] == doc.characters[q]
    requires forall a | 0 <= a < |pairs| ::
      pairs[a].0 < pairs[a].1 < q && p != pairs[a].0 && p != pairs[a].1 && !(pairs[a].0 < p < pairs[a].1)
    ensures Bracketing(doc, pairs + [(p, q)])
  {
  }

  /** Pairing an opener's last live character with the next character of the closer keeps everything nested. */
  lemma MatchOneNests(doc: Doc, st: State, k: nat, q: nat)
    requires Valid(doc) && Nested(doc, st, q) && k < |st.stack|
    requires MarkerAt(doc, q) && doc.characters[q] == st.stack[k].marker
    ensures Nested(doc, MatchOne(st, k, q), q + 1)
  {
    MatchOneOrdered(doc, st, k, q);
    MatchOneClear(doc, st, k, q);
    var p := st.stack[k].start + st.stack[k].remaining - 1;
    assert LiveIn(st.stack[k], p);
    hide Bracketing, MarkerAt;
    PairAppended(doc, st.pairs, p, q);
  }

  lemma MatchSomeNests(doc: Doc, st: State, run: Run, k: nat, remaining: nat)
    requires Valid(doc) && IsRun(doc, run) && 0 < remaining <= run.end - run.begin
    requires Nested(doc, st, run.end - remaining) && k < |st.stack| && Eligible(st.stack[k], run)
    ensures var count := Count(st.stack[k], remaining);
      && 1 <= count <= 2 && count <= remaining && count <= st.stack[k].remaining
      && Nested(doc, MatchSome(st, k, run.end - remaining, count), run.end - remaining + count)
  {
    hide Bracketing, Ordered, Clear, MarkerAt;
    var q := run.end - remaining;
    assert doc.characters[q] == st.stack[k].marker && MarkerAt(doc, q);
    MatchOneNests(doc, st, k, q);
    if Count(st.stack[k], remaining) == 2 {
      MatchOneNests(doc, MatchOne(st, k, q), k, q + 1);
    }
  }

  lemma CloseNests(doc: Doc, st: State, run: Run, remaining: nat)
    requires Valid(doc) && IsRun(doc, run) && remaining <= run.end - run.begin
    requires Nested(doc, st, run.end - remaining)
    ensures var (st', left) := Close(st, run, remaining); Nested(doc, st', run.end - left)
    decreases remaining
  {
    hide Nested, IsRun, Eligible, MatchSome;
    NestedIsOpen(doc, st, run.end - remaining);
    var k := Nearest(st.stack, run);
    if remaining > 0 && k >= 0 {
      MatchSomeNests(doc, st, run, k, remaining);
      var count := Count(st.stack[k], remaining);
      CloseNests(doc, MatchSome(st, k, run.end - remaining, count), run, remaining - count);
    }
  }

  lemma PushNests(doc: Doc, st: State, run: Run, remaining: nat)
    requires Valid(doc) && IsRun(doc, run) && remaining <= run.end - run.begin && Nested(doc, st, run.end - remaining)
    ensures Nested(doc, Push(st, run, remaining), run.end)
  {
    hide Bracketing, MarkerAt;
    var r := Push(st, run, remaining);
    forall k, p: nat | 0 <= k < |r.stack| && LiveIn(r.stack[k], p)
      ensures k < |st.stack| ==> LiveIn(st.stack[k], p)
    {
    }
  }

  lemma ProcessNests(doc: Doc, st: State, run: Run)
    requires Valid(doc) && IsRun(doc, run) && Nested(doc, st, run.begin)
    ensures Nested(doc, Process(st, run), run.end)
  {
    hide Nested, IsRun, Close, Push;
    NestedIsOpen(doc, st, run.begin);
    RunIsInside(doc, run);
    var (st1, left) := if run.canClose then Close(st, run, run.end - run.begin) else (st, run.end - run.begin);
    CloseNests(doc, st, run, run.end - run.begin);
    PushNests(doc, st1, run, left);
  }

  lemma ResolveNests(doc: Doc, cursor: nat, st: State)
    requires Valid(doc) && cursor <= |doc.characters| && Nested(doc, st, cursor)
    ensures Nested(doc, ResolveFrom(doc, cursor, st), |doc.characters|)
    decreases |doc.characters| - cursor
  {
    hide MarkerAt, RunAt, Process, Nested, IsRun;
    NestedIsOpen(doc, st, cursor);
    if cursor < |doc.characters| {
      if !MarkerAt(doc, cursor) {
        NestedFurther(doc, st, cursor);
        ResolveNests(doc, cursor + 1, st);
      } else {
        var run := RunAt(doc, cursor);
        RunIsInside(doc, run);
        ProcessNests(doc, st, run);
        ResolveNests(doc, run.end, Process(st, run));
      }
    }
  }

  lemma RunIsInside(doc: Doc, run: Run)
    requires Valid(doc) && IsRun(doc, run)
    ensures run.begin < run.end <= |doc.characters|
  {
  }

  lemma NestedFurther(doc: Doc, st: State, bound: nat)
    requires Valid(doc) && Nested(doc, st, bound)
    ensures Nested(doc, st, bound + 1)
  {
    hide Bracketing, MarkerAt;
  }

  lemma NestedIsOpen(doc: Doc, st: State, bound: nat)
    requires Valid(doc) && Nested(doc, st, bound)
    ensures Open(st.stack)
  {
  }

  /** For every text, the removed characters pair up into a non-crossing matching of equal, non-literal markers with
      the opener first, and no character is removed twice. */
  lemma RemovalsAreABracketing(doc: Doc)
    requires Valid(doc)
    ensures var pairs := Resolve(doc).pairs;
      Bracketing(doc, pairs) && |Removed(pairs)| == 2 * |pairs|
  {
    ResolveNests(doc, 0, State([], []));
    RemovedTwicePerPair(Resolve(doc).pairs);
  }

  lemma InRemoved(pairs: seq<(nat, nat)>, x: nat)
    ensures x in Removed(pairs) <==> exists a :: 0 <= a < |pairs| && (pairs[a].0 == x || pairs[a].1 == x)
  {
    if pairs != [] {
      InRemoved(pairs[..|pairs| - 1], x);
    }
  }

  lemma RemovedTwicePerPair(pairs: seq<(nat, nat)>)
    requires Disjoint(pairs) && forall a | 0 <= a < |pairs| :: pairs[a].0 != pairs[a].1
    ensures |Removed(pairs)| == 2 * |pairs|
  {
    if pairs != [] {
      var rest, last := pairs[..|pairs| - 1], pairs[|pairs| - 1];
      RemovedTwicePerPair(rest);
      InRemoved(rest, last.0);
      InRemoved(rest, last.1);
      assert |{last.0, last.1}| == 2;
      assert Removed(pairs) == Removed(rest) + {last.0, last.1};
      assert Removed(rest) !! {last.0, last.1};
    }
  }
}
