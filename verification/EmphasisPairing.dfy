/** What emphasis resolution decides, stated over the text alone: which runs open and close, and that each closing
    character pairs with the nearest character before it that it may close and that no earlier pair has taken or
    enclosed. */
module EmphasisPairing {
  import opened Emphasis

  // ----- flanks ----------------------------------------------------------------------------------------------------

  /** The class of a neighbour; beyond either end of the source counts as space. */
  function NeighbourAt(doc: Doc, position: int): Kind {
    if 0 <= position < |doc.source| then doc.source[position] else Space
  }

  /** By the classes of the two neighbours: a star run opens before a word, or before punctuation that no word precedes,
      and closes mirrored; an underscore run opens and closes at the outside of words only. */
  lemma FlanksMean(doc: Doc, begin: nat)
    requires Valid(doc) && MarkerAt(doc, begin)
    ensures var run := RunAt(doc, begin);
      var x := NeighbourAt(doc, doc.locations[begin] - 1);
      var y := NeighbourAt(doc, doc.locations[run.end - 1] + 1);
      && run.marker == doc.characters[begin]
      && (run.marker == '*' ==>
            && (run.canOpen <==> y == Other || (y == Punctuation && x != Other))
            && (run.canClose <==> x == Other || (x == Punctuation && y != Other)))
      && (run.marker == '_' ==>
            && (run.canOpen <==> y != Space && x != Other)
            && (run.canClose <==> x != Space && y != Other))
  {
  }

  /** The character can follow the one before it in a run: the same star or underscore, neither literal, from the next
      place of the source. */
  predicate Continues(doc: Doc, i: nat)
    requires Valid(doc) && 0 < i
  {
    && i < |doc.characters| && doc.characters[i] == doc.characters[i - 1] && doc.characters[i] in "*_"
    && !doc.literal[i] && !doc.literal[i - 1] && doc.locations[i] == doc.locations[i - 1] + 1
  }

  /** A run goes on exactly as long as its characters continue one another. */
  lemma RunIsMaximal(doc: Doc, begin: nat)
    requires Valid(doc) && begin < |doc.characters| && doc.characters[begin] in "*_" && !doc.literal[begin]
    ensures MarkerAt(doc, begin)
    ensures var end := RunAt(doc, begin).end;
      begin < end && !Continues(doc, end) && forall i | begin < i < end :: Continues(doc, i)
  {
    var end := RunAt(doc, begin).end;
    forall i | begin < i < end ensures Continues(doc, i) {
      assert Joined(doc, i);
    }
  }

  // ----- runs of characters ----------------------------------------------------------------------------------------

  /** Where the run that holds the marker at `p` begins. */
  function RunBegin(doc: Doc, p: nat): (begin: nat)
    requires Valid(doc) && MarkerAt(doc, p)
    ensures begin <= p && MarkerAt(doc, begin) && !Joined(doc, begin)
  {
    if Joined(doc, p) then RunBegin(doc, p - 1) else p
  }

  /** The maximal run that holds the marker at `p`. */
  function RunOf(doc: Doc, p: nat): Run
    requires Valid(doc) && MarkerAt(doc, p)
  {
    RunAt(doc, RunBegin(doc, p))
  }

  lemma {:induction false} RunOfMember(doc: Doc, begin: nat, p: nat)
    requires Valid(doc) && MarkerAt(doc, begin) && !Joined(doc, begin)
    requires begin <= p < RunAt(doc, begin).end
    ensures MarkerAt(doc, p) && RunOf(doc, p) == RunAt(doc, begin)
    decreases p
  {
    assert IsRun(doc, RunAt(doc, begin));
    if begin < p {
      assert Joined(doc, p);
      RunOfMember(doc, begin, p - 1);
    }
  }

  /** May the character at `p` open what the one at `q` closes? Their runs are of one marker, the first may open and the
      second close; and if either of them may do both, their lengths together are no multiple of three unless each of
      them is. */
  ghost predicate Joins(doc: Doc, p: nat, q: nat)
    requires Valid(doc)
  {
    MarkerAt(doc, p) && MarkerAt(doc, q) &&
    var a, c := RunOf(doc, p), RunOf(doc, q);
    var m, n := a.end - a.begin, c.end - c.begin;
    && a.end <= c.begin && a.marker == c.marker && a.canOpen && c.canClose
    && (a.canClose || c.canOpen ==> (m + n) % 3 != 0 || (m % 3 == 0 && n % 3 == 0))
  }

  /** A pair closed before `q` has taken `x` or encloses it. */
  ghost predicate Covered(pairs: seq<(nat, nat)>, x: nat, q: nat) {
    exists a :: 0 <= a < |pairs| && CoveredBy(pairs[a], x, q)
  }

  predicate CoveredBy(pair: (nat, nat), x: nat, q: nat) {
    pair.1 < q && (pair.0 == x || pair.1 == x || pair.0 < x < pair.1)
  }

  /** The character at `q` pairs with the nearest uncovered one it may close, and with none if there is none. */
  ghost predicate Settled(doc: Doc, pairs: seq<(nat, nat)>, q: nat)
    requires Valid(doc)
  {
    && (forall a | 0 <= a < |pairs| && pairs[a].1 == q ::
          Joins(doc, pairs[a].0, q) && AllCovered(doc, pairs, pairs[a].0 + 1, q))
    && ((forall a | 0 <= a < |pairs| :: pairs[a].1 != q) ==> AllCovered(doc, pairs, 0, q))
  }

  /** From `low` on, whatever the character at `q` may close is covered. */
  ghost predicate AllCovered(doc: Doc, pairs: seq<(nat, nat)>, low: nat, q: nat)
    requires Valid(doc)
  {
    forall x: nat | low <= x < q && Joins(doc, x, q) :: Covered(pairs, x, q)
  }

  // ----- the stack in terms of the text ------------------------------------------------------------------------------

  /** An opener on the stack is what is left of a run that may open. */
  ghost predicate FromRun(doc: Doc, o: Opener)
    requires Valid(doc)
  {
    MarkerAt(doc, o.start) &&
    var run := RunOf(doc, o.start);
    && run.canOpen && run.end == o.end && run.canClose == o.canClose && run.end - run.begin == o.length
    && run.marker == o.marker && o.start + o.remaining <= o.end
  }

  /** `p` is live on the stack. */
  ghost predicate Live(stack: seq<Opener>, p: nat) {
    exists k :: 0 <= k < |stack| && LiveIn(stack[k], p)
  }

  /** Every character before `low` of a run that may open is live or covered. */
  ghost predicate Accounted(doc: Doc, st: State, low: nat, bound: nat)
    requires Valid(doc)
  {
    forall x: nat | x < low && MarkerAt(doc, x) && RunOf(doc, x).canOpen :: AccountedFor(st, x, bound)
  }

  ghost predicate AccountedFor(st: State, x: nat, bound: nat) {
    Live(st.stack, x) || Covered(st.pairs, x, bound)
  }

  /** Every character from `begin` up to `bound` has been taken or enclosed. */
  ghost predicate Consumed(pairs: seq<(nat, nat)>, begin: nat, bound: nat) {
    forall x: nat | begin <= x < bound :: Covered(pairs, x, bound)
  }

  ghost predicate EndsBy(stack: seq<Opener>, bound: nat) {
    forall k | 0 <= k < |stack| :: stack[k].end <= bound
  }

  /** Between runs: everything before `bound` is decided or still live. */
  ghost predicate Decided(doc: Doc, st: State, bound: nat)
    requires Valid(doc)
  {
    && Nested(doc, st, bound) && FromRuns(doc, st.stack) && EndsBy(st.stack, bound)
    && Accounted(doc, st, bound, bound) && AllSettled(doc, st.pairs, bound)
  }

  /** Inside a closing run: its characters before `q` have been paired. */
  ghost predicate Closing(doc: Doc, st: State, run: Run, q: nat)
    requires Valid(doc)
  {
    && run.begin <= q <= run.end && MarkerAt(doc, run.begin) && !Joined(doc, run.begin) && run == RunAt(doc, run.begin)
    && Nested(doc, st, q) && FromRuns(doc, st.stack) && EndsBy(st.stack, run.begin)
    && Accounted(doc, st, run.begin, q) && AllSettled(doc, st.pairs, q) && Consumed(st.pairs, run.begin, q)
  }

  ghost predicate FromRuns(doc: Doc, stack: seq<Opener>)
    requires Valid(doc)
  {
    forall k | 0 <= k < |stack| :: FromRun(doc, stack[k])
  }

  ghost predicate AllSettled(doc: Doc, pairs: seq<(nat, nat)>, bound: nat)
    requires Valid(doc)
  {
    forall q: nat | q < bound :: Settled(doc, pairs, q)
  }

  /** A live character of an opener belongs to the opener's run. */
  lemma LiveRun(doc: Doc, o: Opener, p: nat)
    requires Valid(doc) && FromRun(doc, o) && LiveIn(o, p)
    ensures MarkerAt(doc, p) && RunOf(doc, p) == RunOf(doc, o.start)
  {
    hide RunAt;
    var begin := RunBegin(doc, o.start);
    RunOfMember(doc, begin, p);
  }

  /** Eligibility is joining, seen from the stack. */
  lemma EligibleIsJoins(doc: Doc, o: Opener, p: nat, run: Run, q: nat)
    requires Valid(doc) && FromRun(doc, o) && LiveIn(o, p) && MarkerAt(doc, q) && RunOf(doc, q) == run && run.canClose
    requires o.end <= run.begin
    ensures Joins(doc, p, q) <==> Eligible(o, run)
  {
    hide RunAt, RunBegin;
    LiveRun(doc, o, p);
  }

  /** A later pair covers nothing more for an earlier character. */
  lemma LaterPairs(pairs: seq<(nat, nat)>, last: (nat, nat), x: nat, q: nat)
    ensures Covered(pairs + [last], x, q) <==> Covered(pairs, x, q) || CoveredBy(last, x, q)
  {
    assert (pairs + [last])[|pairs|] == last;
    if Covered(pairs, x, q) {
      var a :| 0 <= a < |pairs| && CoveredBy(pairs[a], x, q);
      assert (pairs + [last])[a] == pairs[a];
    }
  }

  lemma SettledStays(doc: Doc, pairs: seq<(nat, nat)>, last: (nat, nat), q: nat)
    requires Valid(doc) && Settled(doc, pairs, q) && q < last.1
    ensures Settled(doc, pairs + [last], q)
  {
    hide Joins;
    var more := pairs + [last];
    forall x: nat ensures Covered(more, x, q) <==> Covered(pairs, x, q) {
      LaterPairs(pairs, last, x, q);
    }
    if forall a | 0 <= a < |more| :: more[a].1 != q {
      forall a | 0 <= a < |pairs| ensures pairs[a].1 != q {
        assert more[a] == pairs[a];
      }
    }
  }

  lemma AllSettledStays(doc: Doc, pairs: seq<(nat, nat)>, last: (nat, nat))
    requires Valid(doc) && AllSettled(doc, pairs, last.1)
    ensures forall q: nat | q < last.1 :: Settled(doc, pairs + [last], q)
  {
    hide Settled;
    forall q: nat | q < last.1 ensures Settled(doc, pairs + [last], q) {
      SettledStays(doc, pairs, last, q);
    }
  }

  lemma CoveredLater(pairs: seq<(nat, nat)>, x: nat, q: nat, later: nat)
    requires Covered(pairs, x, q) && q <= later
    ensures Covered(pairs, x, later)
  {
    var a :| 0 <= a < |pairs| && CoveredBy(pairs[a], x, q);
    assert CoveredBy(pairs[a], x, later);
  }

  // ----- one pair --------------------------------------------------------------------------------------------------

  /** What holds when opener `k` is the nearest eligible one and its last live character is `p`. */
  ghost predicate NearestAt(doc: Doc, st: State, run: Run, k: nat, p: nat, q: nat)
    requires Valid(doc)
  {
    && Closing(doc, st, run, q) && q < run.end && run.canClose && k < |st.stack| && Open(st.stack)
    && Eligible(st.stack[k], run) && (forall i | k < i < |st.stack| :: !Eligible(st.stack[i], run))
    && p == st.stack[k].start + st.stack[k].remaining - 1
  }

  lemma MemberOfRun(doc: Doc, run: Run, q: nat)
    requires Valid(doc) && MarkerAt(doc, run.begin) && !Joined(doc, run.begin) && run == RunAt(doc, run.begin)
    requires run.begin <= q < run.end
    ensures MarkerAt(doc, q) && RunOf(doc, q) == run
  {
    RunOfMember(doc, run.begin, q);
  }

  /** A character the one at `q` may close is covered or live in an eligible opener. */
  lemma JoinableIsAccounted(doc: Doc, st: State, run: Run, q: nat, x: nat, q0: nat)
    requires Valid(doc) && Closing(doc, st, run, q0) && q0 <= q < run.end && Joins(doc, x, q)
    ensures Covered(st.pairs, x, q0)
      || exists j :: 0 <= j < |st.stack| && LiveIn(st.stack[j], x) && Eligible(st.stack[j], run)
  {
    hide RunAt, RunBegin, Nested, AllSettled, Covered, Eligible;
    MemberOfRun(doc, run, q);
    assert x < run.begin by { RunEndsAfter(doc, x); }
    assert AccountedFor(st, x, q0);
    if !Covered(st.pairs, x, q0) {
      var j :| 0 <= j < |st.stack| && LiveIn(st.stack[j], x);
      EligibleIsJoins(doc, st.stack[j], x, run, q);
    }
  }

  lemma RunEndsAfter(doc: Doc, x: nat)
    requires Valid(doc) && MarkerAt(doc, x)
    ensures x < RunOf(doc, x).end
    decreases x
  {
    if Joined(doc, x) {
      RunEndsAfter(doc, x - 1);
      var run := RunOf(doc, x - 1);
      assert !Joined(doc, run.end) by { EndIsNotJoined(doc, RunBegin(doc, x)); }
    }
  }

  lemma EndIsNotJoined(doc: Doc, begin: nat)
    requires Valid(doc) && MarkerAt(doc, begin)
    ensures !Joined(doc, RunAt(doc, begin).end)
  {
  }

  lemma PairSettles(doc: Doc, st: State, run: Run, k: nat, p: nat, q: nat)
    requires Valid(doc) && NearestAt(doc, st, run, k, p, q)
    ensures Settled(doc, st.pairs + [(p, q)], q)
  {
    hide RunAt, RunOf, Eligible, Joins, AllSettled, Accounted, Consumed, Covered, LiveIn;
    var o := st.stack[k];
    var more := st.pairs + [(p, q)];
    LastIsLive(doc, st, k, p);
    MemberOfRun(doc, run, q);
    EligibleIsJoins(doc, o, p, run, q);
    forall x: nat | p + 1 <= x < q && Joins(doc, x, q) ensures Covered(more, x, q) {
      JoinableIsAccounted(doc, st, run, q, x, q);
      LaterPairs(st.pairs, (p, q), x, q);
      if !Covered(st.pairs, x, q) {
        var j :| 0 <= j < |st.stack| && LiveIn(st.stack[j], x) && Eligible(st.stack[j], run);
        LiveBelow(doc, st.stack, k, j, p, q, x);
      }
    }
    PairsEndBefore(doc, st, q);
    assert more[|st.pairs|] == (p, q);
    assert forall a | 0 <= a < |st.pairs| :: more[a] == st.pairs[a];
  }

  lemma LastIsLive(doc: Doc, st: State, k: nat, p: nat)
    requires k < |st.stack| && Open(st.stack) && p == st.stack[k].start + st.stack[k].remaining - 1
    ensures LiveIn(st.stack[k], p)
  {
  }

  lemma LiveBelow(doc: Doc, stack: seq<Opener>, k: nat, j: nat, p: nat, q: nat, x: nat)
    requires Valid(doc) && Ordered(doc, stack, q) && Open(stack) && j <= k < |stack| && LiveIn(stack[j], x)
    requires p == stack[k].start + stack[k].remaining - 1
    ensures x <= p
  {
  }

  lemma PairsEndBefore(doc: Doc, st: State, q: nat)
    requires Valid(doc) && Nested(doc, st, q)
    ensures forall a | 0 <= a < |st.pairs| :: st.pairs[a].1 < q
  {
  }

  lemma PairKeepsStack(doc: Doc, st: State, run: Run, k: nat, p: nat, q: nat)
    requires Valid(doc) && NearestAt(doc, st, run, k, p, q)
    ensures var r := MatchOne(st, k, q).stack;
      FromRuns(doc, r) && EndsBy(r, run.begin) && Open(r)
  {
    hide RunAt, RunOf, Eligible, Nested, AllSettled, Accounted, Consumed;
    var r := MatchOne(st, k, q).stack;
    forall i | 0 <= i < |r| ensures FromRun(doc, r[i]) && r[i].end <= run.begin {
      assert FromRun(doc, st.stack[i]);
    }
  }

  /** What was live is live, taken, or enclosed by the new pair. */
  lemma PairAccounts(doc: Doc, st: State, run: Run, k: nat, p: nat, q: nat, x: nat)
    requires Valid(doc) && NearestAt(doc, st, run, k, p, q) && x < run.begin && AccountedFor(st, x, q)
    ensures AccountedFor(MatchOne(st, k, q), x, q + 1)
  {
    hide Eligible, FromRuns, AllSettled, Accounted, Consumed, Bracketing, Clear;
    var st' := MatchOne(st, k, q);
    LaterPairs(st.pairs, (p, q), x, q + 1);
    if Covered(st.pairs, x, q) {
      CoveredLater(st.pairs, x, q, q + 1);
    } else {
      var j :| 0 <= j < |st.stack| && LiveIn(st.stack[j], x);
      if j < k {
        assert st'.stack[j] == st.stack[j];
      } else if j == k && x < p {
        assert LiveIn(st'.stack[k], x);
      } else {
        LiveAbove(doc, st.stack, k, j, p, q, x);
        assert CoveredBy((p, q), x, q + 1);
      }
    }
  }

  lemma LiveAbove(doc: Doc, stack: seq<Opener>, k: nat, j: nat, p: nat, q: nat, x: nat)
    requires Valid(doc) && Ordered(doc, stack, q) && Open(stack) && k <= j < |stack| && LiveIn(stack[j], x)
    requires p == stack[k].start + stack[k].remaining - 1 && (j > k || x >= p)
    ensures p <= x < q
  {
  }

  /** One pair keeps everything before the next character decided. */
  lemma PairKeepsClosing(doc: Doc, st: State, run: Run, k: nat, p: nat, q: nat)
    requires Valid(doc) && NearestAt(doc, st, run, k, p, q)
    ensures Closing(doc, MatchOne(st, k, q), run, q + 1)
  {
    hide RunAt, Eligible, Nested, Settled, Covered, Joins, FromRun, LiveIn;
    MemberOfRun(doc, run, q);
    var st' := MatchOne(st, k, q);
    PairKeepsStack(doc, st, run, k, p, q);
    PairNests(doc, st, run, k, p, q);
    PairSettles(doc, st, run, k, p, q);
    AllSettledStays(doc, st.pairs, (p, q));
    assert st'.pairs == st.pairs + [(p, q)];
    forall x: nat | x < run.begin && MarkerAt(doc, x) && RunOf(doc, x).canOpen ensures AccountedFor(st', x, q + 1) {
      PairAccounts(doc, st, run, k, p, q, x);
    }
    var next := q + 1;
    forall x: nat | run.begin <= x < next ensures Covered(st'.pairs, x, next) {
      LaterPairs(st.pairs, (p, q), x, q + 1);
      if x < q {
        CoveredLater(st.pairs, x, q, q + 1);
      } else {
        assert CoveredBy((p, q), x, q + 1);
      }
    }
  }

  lemma PairNests(doc: Doc, st: State, run: Run, k: nat, p: nat, q: nat)
    requires Valid(doc) && NearestAt(doc, st, run, k, p, q)
    ensures Nested(doc, MatchOne(st, k, q), q + 1)
  {
    hide RunAt, Nested, FromRuns, AllSettled, Accounted, Consumed;
    MemberOfRun(doc, run, q);
    assert IsRun(doc, run);
    MatchOneNests(doc, st, k, q);
  }

  // ----- one run ---------------------------------------------------------------------------------------------------

  lemma NearestIsNearestAt(doc: Doc, st: State, run: Run, q: nat)
    requires Valid(doc) && Closing(doc, st, run, q) && q < run.end && run.canClose && Nearest(st.stack, run) >= 0
    ensures var k := Nearest(st.stack, run);
      NearestAt(doc, st, run, k, st.stack[k].start + st.stack[k].remaining - 1, q)
  {
    hide RunAt, Eligible, FromRuns, AllSettled, Accounted, Consumed;
    NestedIsOpen(doc, st, q);
  }

  /** After one of an opener's characters has been used it is still the nearest, while it has another. */
  lemma StillNearest(doc: Doc, st: State, run: Run, k: nat, p: nat, q: nat)
    requires Valid(doc) && NearestAt(doc, st, run, k, p, q) && st.stack[k].remaining >= 2 && q + 1 < run.end
    ensures NearestAt(doc, MatchOne(st, k, q), run, k, p - 1, q + 1)
  {
    hide Closing, RunAt;
    ClosingBounds(doc, st, run, q);
    PairKeepsClosing(doc, st, run, k, p, q);
  }

  lemma ClosingBounds(doc: Doc, st: State, run: Run, q: nat)
    requires Valid(doc) && Closing(doc, st, run, q)
    ensures run.begin <= q <= run.end
  {
  }

  lemma SomeKeepsClosing(doc: Doc, st: State, run: Run, remaining: nat)
    requires Valid(doc) && 0 < remaining <= run.end - run.begin && Closing(doc, st, run, run.end - remaining) && run.canClose
    requires Open(st.stack) && Nearest(st.stack, run) >= 0
    ensures var k := Nearest(st.stack, run);
      var count := Count(st.stack[k], remaining);
      && 1 <= count <= 2 && count <= remaining && count <= st.stack[k].remaining
      && Closing(doc, MatchSome(st, k, run.end - remaining, count), run, run.end - remaining + count)
  {
    hide Closing, Nearest, Eligible;
    var q := run.end - remaining;
    var k := Nearest(st.stack, run);
    var p := st.stack[k].start + st.stack[k].remaining - 1;
    NearestIsNearestAt(doc, st, run, q);
    PairKeepsClosing(doc, st, run, k, p, q);
    if Count(st.stack[k], remaining) == 2 {
      StillNearest(doc, st, run, k, p, q);
      PairKeepsClosing(doc, MatchOne(st, k, q), run, k, p - 1, q + 1);
    }
  }

  lemma {:induction false} CloseKeepsClosing(doc: Doc, st: State, run: Run, remaining: nat)
    requires Valid(doc) && run.begin <= run.end && remaining <= run.end - run.begin && Open(st.stack) && run.canClose
    requires Closing(doc, st, run, run.end - remaining)
    ensures var (st', left) := Close(st, run, remaining); Closing(doc, st', run, run.end - left)
    decreases remaining
  {
    hide Closing, Nearest, Eligible, MatchSome;
    var k := Nearest(st.stack, run);
    if remaining > 0 && k >= 0 {
      SomeKeepsClosing(doc, st, run, remaining);
      var count := Count(st.stack[k], remaining);
      CloseKeepsClosing(doc, MatchSome(st, k, run.end - remaining, count), run, remaining - count);
    }
  }

  /** A closer keeps characters only when every one it may close is covered. */
  lemma LeftIsSettled(doc: Doc, st: State, run: Run, left: nat, q: nat)
    requires Valid(doc) && left <= run.end - run.begin && Closing(doc, st, run, run.end - left)
    requires run.end - left <= q < run.end && (run.canClose ==> Nearest(st.stack, run) < 0)
    ensures Settled(doc, st.pairs, q)
  {
    hide RunAt, RunOf, Eligible, Joins, AllSettled, Accounted, Consumed, Covered, LiveIn;
    var q0: nat := run.end - left;
    PairsEndBefore(doc, st, q0);
    forall x: nat | x < q && Joins(doc, x, q) ensures Covered(st.pairs, x, q) {
      MemberOfRun(doc, run, q);
      JoinsCloses(doc, x, q);
      JoinableIsAccounted(doc, st, run, q, x, q0);
      CoveredEither(st.pairs, x, q0, q);
    }
  }

  lemma JoinsCloses(doc: Doc, x: nat, q: nat)
    requires Valid(doc) && Joins(doc, x, q)
    ensures RunOf(doc, q).canClose
  {
    hide RunAt;
  }

  lemma CoveredEither(pairs: seq<(nat, nat)>, x: nat, q: nat, later: nat)
    requires q <= later
    ensures Covered(pairs, x, q) ==> Covered(pairs, x, later)
  {
    if Covered(pairs, x, q) {
      CoveredLater(pairs, x, q, later);
    }
  }

  lemma PushKeepsStack(doc: Doc, st: State, run: Run, left: nat)
    requires Valid(doc) && left <= run.end - run.begin && Closing(doc, st, run, run.end - left) && Open(st.stack)
    ensures FromRuns(doc, Push(st, run, left).stack) && EndsBy(Push(st, run, left).stack, run.end)
  {
    hide RunAt, Nested, AllSettled, Accounted, Consumed, FromRun;
    var r := Push(st, run, left).stack;
    if run.canOpen && left > 0 {
      MemberOfRun(doc, run, run.end - left);
      assert FromRun(doc, r[|st.stack|]) by { PushedIsFromRun(doc, run, left); }
    }
  }

  lemma PushedIsFromRun(doc: Doc, run: Run, left: nat)
    requires Valid(doc) && 0 < left <= run.end - run.begin && run.canOpen
    requires MarkerAt(doc, run.end - left) && RunOf(doc, run.end - left) == run
    ensures FromRun(doc, Opener(run.end - left, run.end, left, run.canClose, run.end - run.begin, run.marker))
  {
    hide RunAt;
  }

  lemma PushAccounts(doc: Doc, st: State, run: Run, left: nat, x: nat)
    requires Valid(doc) && left <= run.end - run.begin && Closing(doc, st, run, run.end - left) && Open(st.stack)
    requires x < run.end && MarkerAt(doc, x) && RunOf(doc, x).canOpen
    ensures AccountedFor(Push(st, run, left), x, run.end)
  {
    hide RunAt, RunOf, Nested, AllSettled, FromRuns, LiveIn;
    var st' := Push(st, run, left);
    if x < run.begin {
      assert AccountedFor(st, x, run.end - left);
      if Live(st.stack, x) {
        var k :| 0 <= k < |st.stack| && LiveIn(st.stack[k], x);
        assert st'.stack[k] == st.stack[k];
      } else {
        CoveredLater(st.pairs, x, run.end - left, run.end);
      }
    } else if x < run.end - left {
      CoveredLater(st.pairs, x, run.end - left, run.end);
    } else {
      MemberOfRun(doc, run, x);
      PushedIsLive(st, run, left, x);
    }
  }

  lemma PushedIsLive(st: State, run: Run, left: nat, x: nat)
    requires run.begin <= run.end && left <= run.end - run.begin && Open(st.stack)
    requires run.canOpen && run.end - left <= x < run.end
    ensures Live(Push(st, run, left).stack, x)
  {
    assert LiveIn(Push(st, run, left).stack[|st.stack|], x);
  }

  /** What is left of a run goes on the stack, and everything before the next run is decided. */
  lemma PushDecides(doc: Doc, st: State, run: Run, left: nat)
    requires Valid(doc) && left <= run.end - run.begin && Closing(doc, st, run, run.end - left) && Open(st.stack)
    requires left > 0 && run.canClose ==> Nearest(st.stack, run) < 0
    ensures Decided(doc, Push(st, run, left), run.end)
  {
    hide RunAt, RunOf, Settled, Nested, FromRuns, Consumed, EndsBy, AccountedFor, Accounted;
    var st' := Push(st, run, left);
    assert IsRun(doc, run) by { RunIsRun(doc, run); }
    PushNests(doc, st, run, left);
    PushKeepsStack(doc, st, run, left);
    forall q: nat | q < run.end ensures Settled(doc, st'.pairs, q) {
      if q >= run.end - left {
        LeftIsSettled(doc, st, run, left, q);
      }
    }
    assert Accounted(doc, st', run.end, run.end) by { PushAccountsAll(doc, st, run, left); }
  }

  lemma RunIsRun(doc: Doc, run: Run)
    requires Valid(doc) && MarkerAt(doc, run.begin) && run == RunAt(doc, run.begin)
    ensures IsRun(doc, run)
  {
  }

  lemma PushAccountsAll(doc: Doc, st: State, run: Run, left: nat)
    requires Valid(doc) && left <= run.end - run.begin && Closing(doc, st, run, run.end - left) && Open(st.stack)
    ensures Accounted(doc, Push(st, run, left), run.end, run.end)
  {
    hide Closing, RunAt, AccountedFor;
    forall x: nat | x < run.end && MarkerAt(doc, x) && RunOf(doc, x).canOpen
      ensures AccountedFor(Push(st, run, left), x, run.end)
    {
      PushAccounts(doc, st, run, left, x);
    }
  }

  lemma DecidedIsClosing(doc: Doc, st: State, run: Run)
    requires Valid(doc) && Decided(doc, st, run.begin)
    requires MarkerAt(doc, run.begin) && !Joined(doc, run.begin) && run == RunAt(doc, run.begin)
    ensures Closing(doc, st, run, run.begin) && Open(st.stack)
  {
    hide RunAt, RunOf, Settled, FromRun, Live, Covered;
    NestedIsOpen(doc, st, run.begin);
  }

  lemma ProcessDecides(doc: Doc, st: State, run: Run)
    requires Valid(doc) && Decided(doc, st, run.begin)
    requires MarkerAt(doc, run.begin) && !Joined(doc, run.begin) && run == RunAt(doc, run.begin)
    ensures Open(st.stack) && Decided(doc, Process(st, run), run.end)
  {
    hide Decided, Closing, RunAt, Close, Push, Nearest;
    DecidedIsClosing(doc, st, run);
    if run.canClose {
      CloseKeepsClosing(doc, st, run, run.end - run.begin);
    }
    var (st1, left) := if run.canClose then Close(st, run, run.end - run.begin) else (st, run.end - run.begin);
    PushDecides(doc, st1, run, left);
  }

  lemma DecidedFurther(doc: Doc, st: State, cursor: nat)
    requires Valid(doc) && Decided(doc, st, cursor) && !MarkerAt(doc, cursor)
    ensures Decided(doc, st, cursor + 1)
  {
    hide RunAt, RunOf, FromRun, Live, Covered;
    NestedFurther(doc, st, cursor);
    PairsEndBefore(doc, st, cursor);
    forall x: nat | x < cursor + 1 && MarkerAt(doc, x) && RunOf(doc, x).canOpen ensures AccountedFor(st, x, cursor + 1) {
      assert AccountedFor(st, x, cursor);
      CoveredEither(st.pairs, x, cursor, cursor + 1);
    }
    assert Settled(doc, st.pairs, cursor);
  }

  lemma {:induction false} ResolveDecides(doc: Doc, cursor: nat, st: State)
    requires Valid(doc) && cursor <= |doc.characters| && Decided(doc, st, cursor) && !Joined(doc, cursor)
    ensures Open(st.stack) && Decided(doc, ResolveFrom(doc, cursor, st), |doc.characters|)
    decreases |doc.characters| - cursor
  {
    hide Decided, Process, RunAt;
    DecidedIsOpen(doc, st, cursor);
    if cursor < |doc.characters| {
      if !MarkerAt(doc, cursor) {
        DecidedFurther(doc, st, cursor);
        ResolveDecides(doc, cursor + 1, st);
      } else {
        var run := RunAt(doc, cursor);
        ProcessDecides(doc, st, run);
        EndIsNotJoined(doc, cursor);
        ResolveDecides(doc, run.end, Process(st, run));
      }
    }
  }

  lemma DecidedIsOpen(doc: Doc, st: State, bound: nat)
    requires Valid(doc) && Decided(doc, st, bound)
    ensures Open(st.stack)
  {
    NestedIsOpen(doc, st, bound);
  }

  // ----- the pairing -----------------------------------------------------------------------------------------------

  /** A pair of the set closed before `q` has taken `x` or encloses it. */
  ghost predicate CoveredIn(pairing: set<(nat, nat)>, x: nat, q: nat) {
    exists pair :: pair in pairing && CoveredBy(pair, x, q)
  }

  /** `p` is the nearest character before `q` that `q` may close and that no pair closed before `q` covers. */
  ghost predicate NearestUncovered(doc: Doc, pairing: set<(nat, nat)>, p: nat, q: nat)
    requires Valid(doc)
  {
    && Joins(doc, p, q) && !CoveredIn(pairing, p, q)
    && forall x: nat | p < x < q && Joins(doc, x, q) :: CoveredIn(pairing, x, q)
  }

  /** The pairing a text calls for: each closing character with the nearest uncovered one it may close. */
  ghost predicate Pairing(doc: Doc, pairing: set<(nat, nat)>)
    requires Valid(doc)
  {
    forall p: nat, q: nat :: (p, q) in pairing <==> NearestUncovered(doc, pairing, p, q)
  }

  function PairSet(pairs: seq<(nat, nat)>): set<(nat, nat)> {
    set pair | pair in pairs
  }

  lemma CoveredAlike(pairs: seq<(nat, nat)>, x: nat, q: nat)
    ensures CoveredIn(PairSet(pairs), x, q) <==> Covered(pairs, x, q)
  {
    if Covered(pairs, x, q) {
      var a :| 0 <= a < |pairs| && CoveredBy(pairs[a], x, q);
      assert pairs[a] in PairSet(pairs);
    }
    if CoveredIn(PairSet(pairs), x, q) {
      var pair :| pair in PairSet(pairs) && CoveredBy(pair, x, q);
      var a :| 0 <= a < |pairs| && pairs[a] == pair;
      assert CoveredBy(pairs[a], x, q);
    }
  }

  /** In a bracketing no pair closed earlier covers the opener of a later one. */
  lemma OpenerIsUncovered(doc: Doc, pairs: seq<(nat, nat)>, a: nat)
    requires Valid(doc) && Bracketing(doc, pairs) && a < |pairs|
    ensures !Covered(pairs, pairs[a].0, pairs[a].1)
  {
    hide MarkerAt;
  }

  lemma JoinsInOrder(doc: Doc, p: nat, q: nat)
    requires Valid(doc) && Joins(doc, p, q)
    ensures p < q < |doc.characters|
  {
    hide RunAt, RunBegin;
    RunEndsAfter(doc, p);
    BeginsBefore(doc, q);
  }

  lemma BeginsBefore(doc: Doc, q: nat)
    requires Valid(doc) && MarkerAt(doc, q)
    ensures RunOf(doc, q).begin <= q
  {
  }

  lemma PairIff(doc: Doc, pairs: seq<(nat, nat)>, p: nat, q: nat)
    requires Valid(doc) && Bracketing(doc, pairs) && AllSettled(doc, pairs, |doc.characters|)
    requires forall a | 0 <= a < |pairs| :: pairs[a].1 < |doc.characters|
    ensures (p, q) in pairs <==>
      Joins(doc, p, q) && !Covered(pairs, p, q) && forall x: nat | p < x < q && Joins(doc, x, q) :: Covered(pairs, x, q)
  {
    hide Joins, Bracketing, Covered;
    if (p, q) in pairs {
      var a :| 0 <= a < |pairs| && pairs[a] == (p, q);
      assert Settled(doc, pairs, q);
      OpenerIsUncovered(doc, pairs, a);
    }
    if Joins(doc, p, q) && !Covered(pairs, p, q)
      && forall x: nat | p < x < q && Joins(doc, x, q) :: Covered(pairs, x, q)
    {
      JoinsInOrder(doc, p, q);
      assert Settled(doc, pairs, q);
      SomethingClosesHere(doc, pairs, p, q);
      var a :| 0 <= a < |pairs| && pairs[a].1 == q;
      OpenerIsUncovered(doc, pairs, a);
      JoinsInOrder(doc, pairs[a].0, q);
      assert pairs[a] == (p, q);
    }
  }

  lemma SomethingClosesHere(doc: Doc, pairs: seq<(nat, nat)>, p: nat, q: nat)
    requires Valid(doc) && Settled(doc, pairs, q) && p < q && Joins(doc, p, q) && !Covered(pairs, p, q)
    ensures exists a :: 0 <= a < |pairs| && pairs[a].1 == q
  {
    hide Joins, Covered;
  }

  /** For every text the plain algorithm finds the pairing. */
  lemma ResolveIsPairing(doc: Doc)
    requires Valid(doc)
    ensures Pairing(doc, PairSet(Resolve(doc).pairs))
  {
    hide Joins, Covered, CoveredIn, ResolveFrom;
    assert Decided(doc, State([], []), 0) by { NothingDecided(doc); }
    ResolveDecides(doc, 0, State([], []));
    var st := Resolve(doc);
    PairsEndBefore(doc, st, |doc.characters|);
    assert Bracketing(doc, st.pairs);
    forall p: nat, q: nat
      ensures (p, q) in PairSet(st.pairs) <==> NearestUncovered(doc, PairSet(st.pairs), p, q)
    {
      PairIff(doc, st.pairs, p, q);
      forall x: nat ensures CoveredIn(PairSet(st.pairs), x, q) <==> Covered(st.pairs, x, q) {
        CoveredAlike(st.pairs, x, q);
      }
    }
  }

  lemma NothingDecided(doc: Doc)
    requires Valid(doc)
    ensures Decided(doc, State([], []), 0) && !Joined(doc, 0)
  {
  }

  lemma {:induction false} SamePairsAt(doc: Doc, pairing: set<(nat, nat)>, other: set<(nat, nat)>, p: nat, q: nat)
    requires Valid(doc) && Pairing(doc, pairing) && Pairing(doc, other)
    ensures (p, q) in pairing <==> (p, q) in other
    decreases q
  {
    hide Joins, Pairing;
    forall x: nat ensures CoveredIn(pairing, x, q) <==> CoveredIn(other, x, q) {
      if CoveredIn(pairing, x, q) {
        var pair :| pair in pairing && CoveredBy(pair, x, q);
        SamePairsAt(doc, pairing, other, pair.0, pair.1);
        assert (pair.0, pair.1) == pair;
      }
      if CoveredIn(other, x, q) {
        var pair :| pair in other && CoveredBy(pair, x, q);
        SamePairsAt(doc, pairing, other, pair.0, pair.1);
        assert (pair.0, pair.1) == pair;
      }
    }
    PairingAt(doc, pairing, p, q);
    PairingAt(doc, other, p, q);
  }

  lemma PairingAt(doc: Doc, pairing: set<(nat, nat)>, p: nat, q: nat)
    requires Valid(doc) && Pairing(doc, pairing)
    ensures (p, q) in pairing <==> NearestUncovered(doc, pairing, p, q)
  {
    hide NearestUncovered;
  }

  /** A text calls for one pairing only. */
  lemma PairingIsUnique(doc: Doc, pairing: set<(nat, nat)>, other: set<(nat, nat)>)
    requires Valid(doc) && Pairing(doc, pairing) && Pairing(doc, other)
    ensures pairing == other
  {
    hide Pairing;
    forall pair ensures pair in pairing <==> pair in other {
      SamePairsAt(doc, pairing, other, pair.0, pair.1);
      assert (pair.0, pair.1) == pair;
    }
  }

  // ----- what is removed, and what is left -------------------------------------------------------------------------

  /** The characters of the pairs. */
  function Ends(pairing: set<(nat, nat)>): set<nat> {
    (set pair | pair in pairing :: pair.0) + (set pair | pair in pairing :: pair.1)
  }

  lemma RemovedAreEnds(pairs: seq<(nat, nat)>)
    ensures Removed(pairs) == Ends(PairSet(pairs))
  {
    var pairing := PairSet(pairs);
    forall x: nat ensures x in Removed(pairs) <==> x in Ends(pairing) {
      InRemoved(pairs, x);
      if x in Removed(pairs) {
        var a :| 0 <= a < |pairs| && (pairs[a].0 == x || pairs[a].1 == x);
        assert pairs[a] in pairing;
      }
      if x in Ends(pairing) {
        var pair :| pair in pairing && (pair.0 == x || pair.1 == x);
        var a :| 0 <= a < |pairs| && pairs[a] == pair;
      }
    }
  }

  /** How many of the first `n` positions are not removed. */
  function KeptBefore(removed: set<nat>, n: nat): nat {
    if n == 0 then 0 else KeptBefore(removed, n - 1) + if n - 1 in removed then 0 else 1
  }

  /** Position `i` of the source text, if not removed, stands in the text that is left after the kept ones before it. */
  ghost predicate StandsAt(characters: string, removed: set<nat>, i: nat) {
    i < |characters| && i !in removed ==>
      && KeptBefore(removed, i) < |Kept(characters, removed)|
      && Kept(characters, removed)[KeptBefore(removed, i)] == characters[i]
  }

  lemma {:induction false} KeptLength(characters: string, removed: set<nat>)
    ensures |Kept(characters, removed)| == KeptBefore(removed, |characters|)
  {
    if characters != "" {
      KeptLength(characters[..|characters| - 1], removed);
    }
  }

  /** The text that is left has exactly the other characters, in their order. */
  lemma {:induction false} KeptIsTheRest(characters: string, removed: set<nat>, i: nat)
    ensures |Kept(characters, removed)| == KeptBefore(removed, |characters|)
    ensures StandsAt(characters, removed, i)
  {
    hide KeptBefore;
    KeptLength(characters, removed);
    if characters != "" {
      var front := characters[..|characters| - 1];
      KeptLength(front, removed);
      if i < |front| {
        KeptIsTheRest(front, removed, i);
        assert front[i] == characters[i];
      }
    }
  }
}
