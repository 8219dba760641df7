/** What becomes of the comments the lexical pass found: their markers are blanked, adjacent line comments are joined,
    and comments and strings are masked out of the source in place. */
module CommentSpans {
  import opened Options
  import opened SourceLexer
  import opened Lexing

  // ----- blanked markers -----------------------------------------------------------------------------------------

  predicate Gap(c: char) {
    c == ' ' || c == '\t'
  }

  /** The characters comment markers are made of. */
  predicate MarkerChar(c: char) {
    c == '/' || c == '*' || c == '!' || Gap(c)
  }

  /** `blanked` is `original` with some comment markers, spaces and tabs replaced by spaces and nothing else changed. */
  ghost predicate Blanks(original: string, blanked: string) {
    && |blanked| == |original|
    && forall i | 0 <= i < |original| :: blanked[i] == original[i] || (blanked[i] == ' ' && MarkerChar(original[i]))
  }

  function Spaces(n: nat): (s: string)
    ensures |s| == n && forall i | 0 <= i < n :: s[i] == ' '
  {
    seq(n, _ => ' ')
  }

  /** A line comment without its two slashes, the documentation mark and one blank after them. */
  function BlankLine(comment: string): (r: string)
    requires StartsWith(comment, "//", 0)
    ensures Blanks(comment, r) && r[0] == ' ' && r[1] == ' '
  {
    assert comment[0] == comment[..2][0] && comment[1] == comment[..2][1];
    var n := if |comment| > 2 && (comment[2] == '/' || comment[2] == '!') then 3 else 2;
    var m := if |comment| > n && Gap(comment[n]) then n + 1 else n;
    Spaces(m) + comment[m..]
  }

  /** The characters of a line comment's mark: the slashes, a third slash or exclamation mark, and one space or tab after
      them. */
  predicate InLineMark(comment: string, i: nat)
    requires i < |comment|
  {
    || i < 2
    || (i == 2 && (comment[2] == '/' || comment[2] == '!' || comment[2] == ' ' || comment[2] == '\t'))
    || (i == 3 && (comment[2] == '/' || comment[2] == '!') && (comment[3] == ' ' || comment[3] == '\t'))
  }

  lemma BlankLineIs(comment: string, i: nat)
    requires StartsWith(comment, "//", 0) && i < |comment|
    ensures BlankLine(comment)[i] == if InLineMark(comment, i) then ' ' else comment[i]
  {
  }

  function GapEnd(s: string, pos: nat): (end: nat)
    requires pos <= |s|
    ensures pos <= end <= |s| && forall i | pos <= i < end :: Gap(s[i])
    ensures end < |s| ==> !Gap(s[end])
    decreases |s| - pos
  {
    if pos < |s| && Gap(s[pos]) then GapEnd(s, pos + 1) else pos
  }

  predicate LineStart(s: string, pos: nat) {
    pos == 0 || (pos <= |s| && s[pos - 1] == '\n')
  }

  /** How many characters a marker at `pos` takes: an opener, a closer, or a star that leads its line. */
  function MarkLength(s: string, pos: nat): (n: nat)
    requires pos < |s|
    ensures pos + n <= |s| && forall i | pos <= i < pos + n :: MarkerChar(s[i])
  {
    if StartsWith(s, "/*", pos) || StartsWith(s, "*/", pos) then
      assert s[pos] == s[pos..pos + 2][0] && s[pos + 1] == s[pos..pos + 2][1];
      2
    else
      var star := GapEnd(s, pos);
      if LineStart(s, pos) && star < |s| && s[star] == '*' then
        if star + 1 < |s| && Gap(s[star + 1]) then star + 2 - pos else star + 1 - pos
      else 0
  }

  /** A star with only spaces and tabs before it on its line is a marker, with those and one blank after it; without
      such a star, an opener or a closer, nothing is. */
  lemma MarkLengthIs(s: string, pos: nat, star: nat)
    requires pos <= star <= |s| && pos < |s| && (forall i | pos <= i < star :: s[i] == ' ' || s[i] == '\t')
    requires star < |s| ==> s[star] != ' ' && s[star] != '\t'
    ensures MarkLength(s, pos) ==
      if StartsWith(s, "/*", pos) || StartsWith(s, "*/", pos) then 2
      else if (pos == 0 || s[pos - 1] == '\n') && star < |s| && s[star] == '*' then
        star + 1 - pos + if star + 1 < |s| && (s[star + 1] == ' ' || s[star + 1] == '\t') then 1 else 0
      else 0
  {
    hide StartsWith;
    var end := GapEnd(s, pos);
    assert !(end < star) && !(end > star);
  }

  /** What one step of the replacement puts in place of the text it passes. */
  function Replacement(s: string, pos: nat): (r: string)
    requires pos < |s|
    ensures 0 < |r| <= |s| - pos
    ensures forall i | 0 <= i < |r| :: r[i] == s[pos + i] || (r[i] == ' ' && MarkerChar(s[pos + i]))
  {
    var n := MarkLength(s, pos);
    if n == 0 then [s[pos]] else Spaces(n)
  }

  /** A block comment with its markers blanked, from `pos` on. */
  function BlankMarks(s: string, pos: nat): (r: string)
    requires pos <= |s|
    ensures |r| == |s| - pos
    decreases |s| - pos
  {
    if pos == |s| then ""
    else
      var first := Replacement(s, pos);
      first + BlankMarks(s, pos + |first|)
  }

  /** Position by position, the blanked comment has its own character or a blank in place of a marker's. */
  lemma {:induction false} MarksOnlyBlank(s: string, pos: nat, i: nat)
    requires pos <= i < |s|
    ensures BlankMarks(s, pos)[i - pos] == s[i] || (BlankMarks(s, pos)[i - pos] == ' ' && MarkerChar(s[i]))
    decreases |s| - pos
  {
    hide BlankMarks, Replacement;
    BlankMarksUnfolds(s, pos);
    var first := Replacement(s, pos);
    ElementOf(first, BlankMarks(s, pos + |first|), i - pos);
    if pos + |first| <= i {
      MarksOnlyBlank(s, pos + |first|, i);
    } else {
      assert s[i] == s[pos + (i - pos)];
    }
  }

  lemma BlankMarksUnfolds(s: string, pos: nat)
    requires pos < |s|
    ensures BlankMarks(s, pos) == Replacement(s, pos) + BlankMarks(s, pos + |Replacement(s, pos)|)
  {
    hide Replacement;
  }

  lemma ElementOf(first: string, rest: string, k: nat)
    requires k < |first| + |rest|
    ensures (first + rest)[k] == if k < |first| then first[k] else rest[k - |first|]
  {
  }

  lemma MarksAreABlanking(s: string)
    ensures Blanks(s, BlankMarks(s, 0))
  {
    hide BlankMarks;
    forall i | 0 <= i < |s|
      ensures BlankMarks(s, 0)[i] == s[i] || (BlankMarks(s, 0)[i] == ' ' && MarkerChar(s[i]))
    {
      MarksOnlyBlank(s, 0, i);
    }
  }

  /** Every marker the scan comes to is blank afterwards. */
  lemma {:induction false} MarksAreBlank(s: string, pos: nat, at: nat)
    requires pos <= at < |s| && Scanned(s, pos, at)
    ensures BlankMarks(s, pos)[at - pos..at - pos + MarkLength(s, at)] == Spaces(MarkLength(s, at))
    decreases |s| - pos
  {
    hide MarkLength, Replacement;
    if pos < at {
      var first := Replacement(s, pos);
      MarksAreBlank(s, pos + |first|, at);
      SliceOfRest(first, BlankMarks(s, pos + |first|), at - pos - |first|, at - pos - |first| + MarkLength(s, at));
    } else {
      MarkHereIsBlank(s, at);
    }
  }

  lemma MarkHereIsBlank(s: string, at: nat)
    requires at < |s|
    ensures BlankMarks(s, at)[..MarkLength(s, at)] == Spaces(MarkLength(s, at))
  {
    hide MarkLength;
    if MarkLength(s, at) > 0 {
      SliceOfFirst(Replacement(s, at), BlankMarks(s, at + MarkLength(s, at)));
    }
  }

  lemma SliceOfRest(first: string, rest: string, from: nat, to: nat)
    requires from <= to <= |rest|
    ensures (first + rest)[|first| + from..|first| + to] == rest[from..to]
  {
  }

  lemma SliceOfFirst(first: string, rest: string)
    ensures (first + rest)[..|first|] == first
  {
  }

  /** The left-to-right replacement looks for a marker at `at` when it starts looking at `pos`. */
  predicate Scanned(s: string, pos: nat, at: nat)
    requires pos <= at < |s|
    decreases at - pos
  {
    if pos == at then true
    else
      var next := pos + |Replacement(s, pos)|;
      next <= at && Scanned(s, next, at)
  }

  // ----- comments as regions ---------------------------------------------------------------------------------------

  datatype Region = Region(begin: nat, content: string, kind: Kind) {
    function End(): nat {
      begin + |content|
    }
  }

  predicate CommentToken(text: string, token: Token) {
    && token.kind != String && token.begin < token.end <= |text|
    && (token.kind == LineComment ==> StartsWith(text[token.begin..token.end], "//", 0))
  }

  function RegionOf(text: string, token: Token): (r: Region)
    requires CommentToken(text, token)
    ensures r.begin == token.begin && r.End() == token.end
    ensures Blanks(text[r.begin..r.End()], r.content)
  {
    var comment := text[token.begin..token.end];
    MarksAreABlanking(comment);
    Region(token.begin, if token.kind == LineComment then BlankLine(comment) else BlankMarks(comment, 0), token.kind)
  }

  /** A line comment loses its own mark only, a block comment every marker the replacement comes to. */
  lemma RegionContentIs(text: string, token: Token, i: nat)
    requires CommentToken(text, token) && i < token.end - token.begin
    ensures var comment := text[token.begin..token.end];
      var content := RegionOf(text, token).content;
      && |content| == |comment|
      && (token.kind == LineComment ==> content[i] == if InLineMark(comment, i) then ' ' else comment[i])
      && (token.kind == BlockComment && Scanned(comment, 0, i) ==>
            content[i..i + MarkLength(comment, i)] == Spaces(MarkLength(comment, i)))
  {
    hide BlankLine, BlankMarks, MarkLength, Scanned, InLineMark;
    var comment := text[token.begin..token.end];
    if token.kind == LineComment {
      BlankLineIs(comment, i);
    } else if Scanned(comment, 0, i) {
      MarksAreBlank(comment, 0, i);
    }
  }

  function RegionsOf(text: string, tokens: seq<Token>): (rs: seq<Region>)
    requires forall t | t in tokens :: CommentToken(text, t)
    ensures |rs| == |tokens| && forall i | 0 <= i < |tokens| :: rs[i] == RegionOf(text, tokens[i])
  {
    seq(|tokens|, i requires 0 <= i < |tokens| => RegionOf(text, tokens[i]))
  }

  // ----- joining ---------------------------------------------------------------------------------------------------

  /** One line ending and then only spaces and tabs. */
  predicate LineBreak(s: string) {
    var n := if StartsWith(s, "\r\n", 0) then 2 else if |s| > 0 && LineEnding(s[0]) then 1 else 0;
    n > 0 && GapEnd(s, n) == |s|
  }

  /** One of the three line endings with only spaces and tabs after it. */
  predicate OneBreak(s: string) {
    if |s| > 1 && s[0] == '\r' && s[1] == '\n' then BlankFrom(s, 2)
    else |s| > 0 && (s[0] == '\r' || s[0] == '\n') && BlankFrom(s, 1)
  }

  predicate BlankFrom(s: string, from: nat) {
    from <= |s| && forall i | from <= i < |s| :: s[i] == ' ' || s[i] == '\t'
  }

  lemma LineBreakIs(s: string)
    ensures LineBreak(s) <==> OneBreak(s)
  {
    if |s| >= 2 {
      assert s[0..2] == "\r\n" <==> s[0] == '\r' && s[1] == '\n';
      BlankIff(s, 2);
    }
    if |s| >= 1 {
      BlankIff(s, 1);
    }
  }

  lemma BlankIff(s: string, from: nat)
    requires from <= |s|
    ensures GapEnd(s, from) == |s| <==> BlankFrom(s, from)
  {
  }

  /** Regions inside the text, in order and apart, each a blanking of the text it covers. */
  ghost predicate Regions(text: string, regions: seq<Region>) {
    && (forall i | 0 <= i < |regions| :: InText(text, regions[i]))
    && forall i, j | 0 <= i < j < |regions| :: regions[i].End() <= regions[j].begin
  }

  ghost predicate InText(text: string, r: Region) {
    0 < |r.content| && r.End() <= |text| && Blanks(text[r.begin..r.End()], r.content)
  }

  /** Two line comments with nothing but a line break between them. */
  predicate Adjacent(text: string, a: Region, b: Region) {
    a.kind == LineComment && b.kind == LineComment && a.End() <= b.begin <= |text|
    && LineBreak(text[a.End()..b.begin])
  }

  function Extend(text: string, open: Region, last: Region): Region
    requires open.End() <= last.begin <= |text|
  {
    open.(content := open.content + text[open.End()..last.begin] + last.content)
  }

  /** The regions with each run of adjacent line comments joined into one. */
  ghost function Join(text: string, regions: seq<Region>): (joined: seq<Region>)
    requires Regions(text, regions)
    ensures regions != [] ==> joined != [] && joined[|joined| - 1].End() == regions[|regions| - 1].End()
    ensures regions != [] ==> joined[|joined| - 1].kind == regions[|regions| - 1].kind
  {
    if regions == [] then []
    else
      var n := |regions| - 1;
      var done := Join(text, regions[..n]);
      if n > 0 && Adjacent(text, regions[n - 1], regions[n])
      then done[..|done| - 1] + [Extend(text, done[|done| - 1], regions[n])]
      else done + [regions[n]]
  }

  function Concat(pieces: seq<string>): string {
    if pieces == [] then "" else Concat(pieces[..|pieces| - 1]) + pieces[|pieces| - 1]
  }

  lemma ConcatMore(pieces: seq<string>, a: string, b: string)
    ensures Concat(pieces + [a, b]) == Concat(pieces) + a + b
  {
    assert (pieces + [a, b])[..|pieces| + 1] == pieces + [a];
    assert (pieces + [a])[..|pieces|] == pieces;
  }

  lemma FirstRegions(text: string, regions: seq<Region>, n: nat)
    requires Regions(text, regions) && n <= |regions|
    ensures Regions(text, regions[..n])
  {
    hide InText;
  }

  lemma RegionBounds(text: string, regions: seq<Region>, i: nat)
    requires Regions(text, regions) && i < |regions|
    ensures regions[i].begin < regions[i].End() <= |text|
    ensures i > 0 ==> regions[i - 1].End() <= regions[i].begin
  {
    assert InText(text, regions[i]);
  }

  lemma JoinStep(text: string, regions: seq<Region>, i: nat)
    requires Regions(text, regions) && i < |regions| && Regions(text, regions[..i]) && Regions(text, regions[..i + 1])
    ensures var done := Join(text, regions[..i]);
      Join(text, regions[..i + 1]) ==
        if i > 0 && Adjacent(text, regions[i - 1], regions[i])
        then done[..|done| - 1] + [Extend(text, done[|done| - 1], regions[i])]
        else done + [regions[i]]
  {
    hide Adjacent, InText, Extend, Regions;
    assert regions[..i + 1][..i] == regions[..i];
  }

  /** The joining loop: `pieces` collects the region that may still grow. */
  method JoinLines(text: string, regions: seq<Region>) returns (joined: seq<Region>)
    requires Regions(text, regions)
    ensures joined == Join(text, regions)
  {
    hide LineBreak, InText, Concat, Join;
    joined := [];
    var pieces: seq<string> := [];
    var start, priorEnd := 0, 0;
    var kind := LineComment;
    var i := 0;
    FirstRegions(text, regions, 0);
    while i < |regions|
      invariant 0 <= i <= |regions| && Regions(text, regions[..i])
      invariant pieces == [] <==> i == 0
      invariant i == 0 ==> joined == []
      invariant i > 0 ==> kind == regions[i - 1].kind && priorEnd == regions[i - 1].End()
      invariant i > 0 ==> joined + [Region(start, Concat(pieces), kind)] == Join(text, regions[..i])
    {
      var r := regions[i];
      FirstRegions(text, regions, i + 1);
      JoinStep(text, regions, i);
      assert i > 0 ==> Join(text, regions[..i]) == joined + [Region(start, Concat(pieces), kind)];
      RegionBounds(text, regions, i);
      var gap := if pieces != [] && kind == LineComment && r.kind == LineComment then text[priorEnd..r.begin] else "";
      if pieces != [] && kind == LineComment && r.kind == LineComment && LineBreak(gap) {
        ConcatMore(pieces, gap, r.content);
        pieces := pieces + [gap, r.content];
      } else {
        if pieces != [] {
          joined := joined + [Region(start, Concat(pieces), kind)];
        } else {
          JoinNothing(text);
        }
        start, pieces, kind := r.begin, [r.content], r.kind;
        ConcatOne(r.content);
      }
      priorEnd := r.begin + |r.content|;
      i := i + 1;
    }
    assert regions[..|regions|] == regions;
    if pieces != [] {
      joined := joined + [Region(start, Concat(pieces), kind)];
    } else {
      JoinNothing(text);
    }
  }

  lemma JoinNothing(text: string)
    ensures Join(text, []) == []
  {
  }

  lemma ConcatOne(piece: string)
    ensures Concat([piece]) == piece
  {
    assert [piece][..0] == [];
  }

  // ----- what joining keeps ------------------------------------------------------------------------------------------

  ghost predicate Within(regions: seq<Region>, p: nat) {
    exists r | r in regions :: r.begin <= p < r.End()
  }

  predicate Layout(c: char) {
    Gap(c) || LineEnding(c)
  }

  ghost predicate LayoutAt(text: string, p: nat) {
    p < |text| && Layout(text[p])
  }

  /** A gap between adjacent line comments is blank. */
  lemma GapIsLayout(text: string, a: Region, b: Region)
    requires Adjacent(text, a, b)
    ensures forall p | a.End() <= p < b.begin :: LayoutAt(text, p)
  {
    var gap := text[a.End()..b.begin];
    var n := if StartsWith(gap, "\r\n", 0) then 2 else 1;
    assert n == 2 ==> gap[0] == gap[..2][0] && gap[1] == gap[..2][1];
    forall p | a.End() <= p < b.begin ensures LayoutAt(text, p) {
      assert text[p] == gap[p - a.End()];
    }
  }

  /** A region of the text that grows over a gap and the next region is still one. */
  lemma ExtendIsRegion(text: string, open: Region, last: Region)
    requires InText(text, open) && InText(text, last) && open.End() <= last.begin
    ensures InText(text, Extend(text, open, last))
    ensures Extend(text, open, last).End() == last.End()
  {
    var r := Extend(text, open, last);
    var cover := text[r.begin..r.End()];
    assert cover == text[open.begin..open.End()] + text[open.End()..last.begin] + text[last.begin..last.End()];
  }

  /** One step of the join, from what is joined so far. */
  ghost predicate JoinsTo(text: string, done: seq<Region>, prior: Option<Region>, last: Region, joined: seq<Region>) {
    if prior.Some? && Adjacent(text, prior.value, last)
    then done != [] && done[|done| - 1].End() == prior.value.End()
         && joined == done[..|done| - 1] + [Extend(text, done[|done| - 1], last)]
    else joined == done + [last]
  }

  function Prior(regions: seq<Region>): Option<Region> {
    if |regions| < 2 then None else Some(regions[|regions| - 2])
  }

  lemma FrontAndLast(text: string, regions: seq<Region>)
    requires Regions(text, regions) && regions != []
    ensures var n := |regions| - 1;
      Regions(text, regions[..n]) && regions == regions[..n] + [regions[n]] && InText(text, regions[n])
  {
    FirstRegions(text, regions, |regions| - 1);
  }

  lemma JoinUnfolds(text: string, regions: seq<Region>)
    requires Regions(text, regions) && regions != [] && Regions(text, regions[..|regions| - 1])
    ensures var n := |regions| - 1;
      && JoinsTo(text, Join(text, regions[..n]), Prior(regions), regions[n], Join(text, regions))
      && LastEnd(Join(text, regions[..n])) <= regions[n].begin
  {
    hide Adjacent, InText, Extend, Regions;
    var n := |regions| - 1;
    RegionBounds(text, regions, n);
    assert regions[..n + 1] == regions;
    JoinStep(text, regions, n);
    if n == 0 {
      JoinNothing(text);
    }
  }

  function LastEnd(regions: seq<Region>): nat {
    if regions == [] then 0 else regions[|regions| - 1].End()
  }

  /** Joining gives regions of the text again, in order and apart. */
  lemma {:induction false} JoinIsRegions(text: string, regions: seq<Region>)
    requires Regions(text, regions)
    ensures Regions(text, Join(text, regions))
  {
    hide InText, Join, JoinsTo, LastEnd;
    if regions == [] {
      JoinNothing(text);
    } else {
      var n := |regions| - 1;
      FrontAndLast(text, regions);
      JoinUnfolds(text, regions);
      JoinIsRegions(text, regions[..n]);
      StepIsRegions(text, Join(text, regions[..n]), Prior(regions), regions[n], Join(text, regions));
    }
  }

  lemma StepIsRegions(text: string, done: seq<Region>, prior: Option<Region>, last: Region, joined: seq<Region>)
    requires Regions(text, done) && InText(text, last) && JoinsTo(text, done, prior, last, joined)
    requires LastEnd(done) <= last.begin
    ensures Regions(text, joined)
  {
    hide InText, Adjacent, Extend;
    forall i | 0 <= i < |done| ensures done[i].End() <= last.begin {
      RegionBounds(text, done, |done| - 1);
      assert i < |done| - 1 ==> done[i].End() <= done[|done| - 1].begin;
    }
    if prior.Some? && Adjacent(text, prior.value, last) {
      ExtendIsRegion(text, done[|done| - 1], last);
      RegionBounds(text, [last], 0);
      ExtendBegins(text, done[|done| - 1], last);
    }
  }

  lemma ExtendBegins(text: string, open: Region, last: Region)
    requires open.End() <= last.begin <= |text|
    ensures Extend(text, open, last).begin == open.begin
  {
  }

  ghost predicate BeginsAt(regions: seq<Region>, begin: nat) {
    exists c | c in regions :: c.begin == begin
  }

  lemma BeginsAtMore(regions: seq<Region>, last: Region, begin: nat)
    ensures BeginsAt(regions + [last], begin) <==> BeginsAt(regions, begin) || last.begin == begin
  {
    assert last in regions + [last];
  }

  /** Each joined region begins where a comment begins. */
  lemma {:induction false} JoinBeginsAtComments(text: string, regions: seq<Region>, begin: nat)
    requires Regions(text, regions) && BeginsAt(Join(text, regions), begin)
    ensures BeginsAt(regions, begin)
  {
    hide InText, Join, LastEnd, JoinsTo, BeginsAt;
    if regions == [] {
      JoinNothing(text);
    } else {
      var n := |regions| - 1;
      FrontAndLast(text, regions);
      JoinUnfolds(text, regions);
      BeginsAtMore(regions[..n], regions[n], begin);
      StepBegins(text, Join(text, regions[..n]), Prior(regions), regions[n], Join(text, regions), begin);
      if BeginsAt(Join(text, regions[..n]), begin) {
        JoinBeginsAtComments(text, regions[..n], begin);
      }
    }
  }

  lemma StepBegins(text: string, done: seq<Region>, prior: Option<Region>, last: Region, joined: seq<Region>,
                   begin: nat)
    requires JoinsTo(text, done, prior, last, joined) && LastEnd(done) <= last.begin <= |text|
    ensures BeginsAt(joined, begin) ==> BeginsAt(done, begin) || last.begin == begin
  {
    hide Adjacent, Extend, BeginsAt;
    if prior.Some? && Adjacent(text, prior.value, last) {
      var k := |done| - 1;
      ExtendBegins(text, done[k], last);
      assert done == done[..k] + [done[k]];
      BeginsAtMore(done[..k], done[k], begin);
      BeginsAtMore(done[..k], Extend(text, done[k], last), begin);
    } else {
      BeginsAtMore(done, last, begin);
    }
  }

  /** Joining covers every comment and, besides comments, only blanks and line endings between them. */
  lemma {:induction false} JoinCovers(text: string, regions: seq<Region>, p: nat)
    requires Regions(text, regions)
    ensures Within(regions, p) ==> Within(Join(text, regions), p)
    ensures Within(Join(text, regions), p) ==> Within(regions, p) || LayoutAt(text, p)
  {
    hide InText, Join, LayoutAt, JoinsTo, Within, LastEnd;
    if regions == [] {
      JoinNothing(text);
    } else {
      var n := |regions| - 1;
      FrontAndLast(text, regions);
      JoinUnfolds(text, regions);
      JoinCovers(text, regions[..n], p);
      WithinMore(regions[..n], regions[n], p);
      StepCovers(text, Join(text, regions[..n]), Prior(regions), regions[n], Join(text, regions), p);
    }
  }

  lemma StepCovers(text: string, done: seq<Region>, prior: Option<Region>, last: Region, joined: seq<Region>, p: nat)
    requires InText(text, last) && JoinsTo(text, done, prior, last, joined)
    ensures Within(done, p) || last.begin <= p < last.End() ==> Within(joined, p)
    ensures Within(joined, p) ==> Within(done, p) || last.begin <= p < last.End() || LayoutAt(text, p)
  {
    hide Adjacent, LayoutAt, Extend, Within;
    if prior.Some? && Adjacent(text, prior.value, last) {
      assert last.End() <= |text|;
      ExtendCovers(text, done, prior.value, last, p);
    } else {
      WithinMore(done, last, p);
    }
  }

  lemma WithinMore(regions: seq<Region>, last: Region, p: nat)
    ensures Within(regions + [last], p) <==> Within(regions, p) || last.begin <= p < last.End()
  {
    assert last in regions + [last];
  }

  lemma ExtendCovers(text: string, done: seq<Region>, prior: Region, last: Region, p: nat)
    requires done != [] && done[|done| - 1].End() == prior.End() && Adjacent(text, prior, last)
    requires last.End() <= |text|
    ensures var joined := done[..|done| - 1] + [Extend(text, done[|done| - 1], last)];
      && (Within(done, p) || last.begin <= p < last.End() ==> Within(joined, p))
      && (Within(joined, p) ==> Within(done, p) || last.begin <= p < last.End() || LayoutAt(text, p))
  {
    hide LayoutAt, LineBreak;
    var k := |done| - 1;
    GapIsLayout(text, prior, last);
    assert done == done[..k] + [done[k]];
    WithinMore(done[..k], done[k], p);
    WithinMore(done[..k], Extend(text, done[k], last), p);
  }

  /** Two line comments with one line break between them. */
  predicate Joinable(text: string, a: Region, b: Region) {
    a.kind == LineComment && b.kind == LineComment && a.End() <= b.begin <= |text| && OneBreak(text[a.End()..b.begin])
  }

  lemma AdjacentIs(text: string, a: Region, b: Region)
    ensures Adjacent(text, a, b) <==> Joinable(text, a, b)
  {
    hide LineBreak, OneBreak;
    if a.End() <= b.begin <= |text| {
      LineBreakIs(text[a.End()..b.begin]);
    }
  }

  /** No two neighbours could still be joined. */
  ghost predicate Maximal(text: string, joined: seq<Region>) {
    forall i | 0 < i < |joined| :: !Joinable(text, joined[i - 1], joined[i])
  }

  lemma AdjacencyIsOfEnds(text: string, a: Region, a': Region, b: Region, b': Region)
    requires a.kind == a'.kind && a.End() == a'.End() && b.kind == b'.kind && b.begin == b'.begin
    ensures Adjacent(text, a, b) <==> Adjacent(text, a', b')
  {
  }

  /** Joining leaves no two line comments with only a line break between them. */
  lemma {:induction false} JoinIsMaximal(text: string, regions: seq<Region>)
    requires Regions(text, regions)
    ensures Maximal(text, Join(text, regions))
  {
    hide InText, Join, JoinsTo, LastEnd, Maximal;
    if regions == [] {
      JoinNothing(text);
      assert Maximal(text, []) by { NothingToJoin(text); }
    } else {
      var n := |regions| - 1;
      FrontAndLast(text, regions);
      JoinUnfolds(text, regions);
      JoinIsMaximal(text, regions[..n]);
      if n == 0 {
        JoinNothing(text);
      }
      StepIsMaximal(text, Join(text, regions[..n]), Prior(regions), regions[n], Join(text, regions));
    }
  }

  lemma NothingToJoin(text: string)
    ensures Maximal(text, [])
  {
  }

  lemma StepIsMaximal(text: string, done: seq<Region>, prior: Option<Region>, last: Region, joined: seq<Region>)
    requires Maximal(text, done) && JoinsTo(text, done, prior, last, joined) && LastEnd(done) <= last.begin <= |text|
    requires prior.None? <==> done == []
    requires prior.Some? ==> prior.value.kind == done[|done| - 1].kind && prior.value.End() == done[|done| - 1].End()
    ensures Maximal(text, joined)
  {
    hide Adjacent, Joinable;
    var k := |done| - 1;
    forall a: Region, b: Region ensures Adjacent(text, a, b) <==> Joinable(text, a, b) {
      AdjacentIs(text, a, b);
    }
    if prior.Some? && Adjacent(text, prior.value, last) {
      if k > 0 {
        AdjacencyIsOfEnds(text, done[k - 1], done[k - 1], done[k], Extend(text, done[k], last));
      }
    } else if prior.Some? {
      AdjacencyIsOfEnds(text, prior.value, done[k], last, last);
    }
  }

  // ----- comments and strings of one source ----------------------------------------------------------------------

  /** Some token covers position `p`. */
  ghost predicate InToken(tokens: seq<Token>, p: nat) {
    exists t | t in tokens :: t.begin <= p < t.end
  }

  lemma CommentsAreRegions(src: Source, tokens: seq<Token>)
    requires InOrder(src.text, tokens, 0)
    ensures var comments := OfKind(tokens, true);
      && (forall t | t in comments :: CommentToken(src.text, t))
      && Regions(src.text, RegionsOf(src.text, comments))
      && forall p: nat :: Within(RegionsOf(src.text, comments), p) <==> InToken(comments, p)
  {
    hide StartsWith, Blanks, OfKind, RegionOf, Within, InToken;
    var comments := OfKind(tokens, true);
    OfKindInOrder(src.text, tokens, true);
    forall t | t in comments ensures CommentToken(src.text, t) {
      OfKindIn(tokens, true, t);
    }
    var regions := RegionsOf(src.text, comments);
    forall i | 0 <= i < |regions| ensures InText(src.text, regions[i]) {
      assert regions[i] == RegionOf(src.text, comments[i]);
    }
    forall p: nat ensures Within(regions, p) <==> InToken(comments, p) {
      SameCover(src.text, comments, p);
    }
  }

  lemma SameCover(text: string, comments: seq<Token>, p: nat)
    requires forall t | t in comments :: CommentToken(text, t)
    ensures Within(RegionsOf(text, comments), p) <==> InToken(comments, p)
  {
    hide CommentToken, Blanks, RegionOf;
    var regions := RegionsOf(text, comments);
    if Within(regions, p) {
      var i :| 0 <= i < |regions| && regions[i].begin <= p < regions[i].End();
      assert comments[i] in comments;
    }
    if InToken(comments, p) {
      var i :| 0 <= i < |comments| && comments[i].begin <= p < comments[i].end;
      assert regions[i] in regions;
    }
  }

  /** Two different tokens never share a position. */
  lemma TokensAreApart(text: string, tokens: seq<Token>, a: Token, b: Token, p: nat)
    requires InOrder(text, tokens, 0) && a in tokens && b in tokens
    requires a.begin <= p < a.end && b.begin <= p < b.end
    ensures a == b
  {
    hide Sound;
    var i :| 0 <= i < |tokens| && tokens[i] == a;
    var j :| 0 <= j < |tokens| && tokens[j] == b;
  }

  /** No string shares a position with a joined comment: a string begins with a quote or a letter, so it neither begins
      in the gap between two comments nor runs over the comment a joined one begins with. */
  lemma StringsAreApart(src: Source, tokens: seq<Token>, joined: seq<Region>, t: Token, r: Region)
    requires InOrder(src.text, tokens, 0) && t in OfKind(tokens, false)
    requires forall c | c in OfKind(tokens, true) :: CommentToken(src.text, c)
    requires Regions(src.text, RegionsOf(src.text, OfKind(tokens, true)))
    requires joined == Join(src.text, RegionsOf(src.text, OfKind(tokens, true))) && r in joined
    ensures t.end <= r.begin || r.End() <= t.begin
  {
    hide Join, StartsWith, Blanks, RegionOf, Regions, InText;
    var comments := OfKind(tokens, true);
    var regions := RegionsOf(src.text, comments);
    OfKindIn(tokens, false, t);
    assert Sound(src.text, t);
    CommentsAreRegions(src, tokens);
    if r.begin <= t.begin < r.End() {
      JoinCovers(src.text, regions, t.begin);
      NoCommentAt(src, tokens, t, t.begin);
    } else if t.begin < r.begin < t.end {
      JoinBeginsAtComments(src.text, regions, r.begin);
      var c :| c in regions && c.begin == r.begin;
      JoinedIsNotEmpty(src.text, regions, c);
      assert Within(regions, c.begin);
      NoCommentAt(src, tokens, t, r.begin);
    }
  }

  lemma JoinedIsNotEmpty(text: string, regions: seq<Region>, r: Region)
    requires Regions(text, regions) && r in regions
    ensures r.begin < r.End()
  {
    var i :| 0 <= i < |regions| && regions[i] == r;
    RegionBounds(text, regions, i);
  }

  lemma NoCommentAt(src: Source, tokens: seq<Token>, t: Token, p: nat)
    requires InOrder(src.text, tokens, 0) && t in tokens && t.kind == String && t.begin <= p < t.end
    ensures !InToken(OfKind(tokens, true), p)
  {
    hide Sound;
    if InToken(OfKind(tokens, true), p) {
      var c :| c in OfKind(tokens, true) && c.begin <= p < c.end;
      OfKindIn(tokens, true, c);
      TokensAreApart(src.text, tokens, t, c, p);
    }
  }

  // ----- masking -----------------------------------------------------------------------------------------------------

  datatype Span = Span(begin: nat, end: nat)

  ghost predicate Covered(spans: seq<Span>, p: nat) {
    exists s | s in spans :: s.begin <= p < s.end
  }

  lemma CoveredMore(spans: seq<Span>, last: Span, p: nat)
    ensures Covered(spans + [last], p) <==> Covered(spans, p) || last.begin <= p < last.end
  {
    assert last in spans + [last];
  }

  /** The text with every covered character blank, line endings apart. */
  ghost function Masked(text: string, spans: seq<Span>): (code: string)
    ensures |code| == |text|
  {
    seq(|text|, p requires 0 <= p < |text| => if Covered(spans, p) && !LineEnding(text[p]) then ' ' else text[p])
  }

  method BlankSpan(text: string, span: Span, visible: array<char>, ghost done: seq<Span>)
    requires span.begin <= span.end <= |text|
    requires visible[..] == Masked(text, done)
    modifies visible
    ensures visible[..] == Masked(text, done + [span])
  {
    hide Covered;
    var p := span.begin;
    while p < span.end
      invariant span.begin <= p <= span.end && visible.Length == |text|
      invariant forall q | 0 <= q < |text| ::
        visible[q] == if (Covered(done, q) || span.begin <= q < p) && !LineEnding(text[q]) then ' ' else text[q]
    {
      if !LineEnding(text[p]) {
        visible[p] := ' ';
      } else {
        visible[p] := text[p];
      }
      p := p + 1;
    }
    forall q | 0 <= q < |text| ensures visible[q] == Masked(text, done + [span])[q] {
      CoveredMore(done, span, q);
    }
  }

  function RegionSpans(regions: seq<Region>): (spans: seq<Span>)
    ensures |spans| == |regions|
    ensures forall i | 0 <= i < |spans| :: spans[i] == Span(regions[i].begin, regions[i].End())
  {
    seq(|regions|, i requires 0 <= i < |regions| => Span(regions[i].begin, regions[i].End()))
  }

  function TokenSpans(tokens: seq<Token>): (spans: seq<Span>)
    ensures |spans| == |tokens|
    ensures forall i | 0 <= i < |spans| :: spans[i] == Span(tokens[i].begin, tokens[i].end)
  {
    seq(|tokens|, i requires 0 <= i < |tokens| => Span(tokens[i].begin, tokens[i].end))
  }

  /** The masking step, in place on a character list: comments first, then strings. */
  method Mask(text: string, regions: seq<Region>, strings: seq<Token>, visible: array<char>)
    requires forall r | r in regions :: r.End() <= |text|
    requires forall t | t in strings :: t.begin <= t.end <= |text|
    requires visible[..] == text
    modifies visible
    ensures visible[..] == Masked(text, RegionSpans(regions) + TokenSpans(strings))
  {
    hide Masked, Covered;
    ghost var spans: seq<Span> := RegionSpans(regions) + TokenSpans(strings);
    NothingMasked(text);
    for i := 0 to |regions|
      invariant visible[..] == Masked(text, spans[..i])
    {
      assert spans[..i + 1] == spans[..i] + [Span(regions[i].begin, regions[i].End())];
      assert regions[i] in regions;
      BlankSpan(text, Span(regions[i].begin, regions[i].End()), visible, spans[..i]);
    }
    for i := 0 to |strings|
      invariant visible[..] == Masked(text, spans[..|regions| + i])
    {
      assert spans[..|regions| + i + 1] == spans[..|regions| + i] + [Span(strings[i].begin, strings[i].end)];
      assert strings[i] in strings;
      BlankSpan(text, Span(strings[i].begin, strings[i].end), visible, spans[..|regions| + i]);
    }
    assert spans[..|regions| + |strings|] == spans;
  }

  lemma NothingMasked(text: string)
    ensures Masked(text, []) == text
  {
  }

  lemma ReadingIsTokens(src: Source)
    requires Valid(src)
    ensures Tokens(src, 0).Lexed? <==> exists tokens :: Lexes(src, 0, tokens)
    ensures forall tokens | Lexes(src, 0, tokens) :: Tokens(src, 0) == Lexed(tokens)
  {
    hide Lexes, Tokens;
    forall tokens ensures Tokens(src, 0) == Lexed(tokens) <==> Lexes(src, 0, tokens) {
      TokensIffLexes(src, 0, tokens);
    }
    if Tokens(src, 0).Lexed? {
      assert Lexes(src, 0, Tokens(src, 0).tokens);
    }
  }

  /** The comments of a source, joined, and its strings, of the one reading the text has. */
  method CommentsInSource(src: Source) returns (failed: Option<nat>, joined: seq<Region>, strings: seq<Token>)
    requires Valid(src)
    ensures Tokens(src, 0).Failed? ==> failed == Some(Tokens(src, 0).begin)
    ensures Tokens(src, 0).Lexed? ==>
      && failed == None && strings == OfKind(Tokens(src, 0).tokens, false)
      && CommentsJoined(src, Tokens(src, 0).tokens, joined)
    ensures failed == None <==> exists tokens :: Lexes(src, 0, tokens)
    ensures forall tokens | Lexes(src, 0, tokens) ::
      strings == OfKind(tokens, false) && CommentsJoined(src, tokens, joined)
  {
    hide Tokens, Join, OfKind, CommentToken, Regions, InText, InOrder, Lexes;
    ReadingIsTokens(src);
    var comments: seq<Token>;
    failed, comments, strings := Scan(src);
    joined := [];
    TokensAreInOrder(src, 0);
    if failed == None {
      CommentsAreRegions(src, Tokens(src, 0).tokens);
      joined := JoinLines(src.text, RegionsOf(src.text, comments));
    }
  }

  ghost predicate CommentsJoined(src: Source, tokens: seq<Token>, joined: seq<Region>) {
    var comments := OfKind(tokens, true);
    && (forall c | c in comments :: CommentToken(src.text, c))
    && Regions(src.text, RegionsOf(src.text, comments))
    && joined == Join(src.text, RegionsOf(src.text, comments))
  }

  /** The code of a source, at its own offsets: line endings stand, tokens are blank, and nothing else has changed but
      tabs that became spaces. */
  ghost predicate OnlyCode(src: Source, tokens: seq<Token>, code: string) {
    && |code| == |src.text|
    && forall p | 0 <= p < |code| ::
         var c := src.text[p];
         && (c == '\r' || c == '\n' ==> code[p] == c)
         && (InToken(tokens, p) && c != '\r' && c != '\n' ==> code[p] == ' ')
         && (!InToken(tokens, p) ==> code[p] == c || (c == '\t' && code[p] == ' '))
  }

  /** What masking leaves, exactly: inside a comment or a string only line endings, elsewhere the source itself, but for
      tabs between adjacent line comments. */
  lemma MaskHidesTokens(src: Source, tokens: seq<Token>, joined: seq<Region>)
    requires InOrder(src.text, tokens, 0) && CommentsJoined(src, tokens, joined)
    ensures OnlyCode(src, tokens, Masked(src.text, RegionSpans(joined) + TokenSpans(OfKind(tokens, false))))
  {
    hide Regions, RegionOf, Join, InOrder, CommentToken, RegionSpans, TokenSpans, Covered, Within, InToken, LayoutAt;
    var comments, strings := OfKind(tokens, true), OfKind(tokens, false);
    CommentsAreRegions(src, tokens);
    var code := Masked(src.text, RegionSpans(joined) + TokenSpans(strings));
    forall p | 0 <= p < |code|
      ensures LineEnding(src.text[p]) ==> code[p] == src.text[p]
      ensures InToken(tokens, p) && !LineEnding(src.text[p]) ==> code[p] == ' '
      ensures !InToken(tokens, p) ==> code[p] == src.text[p] || (src.text[p] == '\t' && code[p] == ' ')
    {
      JoinCovers(src.text, RegionsOf(src.text, comments), p);
      KindsCoverTokens(tokens, p);
      SpansCover(joined, strings, p);
      LayoutMeans(src.text, p);
    }
  }

  lemma LayoutMeans(text: string, p: nat)
    ensures LayoutAt(text, p) ==> p < |text| && (text[p] == ' ' || text[p] == '\t' || LineEnding(text[p]))
  {
  }

  lemma SpansCover(joined: seq<Region>, strings: seq<Token>, p: nat)
    ensures Covered(RegionSpans(joined) + TokenSpans(strings), p) <==> Within(joined, p) || InToken(strings, p)
  {
    var spans := RegionSpans(joined) + TokenSpans(strings);
    if Covered(spans, p) {
      var i :| 0 <= i < |spans| && spans[i].begin <= p < spans[i].end;
      if i < |joined| {
        assert joined[i] in joined;
      } else {
        assert strings[i - |joined|] in strings;
      }
    }
    if Within(joined, p) {
      var i :| 0 <= i < |joined| && joined[i].begin <= p < joined[i].End();
      assert spans[i] in spans;
    }
    if InToken(strings, p) {
      var i :| 0 <= i < |strings| && strings[i].begin <= p < strings[i].end;
      assert spans[|joined| + i] in spans;
    }
  }

  lemma KindsCoverTokens(tokens: seq<Token>, p: nat)
    ensures InToken(tokens, p) <==> InToken(OfKind(tokens, true), p) || InToken(OfKind(tokens, false), p)
  {
    forall t ensures t in OfKind(tokens, true) <==> t in tokens && t.kind != String {
      OfKindIn(tokens, true, t);
    }
    forall t ensures t in OfKind(tokens, false) <==> t in tokens && t.kind == String {
      OfKindIn(tokens, false, t);
    }
  }

  lemma JoinedInText(src: Source, tokens: seq<Token>, joined: seq<Region>)
    requires InOrder(src.text, tokens, 0) && CommentsJoined(src, tokens, joined)
    ensures forall r | r in joined :: r.End() <= |src.text|
    ensures forall t | t in OfKind(tokens, false) :: t.begin <= t.end <= |src.text|
  {
    hide Join, Blanks, CommentToken, StartsWith;
    JoinIsRegions(src.text, RegionsOf(src.text, OfKind(tokens, true)));
    forall t | t in OfKind(tokens, false) ensures t.begin <= t.end <= |src.text| {
      OfKindIn(tokens, false, t);
    }
  }

  /** What is left of a source for the search of redirections: its code, with every other character blank. */
  method CodeOf(src: Source) returns (failed: Option<nat>, code: string)
    requires Valid(src)
    ensures Tokens(src, 0).Failed? ==> failed == Some(Tokens(src, 0).begin)
    ensures Tokens(src, 0).Lexed? ==> failed == None && OnlyCode(src, Tokens(src, 0).tokens, code)
    ensures failed == None <==> exists tokens :: Lexes(src, 0, tokens)
    ensures forall tokens | Lexes(src, 0, tokens) :: OnlyCode(src, tokens, code)
  {
    hide Tokens, OfKind, InOrder, CommentsJoined, InToken, RegionSpans, TokenSpans, Lexes, OnlyCode;
    ReadingIsTokens(src);
    var joined: seq<Region>, strings: seq<Token>;
    failed, joined, strings := CommentsInSource(src);
    code := "";
    if failed == None {
      ghost var tokens := Tokens(src, 0).tokens;
      TokensAreInOrder(src, 0);
      JoinedInText(src, tokens, joined);
      var visible := new char[|src.text|](i requires 0 <= i < |src.text| => src.text[i]);
      assert visible[..] == src.text;
      Mask(src.text, joined, strings, visible);
      code := visible[..];
      MaskHidesTokens(src, tokens, joined);
    }
  }
}
