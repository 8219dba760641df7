/** What the lexical pass has to find, stated over the text alone: where each comment and each string begins and ends,
    and what is passed over between them. A text has at most one such reading, and the pass finds it or fails. */
module Lexing {
  import opened Options
  import opened SourceLexer

  // ----- comments --------------------------------------------------------------------------------------------------

  /** From two slashes up to, not including, the first line ending, or to the end of the text. */
  predicate LineCommentAt(text: string, begin: nat, end: nat) {
    && StartsWith(text, "//", begin) && begin + 2 <= end <= |text|
    && (forall i | begin <= i < end :: text[i] != '\r' && text[i] != '\n')
    && (end < |text| ==> text[end] == '\r' || text[end] == '\n')
  }

  /** Read from `pos` at this depth, openers and closers counted, the comment is closed just before `end`. */
  predicate ClosesAt(text: string, pos: nat, depth: nat, end: nat)
    decreases |text| - pos
  {
    && pos < |text| && depth > 0
    && if StartsWith(text, "/*", pos) then ClosesAt(text, pos + 2, depth + 1, end)
       else if !StartsWith(text, "*/", pos) then ClosesAt(text, pos + 1, depth, end)
       else if depth == 1 then end == pos + 2
       else ClosesAt(text, pos + 2, depth - 1, end)
  }

  /** From an opener to just past its closer: in assembly the first one, in Rust the one left after every nested comment
      has been closed by its own. */
  predicate BlockCommentAt(text: string, assembly: bool, begin: nat, end: nat) {
    && StartsWith(text, "/*", begin) && begin + 4 <= end <= |text| && StartsWith(text, "*/", end - 2)
    && (assembly ==> forall i | begin + 2 <= i < end - 2 :: !StartsWith(text, "*/", i))
    && (!assembly ==> ClosesAt(text, begin + 2, 1, end))
  }

  // ----- strings and character literals ----------------------------------------------------------------------------

  /** A string whose characters start at `start` ends just past its first unescaped quote. */
  predicate QuotedFrom(text: string, start: nat, end: nat) {
    && start < end <= |text| && text[end - 1] == '"' && Unescaped(text, start, end - 1)
    && forall i | start <= i < end - 1 :: text[i] == '"' ==> !Unescaped(text, start, i)
  }

  /** A raw string opens at `begin`: `r`, `br` or `cr`, then `n` hashes, then a quote that ends at `start`. */
  predicate RawOpens(text: string, begin: nat, n: nat, start: nat) {
    var letters := if StartsWith(text, "r", begin) then 1 else 2;
    && (StartsWith(text, "r", begin) || StartsWith(text, "br", begin) || StartsWith(text, "cr", begin))
    && start == begin + letters + n + 1 && start <= |text| && text[start - 1] == '"'
    && forall i | begin + letters <= i < start - 1 :: text[i] == '#'
  }

  /** Its characters end just past the first quote that as many hashes follow, and those hashes. */
  predicate RawFrom(text: string, start: nat, n: nat, end: nat) {
    && start + 1 + n <= end <= |text| && QuoteAndHashes(text, end - 1 - n, n)
    && forall i | start <= i < end - 1 - n :: !QuoteAndHashes(text, i, n)
  }

  predicate QuoteAndHashes(text: string, i: nat, n: nat) {
    i + 1 + n <= |text| && text[i] == '"' && forall k | i < k < i + 1 + n :: text[k] == '#'
  }

  /** One character between apostrophes, or one escape: a braced one up to its first brace, `\x` and two more, or a
      backslash and one. */
  predicate CharLiteral(text: string, begin: nat, end: nat) {
    && begin + 3 <= end <= |text| && text[begin] == '\'' && text[end - 1] == '\''
    && if text[begin + 1] != '\\' then end == begin + 3
       else if StartsWith(text, "u{", begin + 2) then
         begin + 4 <= end - 2 && text[end - 2] == '}' && forall i | begin + 4 <= i < end - 2 :: text[i] != '}'
       else if StartsWith(text, "x", begin + 2) then end == begin + 6
       else end == begin + 4
  }

  /** A braced escape that is never closed. */
  predicate BrokenEscape(text: string, begin: nat) {
    && begin + 1 < |text| && text[begin] == '\'' && text[begin + 1] == '\\' && StartsWith(text, "u{", begin + 2)
    && forall i | begin + 4 <= i < |text| :: text[i] != '}'
  }

  // ----- one piece of the text -------------------------------------------------------------------------------------

  /** No word character stands right before. */
  predicate Boundary(src: Source, begin: nat)
    requires Valid(src)
  {
    begin == 0 || begin > |src.text| || !src.word[begin - 1]
  }

  ghost predicate RawOpensAt(src: Source, begin: nat)
    requires Valid(src)
  {
    Boundary(src, begin) && !src.assembly && exists n, start :: RawOpens(src.text, begin, n, start)
  }

  /** How many characters stand before the quote of a plain string that begins here: none, or one of `b` and `c`. */
  predicate QuoteAfter(src: Source, begin: nat, prefix: nat)
    requires Valid(src)
  {
    && begin + prefix < |src.text| && src.text[begin + prefix] == '"'
    && (prefix == 0 || (prefix == 1 && Boundary(src, begin) && src.text[begin] in "bc"))
  }

  /** A comment or a string begins here. */
  ghost predicate Opens(src: Source, begin: nat)
    requires Valid(src)
  {
    || StartsWith(src.text, "//", begin) || StartsWith(src.text, "/*", begin) || RawOpensAt(src, begin)
    || QuoteAfter(src, begin, 0) || QuoteAfter(src, begin, 1)
  }

  /** The token is the whole comment or string that begins at `begin`. */
  ghost predicate TokenAt(src: Source, begin: nat, token: Token)
    requires Valid(src)
  {
    token.begin == begin &&
    match token.kind
    case LineComment => LineCommentAt(src.text, begin, token.end)
    case BlockComment => BlockCommentAt(src.text, src.assembly, begin, token.end)
    case String => StringAt(src, begin, token.end)
  }

  ghost predicate StringAt(src: Source, begin: nat, end: nat)
    requires Valid(src)
  {
    || (Boundary(src, begin) && !src.assembly && RawStringAt(src.text, begin, end))
    || (QuoteAfter(src, begin, 0) && QuotedFrom(src.text, begin + 1, end))
    || (QuoteAfter(src, begin, 1) && QuotedFrom(src.text, begin + 2, end))
  }

  ghost predicate RawStringAt(text: string, begin: nat, end: nat) {
    exists n, start :: RawOpens(text, begin, n, start) && RawFrom(text, start, n, end)
  }

  /** What is passed over where nothing begins: a character literal as a whole, anything else character by character; a
      lifetime's apostrophe is one character. */
  ghost predicate Passes(src: Source, begin: nat, next: nat)
    requires Valid(src)
  {
    if begin < |src.text| && !src.assembly && src.text[begin] == '\'' then
      && !BrokenEscape(src.text, begin)
      && (CharLiteral(src.text, begin, next)
          || (next == begin + 1 && forall end :: !CharLiteral(src.text, begin, end)))
    else next == begin + 1
  }

  /** The reading: the tokens of the text from `cursor` on. */
  ghost predicate Lexes(src: Source, cursor: nat, tokens: seq<Token>)
    requires Valid(src)
    decreases |src.text| - cursor
  {
    if cursor >= |src.text| then tokens == []
    else if Opens(src, cursor) then
      && tokens != [] && TokenAt(src, cursor, tokens[0]) && tokens[0].end > cursor
      && Lexes(src, tokens[0].end, tokens[1..])
    else exists next :: next > cursor && Passes(src, cursor, next) && Lexes(src, next, tokens)
  }

  // ----- each piece is what the pass computes ----------------------------------------------------------------------

  lemma LineCommentIff(text: string, begin: nat, end: nat)
    requires StartsWith(text, "//", begin)
    ensures LineCommentAt(text, begin, end) <==> end == LineEnd(text, begin)
  {
    assert text[begin] == text[begin..begin + 2][0] && text[begin + 1] == text[begin..begin + 2][1];
  }

  lemma {:induction false} NestedInAssembly(text: string, pos: nat)
    ensures var end := Nested(text, true, pos);
      && (end.Some? ==> StartsWith(text, "*/", end.value - 2))
      && forall i | pos <= i < (if end.Some? then end.value - 2 else |text|) :: !StartsWith(text, "*/", i)
    decreases |text| - pos
  {
    hide StartsWith;
    if pos < |text| && !StartsWith(text, "*/", pos) {
      NestedInAssembly(text, pos + 1);
    }
  }

  lemma {:induction false} CountingCloses(text: string, pos: nat, depth: nat, end: nat)
    requires depth > 0
    ensures ClosesAt(text, pos, depth, end) <==> DepthZero(text, false, pos, depth) == Some(end)
    decreases |text| - pos
  {
    hide StartsWith;
    if pos < |text| {
      if StartsWith(text, "/*", pos) {
        CountingCloses(text, pos + 2, depth + 1, end);
      } else if !StartsWith(text, "*/", pos) {
        CountingCloses(text, pos + 1, depth, end);
      } else if depth > 1 {
        CountingCloses(text, pos + 2, depth - 1, end);
      }
    }
  }

  lemma NestedInRust(text: string, pos: nat, end: nat)
    ensures ClosesAt(text, pos, 1, end) <==> Nested(text, false, pos) == Some(end)
  {
    hide StartsWith, ClosesAt;
    CountingCloses(text, pos, 1, end);
    DepthIsNesting(text, false, pos, 1);
  }

  lemma BlockCommentIff(text: string, assembly: bool, begin: nat, end: nat)
    requires StartsWith(text, "/*", begin)
    ensures BlockCommentAt(text, assembly, begin, end) <==> Nested(text, assembly, begin + 2) == Some(end)
  {
    hide StartsWith, Nested, ClosesAt;
    NestedEndsWithCloser(text, assembly, begin + 2);
    NestedInRust(text, begin + 2, end);
    if assembly {
      NestedInAssembly(text, begin + 2);
      CloserFits(text, end);
    }
  }

  lemma CloserFits(text: string, end: nat)
    ensures end >= 2 && StartsWith(text, "*/", end - 2) ==> end <= |text|
  {
  }

  lemma QuotedIff(text: string, start: nat, end: nat)
    requires start <= |text|
    ensures QuotedFrom(text, start, end) <==> end > 0 && Quote(text, start) == Some(end - 1)
  {
    hide Quote, Unescaped;
    QuoteIsFirstUnescaped(text, start);
  }

  lemma RawOpensIff(text: string, begin: nat, n: nat, start: nat)
    ensures RawOpens(text, begin, n, start) <==> RawOpening(text, begin) == Some((n, start))
  {
    LettersApart(text, begin);
    hide StartsWith;
    var letters := if StartsWith(text, "br", begin) || StartsWith(text, "cr", begin) then 2
                   else if StartsWith(text, "r", begin) then 1 else 0;
    if RawOpens(text, begin, n, start) {
      HashesAre(text, begin + letters, n);
    }
  }

  lemma LettersApart(text: string, begin: nat)
    ensures StartsWith(text, "r", begin) ==> !StartsWith(text, "br", begin) && !StartsWith(text, "cr", begin)
  {
    if StartsWith(text, "r", begin) && begin + 2 <= |text| {
      assert text[begin..begin + 1][0] == text[begin] == text[begin..begin + 2][0];
    }
  }

  lemma HashesAre(text: string, pos: nat, n: nat)
    requires pos + n < |text| && text[pos + n] != '#' && forall i | pos <= i < pos + n :: text[i] == '#'
    ensures Hashes(text, pos) == n
  {
    var m := Hashes(text, pos);
    assert !(m < n) && !(m > n);
  }

  lemma ClosesFits(text: string, end: nat, n: nat)
    ensures end > n && ClosesRaw(text, end - 1 - n, n) ==> end <= |text|
  {
  }

  lemma RawFromIff(text: string, start: nat, n: nat, end: nat)
    ensures RawFrom(text, start, n, end) <==> end > n && RawClosing(text, start, n) == Some(end - 1 - n)
  {
    hide RawClosing;
    var quote := RawClosing(text, start, n);
    forall i: nat ensures QuoteAndHashes(text, i, n) <==> ClosesRaw(text, i, n) {
    }
    hide QuoteAndHashes, ClosesRaw;
    ClosesFits(text, end, n);
    if RawFrom(text, start, n, end) {
      assert ClosesRaw(text, end - 1 - n, n);
    }
  }

  lemma CharLiteralIff(text: string, begin: nat, end: nat)
    requires begin < |text| && text[begin] == '\''
    ensures CharLiteral(text, begin, end) <==>
      var at := ApostropheAt(text, begin);
      at.Some? && at.value < |text| && text[at.value] == '\'' && end == at.value + 1
    ensures BrokenEscape(text, begin) <==> ApostropheAt(text, begin).None?
  {
    hide StartsWith, BraceFrom;
    BraceFits(text, begin);
  }

  lemma BraceFits(text: string, begin: nat)
    ensures StartsWith(text, "u{", begin + 2) ==> begin + 4 <= |text|
  {
  }

  /** What a step of the pass means. */
  ghost predicate StepFits(src: Source, cursor: nat, step: Step)
    requires Valid(src)
  {
    match step
    case Found(token) => Opens(src, cursor) && TokenAt(src, cursor, token)
                         && forall other: Token | TokenAt(src, cursor, other) :: other == token
    case Plain(next) => !Opens(src, cursor) && Passes(src, cursor, next)
                        && forall other: nat | Passes(src, cursor, other) :: other == next
    case Unterminated(begin) =>
      && begin == cursor
      && (if Opens(src, cursor) then forall other: Token :: !TokenAt(src, cursor, other)
          else forall other: nat :: !Passes(src, cursor, other))
  }

  /** The beginnings exclude one another. */
  lemma BeginningsApart(text: string, begin: nat)
    requires begin < |text|
    ensures StartsWith(text, "//", begin) ==> !StartsWith(text, "/*", begin)
    ensures StartsWith(text, "//", begin) || StartsWith(text, "/*", begin) ==> text[begin] == '/'
    ensures StartsWith(text, "r", begin) ==> text[begin] == 'r'
    ensures StartsWith(text, "br", begin) ==> text[begin] == 'b' && text[begin + 1] == 'r'
    ensures StartsWith(text, "cr", begin) ==> text[begin] == 'c' && text[begin + 1] == 'r'
    ensures StartsWith(text, "b\"", begin) <==> begin + 1 < |text| && text[begin] == 'b' && text[begin + 1] == '"'
    ensures StartsWith(text, "c\"", begin) <==> begin + 1 < |text| && text[begin] == 'c' && text[begin + 1] == '"'
  {
    assert text[begin..begin + 1][0] == text[begin];
    if begin + 2 <= |text| {
      assert text[begin..begin + 2][0] == text[begin] && text[begin..begin + 2][1] == text[begin + 1];
      TwoAre(text, begin, 'b', '"');
      TwoAre(text, begin, 'c', '"');
    }
  }

  lemma TwoAre(text: string, begin: nat, a: char, b: char)
    requires begin + 2 <= |text|
    ensures text[begin..begin + 2] == [a, b] <==> text[begin] == a && text[begin + 1] == b
  {
    var two := text[begin..begin + 2];
    assert two[0] == text[begin] && two[1] == text[begin + 1];
  }

  lemma LineStep(src: Source, cursor: nat)
    requires Valid(src) && cursor < |src.text| && StartsWith(src.text, "//", cursor)
    ensures StepFits(src, cursor, StepAt(src, cursor))
  {
    hide StartsWith, LineCommentAt, BlockCommentAt, RawOpens, QuotedFrom, RawFrom, LineEnd;
    BeginningsApart(src.text, cursor);
    NoStringAtSlash(src, cursor);
    forall end: nat ensures LineCommentAt(src.text, cursor, end) <==> end == LineEnd(src.text, cursor) {
      LineCommentIff(src.text, cursor, end);
    }
    forall end: nat ensures !BlockCommentAt(src.text, src.assembly, cursor, end) {
      BlockBegins(src.text, src.assembly, cursor, end);
    }
  }

  lemma BlockBegins(text: string, assembly: bool, begin: nat, end: nat)
    ensures BlockCommentAt(text, assembly, begin, end) ==> StartsWith(text, "/*", begin)
    ensures LineCommentAt(text, begin, end) ==> StartsWith(text, "//", begin)
  {
    hide StartsWith;
  }

  lemma NoStringAtSlash(src: Source, cursor: nat)
    requires Valid(src) && cursor < |src.text| && src.text[cursor] == '/'
    ensures forall end: nat :: !StringAt(src, cursor, end)
  {
    hide StartsWith, QuotedFrom, RawFrom;
    BeginningsApart(src.text, cursor);
  }

  lemma BlockStep(src: Source, cursor: nat)
    requires Valid(src) && cursor < |src.text| && StartsWith(src.text, "/*", cursor)
    ensures StepFits(src, cursor, StepAt(src, cursor))
  {
    hide StartsWith, LineCommentAt, BlockCommentAt, RawOpens, QuotedFrom, RawFrom, Nested;
    BeginningsApart(src.text, cursor);
    NoStringAtSlash(src, cursor);
    forall end: nat
      ensures BlockCommentAt(src.text, src.assembly, cursor, end)
        <==> Nested(src.text, src.assembly, cursor + 2) == Some(end)
    {
      BlockCommentIff(src.text, src.assembly, cursor, end);
    }
    forall end: nat ensures !LineCommentAt(src.text, cursor, end) {
      BlockBegins(src.text, src.assembly, cursor, end);
    }
  }

  /** Where no comment begins, none does. */
  lemma NoCommentHere(src: Source, cursor: nat)
    requires Valid(src) && !StartsWith(src.text, "//", cursor) && !StartsWith(src.text, "/*", cursor)
    ensures forall end: nat ::
      !LineCommentAt(src.text, cursor, end) && !BlockCommentAt(src.text, src.assembly, cursor, end)
  {
    hide StartsWith, LineCommentAt, BlockCommentAt;
    forall end: nat
      ensures !LineCommentAt(src.text, cursor, end) && !BlockCommentAt(src.text, src.assembly, cursor, end)
    {
      BlockBegins(src.text, src.assembly, cursor, end);
    }
  }

  lemma RawStep(src: Source, cursor: nat)
    requires Valid(src) && cursor < |src.text| && AtBoundary(src, cursor) && !src.assembly
    requires RawOpening(src.text, cursor).Some?
    ensures StepFits(src, cursor, StepAt(src, cursor))
  {
    hide StartsWith, LineCommentAt, BlockCommentAt, RawOpens, QuotedFrom, RawFrom, Nested, RawOpening, RawClosing;
    var (n, start) := RawOpening(src.text, cursor).value;
    RawOpensIff(src.text, cursor, n, start);
    RawLetters(src.text, cursor, n, start);
    BeginningsApart(src.text, cursor);
    NoCommentHere(src, cursor);
    forall end: nat ensures RawStringAt(src.text, cursor, end) <==> RawFrom(src.text, start, n, end) {
      RawStringIff(src.text, cursor, n, start, end);
    }
    forall end: nat
      ensures RawFrom(src.text, start, n, end)
        <==> end > n && RawClosing(src.text, start, n) == Some(end - 1 - n)
    {
      RawFromIff(src.text, start, n, end);
    }
  }

  lemma RawLetters(text: string, begin: nat, n: nat, start: nat)
    requires begin < |text| && RawOpens(text, begin, n, start)
    ensures text[begin] == 'r' || (text[begin] in "bc" && begin + 1 < |text| && text[begin + 1] == 'r')
  {
    hide StartsWith;
    BeginningsApart(text, begin);
  }

  lemma RawStringIff(text: string, begin: nat, n: nat, start: nat, end: nat)
    requires RawOpening(text, begin) == Some((n, start))
    ensures RawStringAt(text, begin, end) <==> RawFrom(text, start, n, end)
  {
    hide RawOpens, RawFrom, RawOpening;
    RawOpensIff(text, begin, n, start);
    if RawStringAt(text, begin, end) {
      var n', start' :| RawOpens(text, begin, n', start') && RawFrom(text, start', n', end);
      RawOpensIff(text, begin, n', start');
    }
  }

  lemma NoRawHere(src: Source, cursor: nat)
    requires Valid(src) && cursor < |src.text|
    requires !(AtBoundary(src, cursor) && !src.assembly && RawOpening(src.text, cursor).Some?)
    ensures !RawOpensAt(src, cursor)
    ensures forall end: nat :: !(Boundary(src, cursor) && !src.assembly && RawStringAt(src.text, cursor, end))
  {
    hide RawOpens, RawFrom, RawOpening;
    forall n: nat, start: nat
      ensures RawOpens(src.text, cursor, n, start) ==> RawOpening(src.text, cursor) == Some((n, start))
    {
      RawOpensIff(src.text, cursor, n, start);
    }
  }

  /** How far before its quote a plain string begins at `cursor`, as the pass computes it. */
  function Prefix(src: Source, cursor: nat): nat
    requires Valid(src) && cursor < |src.text|
  {
    if AtBoundary(src, cursor) && (StartsWith(src.text, "b\"", cursor) || StartsWith(src.text, "c\"", cursor)) then 1
    else 0
  }

  lemma QuoteAfterIff(src: Source, cursor: nat, prefix: nat)
    requires Valid(src) && cursor < |src.text|
    ensures QuoteAfter(src, cursor, prefix) <==>
      var p := Prefix(src, cursor); p == prefix && cursor + p < |src.text| && src.text[cursor + p] == '"'
  {
    hide StartsWith;
    BeginningsApart(src.text, cursor);
  }

  lemma RestStep(src: Source, cursor: nat)
    requires Valid(src) && cursor < |src.text|
    requires !StartsWith(src.text, "//", cursor) && !StartsWith(src.text, "/*", cursor)
    requires !(AtBoundary(src, cursor) && !src.assembly && RawOpening(src.text, cursor).Some?)
    ensures StepFits(src, cursor, StepAt(src, cursor))
  {
    hide StartsWith, LineCommentAt, BlockCommentAt, RawOpens, QuotedFrom, RawFrom, Nested, RawOpening, RawClosing, Quote,
      QuoteAfter, RawOpensAt, CharLiteral, BrokenEscape, ApostropheAt, RawStringAt, Unescaped;
    NoCommentHere(src, cursor);
    NoRawHere(src, cursor);
    QuoteAfterIff(src, cursor, 0);
    QuoteAfterIff(src, cursor, 1);
    var p := Prefix(src, cursor);
    var start := cursor + p + 1;
    if start <= |src.text| {
      forall end: nat
        ensures QuotedFrom(src.text, start, end) <==> end > 0 && Quote(src.text, start) == Some(end - 1)
      {
        QuotedIff(src.text, start, end);
      }
    }
    if src.text[cursor] == '\'' {
      forall end: nat
        ensures CharLiteral(src.text, cursor, end) <==>
          var at := ApostropheAt(src.text, cursor);
          at.Some? && at.value < |src.text| && src.text[at.value] == '\'' && end == at.value + 1
      {
        CharLiteralIff(src.text, cursor, end);
      }
      CharLiteralIff(src.text, cursor, 0);
    }
  }

  /** Each step finds the one token that begins at the cursor, passes over the one piece that does not, or meets an
      unterminated one. */
  lemma EveryStepFits(src: Source, cursor: nat)
    requires Valid(src) && cursor < |src.text|
    ensures StepFits(src, cursor, StepAt(src, cursor))
  {
    hide StepFits, StepAt, StartsWith, RawOpening;
    if StartsWith(src.text, "//", cursor) {
      LineStep(src, cursor);
    } else if StartsWith(src.text, "/*", cursor) {
      BlockStep(src, cursor);
    } else if AtBoundary(src, cursor) && !src.assembly && RawOpening(src.text, cursor).Some? {
      RawStep(src, cursor);
    } else {
      RestStep(src, cursor);
    }
  }

  // ----- the pass finds the reading --------------------------------------------------------------------------------

  /** For every source the pass yields exactly the reading of the text, and fails exactly when there is none. */
  lemma {:induction false} TokensIffLexes(src: Source, cursor: nat, tokens: seq<Token>)
    requires Valid(src)
    ensures Tokens(src, cursor) == Lexed(tokens) <==> Lexes(src, cursor, tokens)
    decreases |src.text| - cursor
  {
    hide StepAt, Opens, TokenAt, Passes;
    if cursor < |src.text| {
      EveryStepFits(src, cursor);
      match StepAt(src, cursor)
      case Plain(next) =>
        TokensIffLexes(src, next, tokens);
      case Unterminated(_) =>
      case Found(token) =>
        if tokens != [] {
          TokensIffLexes(src, token.end, tokens[1..]);
          assert tokens == [tokens[0]] + tokens[1..];
        }
    }
  }

  /** Where no reading goes on: a comment or string begins that never ends, or an escape that is never closed. */
  ghost predicate Stuck(src: Source, begin: nat)
    requires Valid(src)
  {
    if Opens(src, begin) then forall token: Token :: !TokenAt(src, begin, token)
    else forall next: nat :: !Passes(src, begin, next)
  }

  /** A failure names the place where the reading of the text gets stuck. */
  lemma {:induction false} FailsWhereStuck(src: Source, cursor: nat)
    requires Valid(src) && Tokens(src, cursor).Failed?
    ensures cursor <= Tokens(src, cursor).begin < |src.text| && Stuck(src, Tokens(src, cursor).begin)
    decreases |src.text| - cursor
  {
    hide StepAt, Opens, TokenAt, Passes;
    EveryStepFits(src, cursor);
    match StepAt(src, cursor)
    case Plain(next) => FailsWhereStuck(src, next);
    case Unterminated(_) =>
    case Found(token) => FailsWhereStuck(src, token.end);
  }
}
