/** The lexical pass over Rust and assembly sources: where comments and strings are, and what is left when they are
    masked. */
module SourceLexer {
  import opened Options

  /** A source text, which of its characters are word characters, and whether it is assembly. */
  datatype Source = Source(text: string, word: seq<bool>, assembly: bool)

  predicate Valid(src: Source) {
    |src.word| == |src.text|
  }

  predicate StartsWith(text: string, token: string, at: nat) {
    at + |token| <= |text| && text[at..at + |token|] == token
  }

  predicate LineEnding(c: char) {
    c == '\r' || c == '\n'
  }

  /** The first line ending from `pos` on, or the end of the text. */
  function LineEnd(text: string, pos: nat): (end: nat)
    requires pos <= |text|
    ensures pos <= end <= |text| && forall i | pos <= i < end :: !LineEnding(text[i])
    ensures end < |text| ==> LineEnding(text[end])
    decreases |text| - pos
  {
    if pos < |text| && !LineEnding(text[pos]) then LineEnd(text, pos + 1) else pos
  }

  // ----- block comments ------------------------------------------------------------------------------------------

  /** Where depth counting from `pos` first reaches zero. In assembly a second opener does not nest. */
  function DepthZero(text: string, assembly: bool, pos: nat, depth: nat): (end: Option<nat>)
    ensures end.Some? && pos <= |text| ==> pos <= end.value <= |text|
    decreases |text| - pos
  {
    if depth == 0 then Some(pos)
    else if pos >= |text| then None
    else if !assembly && StartsWith(text, "/*", pos) then DepthZero(text, assembly, pos + 2, depth + 1)
    else if StartsWith(text, "*/", pos) then DepthZero(text, assembly, pos + 2, depth - 1)
    else DepthZero(text, assembly, pos + 1, depth)
  }

  /** The rest of one comment from inside it, read as nested comments: each one is closed before the outer one. */
  function Nested(text: string, assembly: bool, pos: nat): (end: Option<nat>)
    ensures end.Some? ==> pos + 2 <= end.value <= |text|
    decreases |text| - pos
  {
    if pos >= |text| then None
    else if !assembly && StartsWith(text, "/*", pos) then
      match Nested(text, assembly, pos + 2)
      case None => None
      case Some(inner) => Nested(text, assembly, inner)
    else if StartsWith(text, "*/", pos) then Some(pos + 2)
    else Nested(text, assembly, pos + 1)
  }

  lemma {:induction false} NestedEndsWithCloser(text: string, assembly: bool, pos: nat)
    ensures var end := Nested(text, assembly, pos); end.Some? ==> StartsWith(text, "*/", end.value - 2)
    decreases |text| - pos
  {
    hide StartsWith;
    if pos >= |text| {
    } else if !assembly && StartsWith(text, "/*", pos) {
      NestedEndsWithCloser(text, assembly, pos + 2);
      var inner := Nested(text, assembly, pos + 2);
      if inner.Some? {
        NestedEndsWithCloser(text, assembly, inner.value);
      }
    } else if !StartsWith(text, "*/", pos) {
      NestedEndsWithCloser(text, assembly, pos + 1);
    }
  }

  /** Counting depth closes the comments one nested comment at a time. */
  lemma {:induction false} DepthIsNesting(text: string, assembly: bool, pos: nat, depth: nat)
    requires depth > 0
    ensures DepthZero(text, assembly, pos, depth) ==
      match Nested(text, assembly, pos)
      case None => None
      case Some(end) => DepthZero(text, assembly, end, depth - 1)
    decreases |text| - pos
  {
    if pos >= |text| {
    } else if !assembly && StartsWith(text, "/*", pos) {
      DepthIsNesting(text, assembly, pos + 2, depth + 1);
      if Nested(text, assembly, pos + 2).Some? {
        DepthIsNesting(text, assembly, Nested(text, assembly, pos + 2).value, depth);
      }
    } else if StartsWith(text, "*/", pos) {
    } else {
      DepthIsNesting(text, assembly, pos + 1, depth);
    }
  }

  method ScanBlock(text: string, assembly: bool, begin: nat) returns (end: Option<nat>)
    requires begin + 2 <= |text|
    ensures end == Nested(text, assembly, begin + 2)
  {
    var depth := 1;
    var cursor := begin + 2;
    DepthIsNesting(text, assembly, cursor, 1);
    while cursor < |text| && depth > 0
      invariant 0 <= depth && begin + 2 <= cursor <= |text|
      invariant DepthZero(text, assembly, cursor, depth) == Nested(text, assembly, begin + 2)
      decreases |text| - cursor
    {
      if !assembly && StartsWith(text, "/*", cursor) {
        depth := depth + 1;
        cursor := cursor + 2;
      } else if StartsWith(text, "*/", cursor) {
        depth := depth - 1;
        cursor := cursor + 2;
      } else {
        cursor := cursor + 1;
      }
    }
    if depth > 0 {
      return None;
    }
    return Some(cursor);
  }

  // ----- strings and character literals ------------------------------------------------------------------------------

  function Hashes(text: string, pos: nat): (n: nat)
    ensures pos <= |text| ==> pos + n <= |text|
    ensures pos > |text| ==> n == 0
    ensures forall i | pos <= i < pos + n :: i < |text| && text[i] == '#'
    ensures pos + n < |text| ==> text[pos + n] != '#'
    decreases |text| - pos
  {
    if pos < |text| && text[pos] == '#' then 1 + Hashes(text, pos + 1) else 0
  }

  /** An optional byte or C prefix, `r`, any number of hashes and a quote: how many hashes, and where the quote ends. */
  function RawOpening(text: string, pos: nat): (r: Option<(nat, nat)>)
    ensures r.Some? ==> pos < r.value.1 <= |text|
  {
    var letters := if StartsWith(text, "br", pos) || StartsWith(text, "cr", pos) then 2
                   else if StartsWith(text, "r", pos) then 1 else 0;
    if letters == 0 then None
    else
      var n := Hashes(text, pos + letters);
      var quote := pos + letters + n;
      if quote < |text| && text[quote] == '"' then Some((n, quote + 1)) else None
  }

  predicate ClosesRaw(text: string, i: nat, n: nat) {
    i + 1 + n <= |text| && text[i] == '"' && forall k | i < k <= i + n :: text[k] == '#'
  }

  /** The first quote from `pos` on that `n` hashes follow. */
  function RawClosing(text: string, pos: nat, n: nat): (end: Option<nat>)
    ensures end.Some? ==> pos <= end.value && ClosesRaw(text, end.value, n)
    ensures forall i | pos <= i < (if end.Some? then end.value else |text|) :: !ClosesRaw(text, i, n)
    decreases |text| - pos
  {
    if pos + 1 + n > |text| then None
    else if ClosesRaw(text, pos, n) then Some(pos)
    else RawClosing(text, pos + 1, n)
  }

  /** The quote that ends a string, skipping the character after each backslash. */
  function Quote(text: string, pos: nat): (end: Option<nat>)
    ensures end.Some? ==> pos <= end.value < |text| && text[end.value] == '"'
    decreases |text| - pos
  {
    if pos >= |text| then None
    else if text[pos] == '"' then Some(pos)
    else Quote(text, pos + if text[pos] == '\\' then 2 else 1)
  }

  /** How many backslashes stand right before `i`, not looking before `from`. */
  function Backslashes(text: string, from: nat, i: nat): (n: nat)
    requires from <= i <= |text|
    decreases i
  {
    if from < i && text[i - 1] == '\\' then 1 + Backslashes(text, from, i - 1) else 0
  }

  predicate Unescaped(text: string, from: nat, i: nat)
    requires from <= i <= |text|
  {
    Backslashes(text, from, i) % 2 == 0
  }

  lemma {:induction false} EscapeFromLater(text: string, from: nat, later: nat, i: nat)
    requires from < later <= i <= |text|
    requires later == from + if text[from] == '\\' then 2 else 1
    ensures Unescaped(text, from, i) <==> Unescaped(text, later, i)
    decreases i
  {
    if later < i && text[i - 1] == '\\' {
      EscapeFromLater(text, from, later, i - 1);
    } else if i == later == from + 2 {
      assert Backslashes(text, from, from + 1) == 1;
    }
  }

  /** A string ends at its first quote with an even number of backslashes before it. */
  lemma {:induction false} QuoteIsFirstUnescaped(text: string, pos: nat)
    requires pos <= |text|
    ensures Quote(text, pos).Some? ==> Unescaped(text, pos, Quote(text, pos).value)
    ensures forall i | pos <= i < (if Quote(text, pos).Some? then Quote(text, pos).value else |text|) ::
      text[i] == '"' ==> !Unescaped(text, pos, i)
    decreases |text| - pos
  {
    if pos < |text| && text[pos] != '"' {
      var later := pos + if text[pos] == '\\' then 2 else 1;
      if later <= |text| {
        QuoteIsFirstUnescaped(text, later);
        forall i | later <= i <= |text| ensures Unescaped(text, pos, i) <==> Unescaped(text, later, i) {
          EscapeFromLater(text, pos, later, i);
        }
      }
      assert later == pos + 2 ==> pos + 1 <= |text| && Backslashes(text, pos, pos + 1) == 1;
    }
  }

  method ScanString(text: string, begin: nat) returns (end: Option<nat>)
    ensures end == Quote(text, begin)
  {
    var cursor := begin;
    while cursor < |text| && text[cursor] != '"'
      invariant begin <= cursor && Quote(text, cursor) == Quote(text, begin)
      decreases |text| - cursor
    {
      cursor := cursor + if text[cursor] == '\\' then 2 else 1;
    }
    if cursor >= |text| {
      return None;
    }
    return Some(cursor);
  }

  function BraceFrom(text: string, pos: nat): (at: Option<nat>)
    ensures at.Some? ==> pos <= at.value < |text| && text[at.value] == '}'
    ensures forall i | pos <= i < (if at.Some? then at.value else |text|) :: text[i] != '}'
    decreases |text| - pos
  {
    if pos >= |text| then None else if text[pos] == '}' then Some(pos) else BraceFrom(text, pos + 1)
  }

  /** Where the apostrophe that closes a character literal must stand; none for an unterminated escape. */
  function ApostropheAt(text: string, pos: nat): (end: Option<nat>)
    ensures end.Some? ==> end.value > pos
  {
    if pos + 1 < |text| && text[pos + 1] == '\\' then
      if StartsWith(text, "u{", pos + 2) then
        match BraceFrom(text, pos + 4) case None => None case Some(brace) => Some(brace + 1)
      else if StartsWith(text, "x", pos + 2) then Some(pos + 5)
      else Some(pos + 3)
    else Some(pos + 2)
  }

  // ----- one step ----------------------------------------------------------------------------------------------------

  datatype Kind = LineComment | BlockComment | String

  datatype Token = Token(kind: Kind, begin: nat, end: nat)

  datatype Step = Plain(next: nat) | Found(token: Token) | Unterminated(begin: nat)

  predicate AtBoundary(src: Source, cursor: nat)
    requires Valid(src) && cursor < |src.text|
  {
    cursor == 0 || !src.word[cursor - 1]
  }

  /** A token is not empty and begins as its kind does; a block comment also ends as one, past its opener. */
  predicate Sound(text: string, token: Token) {
    && token.begin < token.end <= |text|
    && (token.kind == LineComment ==> StartsWith(text[token.begin..token.end], "//", 0))
    && (token.kind == BlockComment ==>
          StartsWith(text, "/*", token.begin) && token.begin + 4 <= token.end && StartsWith(text, "*/", token.end - 2))
    && (token.kind == String ==> text[token.begin] in "\"bcr")
  }

  lemma LineCommentIsSound(text: string, cursor: nat)
    requires StartsWith(text, "//", cursor)
    ensures Sound(text, Token(LineComment, cursor, LineEnd(text, cursor)))
  {
    assert text[cursor] == text[cursor..cursor + 2][0] && text[cursor + 1] == text[cursor..cursor + 2][1];
    var end := LineEnd(text, cursor);
    assert end >= cursor + 2;
    assert text[cursor..end][..2] == text[cursor..cursor + 2];
  }

  lemma RawBeginsWithLetter(text: string, pos: nat)
    requires RawOpening(text, pos).Some?
    ensures pos < |text| && text[pos] in "bcr"
  {
    if StartsWith(text, "br", pos) {
      assert text[pos] == text[pos..pos + 2][0];
    } else if StartsWith(text, "cr", pos) {
      assert text[pos] == text[pos..pos + 2][0];
    } else {
      assert text[pos] == text[pos..pos + 1][0];
    }
  }

  lemma PrefixIsLetter(text: string, pos: nat)
    requires StartsWith(text, "b\"", pos) || StartsWith(text, "c\"", pos)
    ensures text[pos] in "bc"
  {
    assert text[pos] == text[pos..pos + 2][0];
  }

  /** What stands at `cursor`, in the order the pass tries it. */
  function StepAt(src: Source, cursor: nat): (step: Step)
    requires Valid(src) && cursor < |src.text|
    ensures step.Plain? ==> cursor < step.next <= |src.text|
    ensures step.Found? ==> step.token.begin == cursor < step.token.end <= |src.text|
  {
    var text := src.text;
    var raw := if AtBoundary(src, cursor) && !src.assembly then RawOpening(text, cursor) else None;
    var prefix := if AtBoundary(src, cursor) && (StartsWith(text, "b\"", cursor) || StartsWith(text, "c\"", cursor))
                  then 1 else 0;
    if StartsWith(text, "//", cursor) then
      LineCommentIsSound(text, cursor);
      Found(Token(LineComment, cursor, LineEnd(text, cursor)))
    else if StartsWith(text, "/*", cursor) then
      match Nested(text, src.assembly, cursor + 2)
      case None => Unterminated(cursor)
      case Some(end) => Found(Token(BlockComment, cursor, end))
    else if raw.Some? then
      match RawClosing(text, raw.value.1, raw.value.0)
      case None => Unterminated(cursor)
      case Some(quote) => Found(Token(String, cursor, quote + 1 + raw.value.0))
    else if cursor + prefix < |text| && text[cursor + prefix] == '"' then
      match Quote(text, cursor + prefix + 1)
      case None => Unterminated(cursor)
      case Some(quote) => Found(Token(String, cursor, quote + 1))
    else if !src.assembly && text[cursor] == '\'' then
      match ApostropheAt(text, cursor)
      case None => Unterminated(cursor)
      case Some(end) => if end < |text| && text[end] == '\'' then Plain(end + 1) else Plain(cursor + 1)
    else Plain(cursor + 1)
  }

  lemma BlockCommentIsSound(text: string, assembly: bool, cursor: nat)
    requires StartsWith(text, "/*", cursor) && Nested(text, assembly, cursor + 2).Some?
    ensures Sound(text, Token(BlockComment, cursor, Nested(text, assembly, cursor + 2).value))
  {
    hide StartsWith, Nested;
    NestedEndsWithCloser(text, assembly, cursor + 2);
  }

  /** Each token a step finds begins, and each block comment ends, as its kind does. */
  lemma StepIsSound(src: Source, cursor: nat)
    requires Valid(src) && cursor < |src.text|
    ensures StepAt(src, cursor).Found? ==> Sound(src.text, StepAt(src, cursor).token)
  {
    hide StartsWith, Nested, RawOpening, RawClosing, Quote, LineEnd, ApostropheAt;
    var text := src.text;
    if StartsWith(text, "//", cursor) {
      LineCommentIsSound(text, cursor);
    } else if StartsWith(text, "/*", cursor) {
      if Nested(text, src.assembly, cursor + 2).Some? {
        BlockCommentIsSound(text, src.assembly, cursor);
      }
    } else {
      if RawOpening(text, cursor).Some? {
        RawBeginsWithLetter(text, cursor);
      }
      if StartsWith(text, "b\"", cursor) || StartsWith(text, "c\"", cursor) {
        PrefixIsLetter(text, cursor);
      }
    }
  }

  /** One round of the pass: the comment and string loops run where the round comes to one. */
  method ScanStep(src: Source, cursor: nat) returns (step: Step)
    requires Valid(src) && cursor < |src.text|
    ensures step == StepAt(src, cursor)
  {
    hide Nested, Quote, RawOpening, RawClosing, ApostropheAt, LineEnd;
    var text := src.text;
    if StartsWith(text, "//", cursor) {
      return Found(Token(LineComment, cursor, LineEnd(text, cursor)));
    }
    if StartsWith(text, "/*", cursor) {
      var end := ScanBlock(text, src.assembly, cursor);
      return if end.None? then Unterminated(cursor) else Found(Token(BlockComment, cursor, end.value));
    }
    var boundary := AtBoundary(src, cursor);
    var raw := if boundary && !src.assembly then RawOpening(text, cursor) else None;
    if raw.Some? {
      var quote := RawClosing(text, raw.value.1, raw.value.0);
      return if quote.None? then Unterminated(cursor)
             else Found(Token(String, cursor, quote.value + 1 + raw.value.0));
    }
    var prefix := if boundary && (StartsWith(text, "b\"", cursor) || StartsWith(text, "c\"", cursor)) then 1 else 0;
    if cursor + prefix < |text| && text[cursor + prefix] == '"' {
      var quote := ScanString(text, cursor + prefix + 1);
      return if quote.None? then Unterminated(cursor) else Found(Token(String, cursor, quote.value + 1));
    }
    if !src.assembly && text[cursor] == '\'' {
      var end := ApostropheAt(text, cursor);
      if end.None? {
        return Unterminated(cursor);
      }
      if end.value < |text| && text[end.value] == '\'' {
        return Plain(end.value + 1);
      }
    }
    return Plain(cursor + 1);
  }

  // ----- the whole pass ----------------------------------------------------------------------------------------------

  datatype Outcome = Lexed(tokens: seq<Token>) | Failed(begin: nat)

  function Tokens(src: Source, cursor: nat): Outcome
    requires Valid(src)
    decreases |src.text| - cursor
  {
    if cursor >= |src.text| then Lexed([])
    else
      match StepAt(src, cursor)
      case Plain(next) => Tokens(src, next)
      case Unterminated(begin) => Failed(begin)
      case Found(token) =>
        match Tokens(src, token.end)
        case Failed(begin) => Failed(begin)
        case Lexed(rest) => Lexed([token] + rest)
  }

  /** Tokens in order, apart from one another and sound. */
  ghost predicate InOrder(text: string, tokens: seq<Token>, from: nat) {
    && (forall i | 0 <= i < |tokens| :: from <= tokens[i].begin && Sound(text, tokens[i]))
    && forall i, j | 0 <= i < j < |tokens| :: tokens[i].end <= tokens[j].begin
  }

  lemma {:induction false} TokensAreInOrder(src: Source, cursor: nat)
    requires Valid(src)
    ensures Tokens(src, cursor).Lexed? ==> InOrder(src.text, Tokens(src, cursor).tokens, cursor)
    decreases |src.text| - cursor
  {
    hide StepAt, Sound;
    if cursor < |src.text| {
      match StepAt(src, cursor)
      case Plain(next) => TokensAreInOrder(src, next);
      case Unterminated(_) =>
      case Found(token) =>
        StepIsSound(src, cursor);
        TokensAreInOrder(src, token.end);
    }
  }

  function OfKind(tokens: seq<Token>, comments: bool): seq<Token> {
    if tokens == [] then []
    else OfKind(tokens[..|tokens| - 1], comments)
         + if (tokens[|tokens| - 1].kind != String) == comments then [tokens[|tokens| - 1]] else []
  }

  lemma {:induction false} OfKindIn(tokens: seq<Token>, comments: bool, t: Token)
    ensures t in OfKind(tokens, comments) <==> t in tokens && (t.kind != String) == comments
  {
    if tokens != [] {
      OfKindIn(tokens[..|tokens| - 1], comments, t);
      assert tokens == tokens[..|tokens| - 1] + [tokens[|tokens| - 1]];
    }
  }

  lemma ExtendInOrder(text: string, tokens: seq<Token>, last: Token)
    requires InOrder(text, tokens, 0) && forall t | t in tokens :: t.end <= last.begin
    requires Sound(text, last)
    ensures InOrder(text, tokens + [last], 0)
  {
    var all := tokens + [last];
    forall i, j | 0 <= i < j < |all| ensures all[i].end <= all[j].begin {
      assert i < |tokens| && all[i] == tokens[i];
      if j == |tokens| {
        assert tokens[i] in tokens;
      }
    }
  }

  /** The comments alone, and the strings alone, keep the order of the text. */
  lemma {:induction false} OfKindInOrder(text: string, tokens: seq<Token>, comments: bool)
    requires InOrder(text, tokens, 0)
    ensures InOrder(text, OfKind(tokens, comments), 0)
  {
    if tokens != [] {
      var front, last := tokens[..|tokens| - 1], tokens[|tokens| - 1];
      OfKindInOrder(text, front, comments);
      forall t | t in OfKind(front, comments) ensures t.end <= last.begin {
        OfKindIn(front, comments, t);
      }
      ExtendInOrder(text, OfKind(front, comments), last);
    }
  }

  /** The pass itself: comments and strings in two lists, or where an unterminated one begins. */
  method Scan(src: Source) returns (failed: Option<nat>, comments: seq<Token>, strings: seq<Token>)
    requires Valid(src)
    ensures match Tokens(src, 0)
            case Failed(begin) => failed == Some(begin)
            case Lexed(tokens) => failed == None && comments == OfKind(tokens, true) && strings == OfKind(tokens, false)
  {
    hide StepAt;
    comments, strings := [], [];
    var cursor := 0;
    ghost var seen: seq<Token> := [];
    while cursor < |src.text|
      invariant 0 <= cursor <= |src.text|
      invariant comments == OfKind(seen, true) && strings == OfKind(seen, false)
      invariant Tokens(src, 0) == match Tokens(src, cursor)
                                  case Failed(begin) => Failed(begin)
                                  case Lexed(rest) => Lexed(seen + rest)
      decreases |src.text| - cursor
    {
      var step := ScanStep(src, cursor);
      match step {
        case Plain(next) => cursor := next;
        case Unterminated(begin) => return Some(begin), comments, strings;
        case Found(token) =>
          assert (seen + [token])[..|seen|] == seen;
          if token.kind == String {
            strings := strings + [token];
          } else {
            comments := comments + [token];
          }
          assert Tokens(src, token.end).Lexed? ==>
            seen + ([token] + Tokens(src, token.end).tokens) == seen + [token] + Tokens(src, token.end).tokens;
          seen := seen + [token];
          cursor := token.end;
      }
    }
    assert seen + [] == seen;
    return None, comments, strings;
  }
}
