/** The tokenizer of the SQL subset. */
module SqlLexer {
  import opened Common

  datatype Kind =
    | SELECT | FROM | WHERE | GROUP | BY | LIMIT | AND | OR | LIKE
    | JOIN | INNER | LEFT | RIGHT | OUTER
    | Keyword                 // the remaining reserved words
    | IDENTIFIER | STRING | NUMBER | BOOLEAN | NULL
    | EQUALS | NOT_EQUALS | GREATER_THAN | LESS_THAN | GREATER_EQUAL | LESS_EQUAL
    | COMMA | SEMICOLON | LPAREN | RPAREN | ASTERISK | EOF

  datatype Token = Token(kind: Kind, value: string)

  /** `\s` */
  predicate Space(c: char) {
    var n := c as int;
    || 9 <= n <= 13 || n == 0x20 || n == 0xA0 || n == 0x1680 || 0x2000 <= n <= 0x200A
    || n == 0x2028 || n == 0x2029 || n == 0x202F || n == 0x205F || n == 0x3000 || n == 0xFEFF
  }

  predicate Digit(c: char) { '0' <= c <= '9' }
  predicate NumberChar(c: char) { Digit(c) || c == '.' }
  predicate WordStart(c: char) { 'a' <= c <= 'z' || 'A' <= c <= 'Z' || c == '_' }
  predicate WordChar(c: char) { WordStart(c) || Digit(c) || c == '-' }

  function UpperChar(c: char): char {
    if 'a' <= c <= 'z' then ((c as int) - 32) as char else c
  }

  /** `toUpperCase()` on the letters a word can hold. */
  function Upper(word: string): string {
    seq(|word|, i requires 0 <= i < |word| => UpperChar(word[i]))
  }

  function KeywordKind(word: string): Kind {
    var w := Upper(word);
    if w == "SELECT" then SELECT
    else if w == "FROM" then FROM
    else if w == "WHERE" then WHERE
    else if w == "GROUP" then GROUP
    else if w == "BY" then BY
    else if w == "LIMIT" then LIMIT
    else if w == "AND" then AND
    else if w == "OR" then OR
    else if w == "LIKE" then LIKE
    else if w == "JOIN" then JOIN
    else if w == "INNER" then INNER
    else if w == "LEFT" then LEFT
    else if w == "RIGHT" then RIGHT
    else if w == "OUTER" then OUTER
    else if w == "TRUE" || w == "FALSE" then BOOLEAN
    else if w == "NULL" then NULL
    else if w in ["INSERT", "INTO", "VALUES", "UPDATE", "SET", "DELETE", "ON", "ORDER", "AS"] then Keyword
    else IDENTIFIER
  }

  /** The end of the run of `accept`ed characters from `i`. */
  function RunEnd(s: string, i: nat, accept: char -> bool): (j: nat)
    ensures i <= j && (i <= |s| ==> j <= |s|)
    ensures i < |s| && accept(s[i]) ==> i < j
    decreases |s| - i
  {
    if i < |s| && accept(s[i]) then RunEnd(s, i + 1, accept) else i
  }

  datatype Read = Read(value: string, next: nat)

  /** The contents of a string literal from `i`, a doubled quote standing for one; an
      unterminated literal ends with the input. */
  function ReadQuoted(s: string, i: nat, quote: char): (r: Read)
    ensures i <= |s| ==> i <= r.next <= |s|
    decreases |s| - i
  {
    if i >= |s| then Read("", i)
    else if s[i] != quote then
      var rest := ReadQuoted(s, i + 1, quote);
      Read([s[i]] + rest.value, rest.next)
    else if i + 1 < |s| && s[i + 1] == quote then
      var rest := ReadQuoted(s, i + 2, quote);
      Read([quote] + rest.value, rest.next)
    else Read("", i + 1)
  }

  function ReadWord(s: string, i: nat): (r: Read)
    requires i <= |s|
    ensures i <= r.next <= |s| && (i < |s| && WordChar(s[i]) ==> i < r.next)
  {
    var j := RunEnd(s, i, WordChar);
    Read(s[i..j], j)
  }

  /** Dotted parts folded into a slash path, after the first part has been read. */
  function ReadDotted(s: string, read: Read): (r: Read)
    requires read.next <= |s|
    ensures read.next <= r.next <= |s|
    decreases |s| - read.next
  {
    if read.next + 1 < |s| && s[read.next] == '.' && WordStart(s[read.next + 1]) then
      var part := ReadWord(s, read.next + 1);
      ReadDotted(s, Read(read.value + "/" + part.value, part.next))
    else read
  }

  /** One token, or none for a character that is skipped, and where to go on. */
  datatype Step = Step(token: Option<Token>, next: nat)

  function Operator(s: string, i: nat): (r: Step)
    requires i < |s|
    ensures i < r.next <= |s|
  {
    var c := s[i];
    var withEquals := i + 1 < |s| && s[i + 1] == '=';
    if c == '>' then
      if withEquals then Step(Some(Token(GREATER_EQUAL, ">=")), i + 2) else Step(Some(Token(GREATER_THAN, ">")), i + 1)
    else if c == '<' then
      if withEquals then Step(Some(Token(LESS_EQUAL, "<=")), i + 2) else Step(Some(Token(LESS_THAN, "<")), i + 1)
    else if c == '!' then
      if withEquals then Step(Some(Token(NOT_EQUALS, "!=")), i + 2) else Step(None, i + 1)
    else if c == '=' then Step(Some(Token(EQUALS, "=")), i + 1)
    else if c == ',' then Step(Some(Token(COMMA, ",")), i + 1)
    else if c == ';' then Step(Some(Token(SEMICOLON, ";")), i + 1)
    else if c == '(' then Step(Some(Token(LPAREN, "(")), i + 1)
    else if c == ')' then Step(Some(Token(RPAREN, ")")), i + 1)
    else if c == '*' then Step(Some(Token(ASTERISK, "*")), i + 1)
    else Step(None, i + 1)
  }

  function LexStep(s: string, i: nat): (r: Step)
    requires i < |s|
    ensures i < r.next <= |s|
  {
    var c := s[i];
    if c == '\'' || c == '"' then
      var read := ReadQuoted(s, i + 1, c);
      Step(Some(Token(STRING, read.value)), read.next)
    else if Digit(c) then
      var j := RunEnd(s, i, NumberChar);
      Step(Some(Token(NUMBER, s[i..j])), j)
    else if WordStart(c) then
      var read := ReadDotted(s, ReadWord(s, i));
      Step(Some(Token(KeywordKind(read.value), read.value)), read.next)
    else Operator(s, i)
  }

  function OfOption(token: Option<Token>): seq<Token> {
    if token.Some? then [token.value] else []
  }

  /** The tokens from position `i` on, closed by EOF. */
  function Lex(s: string, i: nat): seq<Token>
    requires i <= |s|
    decreases |s| - i
  {
    var j := RunEnd(s, i, Space);
    if j >= |s| then [Token(EOF, "")]
    else
      var step := LexStep(s, j);
      OfOption(step.token) + Lex(s, step.next)
  }

  function TrimEnd(s: string): string {
    if s != "" && Space(s[|s| - 1]) then TrimEnd(s[..|s| - 1]) else s
  }

  /** `trim()` */
  function Trim(s: string): string {
    TrimEnd(s[RunEnd(s, 0, Space)..])
  }

  /** The characters read so far and those still to come make up the literal `whole`. */
  ghost predicate QuotedSoFar(result: string, s: string, i: nat, quote: char, whole: Read) {
    var rest := ReadQuoted(s, i, quote);
    whole == Read(result + rest.value, rest.next)
  }

  lemma QuotedStart(s: string, i: nat, quote: char)
    ensures QuotedSoFar("", s, i, quote, ReadQuoted(s, i, quote))
  {
    var rest := ReadQuoted(s, i, quote);
    assert "" + rest.value == rest.value;
  }

  lemma QuotedChar(result: string, s: string, i: nat, quote: char, whole: Read)
    requires i < |s| && s[i] != quote && QuotedSoFar(result, s, i, quote, whole)
    ensures QuotedSoFar(result + [s[i]], s, i + 1, quote, whole)
  {
    var rest := ReadQuoted(s, i + 1, quote);
    assert result + ([s[i]] + rest.value) == result + [s[i]] + rest.value;
  }

  lemma QuotedPair(result: string, s: string, i: nat, quote: char, whole: Read)
    requires i + 1 < |s| && s[i] == s[i + 1] == quote && QuotedSoFar(result, s, i, quote, whole)
    ensures QuotedSoFar(result + [quote], s, i + 2, quote, whole)
  {
    var rest := ReadQuoted(s, i + 2, quote);
    assert result + ([quote] + rest.value) == result + [quote] + rest.value;
  }

  lemma QuotedEnd(result: string, s: string, i: nat, quote: char, whole: Read)
    requires i <= |s| && (i < |s| ==> s[i] == quote) && !(i + 1 < |s| && s[i + 1] == quote)
    requires QuotedSoFar(result, s, i, quote, whole)
    ensures whole == Read(result, if i < |s| then i + 1 else i)
  {
    assert result + "" == result;
  }

  class SQLLexer {
    const input: string
    var position: nat

    constructor (input: string)
      ensures this.input == Trim(input) && position == 0
    {
      this.input := Trim(input);
      position := 0;
    }

    method SkipWhitespace()
      requires position <= |input|
      modifies this
      ensures position == RunEnd(input, old(position), Space) <= |input|
    {
      while position < |input| && Space(input[position])
        invariant position <= |input| && RunEnd(input, position, Space) == RunEnd(input, old(position), Space)
      {
        position := position + 1;
      }
    }

    /** `readString`: up to the closing quote, resuming after every doubled one. */
    method ReadString() returns (result: string)
      requires position < |input|
      modifies this
      ensures Read(result, position) == ReadQuoted(input, old(position) + 1, input[old(position)])
      ensures old(position) < position <= |input|
    {
      var quote := input[position];
      ghost var whole := ReadQuoted(input, position + 1, quote);
      position := position + 1;
      QuotedStart(input, position, quote);
      result := ReadUntil(quote, "", whole);
      while position + 1 < |input| && input[position] == quote && input[position + 1] == quote
        invariant old(position) < position <= |input|
        invariant position < |input| ==> input[position] == quote
        invariant QuotedSoFar(result, input, position, quote, whole)
        decreases |input| - position
      {
        QuotedPair(result, input, position, quote, whole);
        result := result + [quote];
        position := position + 2;
        result := ReadUntil(quote, result, whole);
      }
      QuotedEnd(result, input, position, quote, whole);
      if position < |input| {
        position := position + 1;
      }
    }

    method ReadUntil(quote: char, head: string, ghost whole: Read) returns (result: string)
      requires position <= |input| && QuotedSoFar(head, input, position, quote, whole)
      modifies this
      ensures old(position) <= position <= |input| && (position < |input| ==> input[position] == quote)
      ensures QuotedSoFar(result, input, position, quote, whole)
    {
      result := head;
      while position < |input| && input[position] != quote
        invariant old(position) <= position <= |input|
        invariant QuotedSoFar(result, input, position, quote, whole)
        decreases |input| - position
      {
        QuotedChar(result, input, position, quote, whole);
        result := result + [input[position]];
        position := position + 1;
      }
    }

    method ReadRun(accept: char -> bool) returns (result: string)
      requires position <= |input|
      modifies this
      ensures position == RunEnd(input, old(position), accept) <= |input|
      ensures result == input[old(position)..position]
    {
      result := "";
      while position < |input| && accept(input[position])
        invariant old(position) <= position <= |input|
        invariant RunEnd(input, position, accept) == RunEnd(input, old(position), accept)
        invariant result == input[old(position)..position]
      {
        result := result + [input[position]];
        position := position + 1;
      }
    }

    method ReadIdentifier() returns (value: string)
      requires position < |input|
      modifies this
      ensures position <= |input|
      ensures Read(value, position) == ReadDotted(input, ReadWord(input, old(position)))
    {
      ghost var start := position;
      value := ReadRun(WordChar);
      ghost var whole := ReadDotted(input, Read(value, position));
      assert Read(value, position) == ReadWord(input, start);
      while position + 1 < |input| && input[position] == '.' && WordStart(input[position + 1])
        invariant position <= |input|
        invariant ReadDotted(input, Read(value, position)) == whole
        decreases |input| - position
      {
        ghost var read := Read(value, position);
        position := position + 1;
        ghost var from := position;
        var part := ReadRun(WordChar);
        assert Read(part, position) == ReadWord(input, from);
        DottedContinues(input, read);
        value := value + "/" + part;
      }
    }

    method ReadToken() returns (token: Option<Token>)
      requires position < |input|
      modifies this
      ensures Step(token, position) == LexStep(input, old(position))
      ensures old(position) < position <= |input|
    {
      var c := input[position];
      if c == '\'' || c == '"' {
        var value := ReadString();
        return Some(Token(STRING, value));
      }
      if Digit(c) {
        var value := ReadRun(NumberChar);
        return Some(Token(NUMBER, value));
      }
      if WordStart(c) {
        var value := ReadIdentifier();
        return Some(Token(KeywordKind(value), value));
      }
      var operator := Operator(input, position);
      position := operator.next;
      return operator.token;
    }

    method Tokenize() returns (tokens: seq<Token>)
      requires position == 0
      modifies this
      ensures tokens == Lex(input, 0)
    {
      tokens := [];
      ghost var whole := Lex(input, 0);
      assert [] + whole == whole;
      while position < |input|
        invariant position <= |input| && Completes(tokens, input, position, whole)
        decreases |input| - position
      {
        ghost var start := position;
        SkipWhitespace();
        if position >= |input| {
          LexEnds(input, start);
          tokens := tokens + [Token(EOF, "")];
          return;
        }
        var token := ReadToken();
        LexContinues(tokens, token, input, start, position);
        if token.Some? {
          tokens := tokens + [token.value];
        } else {
          assert tokens + OfOption(token) == tokens;
        }
      }
      LexEnds(input, position);
      tokens := tokens + [Token(EOF, "")];
    }
  }

  /** The tokens read so far and those still to come make up `whole`. */
  ghost predicate Completes(tokens: seq<Token>, s: string, i: nat, whole: seq<Token>)
    requires i <= |s|
  {
    tokens + Lex(s, i) == whole
  }

  lemma LexEnds(s: string, i: nat)
    requires i <= |s| && RunEnd(s, i, Space) >= |s|
    ensures Lex(s, i) == [Token(EOF, "")]
  {
  }

  lemma DottedContinues(s: string, read: Read)
    requires read.next + 1 < |s| && s[read.next] == '.' && WordStart(s[read.next + 1])
    ensures
      var part := ReadWord(s, read.next + 1);
      ReadDotted(s, read) == ReadDotted(s, Read(read.value + "/" + part.value, part.next))
  {
  }

  lemma LexContinues(tokens: seq<Token>, token: Option<Token>, s: string, i: nat, next: nat)
    requires i <= |s| && RunEnd(s, i, Space) < |s| && LexStep(s, RunEnd(s, i, Space)) == Step(token, next)
    ensures tokens + Lex(s, i) == tokens + OfOption(token) + Lex(s, next)
  {
    assert tokens + (OfOption(token) + Lex(s, next)) == tokens + OfOption(token) + Lex(s, next);
  }
}
