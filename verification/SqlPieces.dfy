/** Lexing text that was printed piece by piece: every piece comes back as its token. */
module SqlPieces {
  import opened Common
  import opened SqlLexer

  // ---------- the lexer reads a suffix the same wherever it stands ----------

  predicate Tail(s: string, n: nat, b: string) {
    |s| == n + |b| && forall j :: 0 <= j < |b| ==> b[j] == s[n + j]
  }

  lemma {:induction false} RunEndShift(s: string, n: nat, b: string, j: nat, accept: char -> bool)
    requires Tail(s, n, b) && j <= |b|
    ensures RunEnd(s, n + j, accept) == n + RunEnd(b, j, accept)
    decreases |b| - j
  {
    if j < |b| && accept(b[j]) {
      RunEndShift(s, n, b, j + 1, accept);
    }
  }

  function Moved(read: Read, offset: nat): Read {
    Read(read.value, offset + read.next)
  }

  lemma {:induction false} ReadQuotedShift(s: string, n: nat, b: string, j: nat, quote: char)
    requires Tail(s, n, b) && j <= |b|
    ensures ReadQuoted(s, n + j, quote) == Moved(ReadQuoted(b, j, quote), n)
    decreases |b| - j
  {
    if j < |b| {
      if b[j] != quote {
        ReadQuotedShift(s, n, b, j + 1, quote);
      } else if j + 1 < |b| && b[j + 1] == quote {
        ReadQuotedShift(s, n, b, j + 2, quote);
      }
    }
  }

  lemma ReadWordShift(s: string, n: nat, b: string, j: nat)
    requires Tail(s, n, b) && j <= |b|
    ensures ReadWord(s, n + j) == Moved(ReadWord(b, j), n)
  {
    RunEndShift(s, n, b, j, WordChar);
    assert s[n + j..n + RunEnd(b, j, WordChar)] == b[j..RunEnd(b, j, WordChar)];
  }

  predicate AnotherPart(s: string, j: nat) {
    j + 1 < |s| && s[j] == '.' && WordStart(s[j + 1])
  }

  lemma AnotherPartShift(s: string, n: nat, b: string, j: nat)
    requires Tail(s, n, b) && j <= |b|
    ensures AnotherPart(s, n + j) == AnotherPart(b, j)
  {
    assert j < |b| ==> s[n + j] == b[j];
    assert j + 1 < |b| ==> s[n + (j + 1)] == b[j + 1];
  }

  lemma DottedEnds(s: string, read: Read)
    requires read.next <= |s| && !AnotherPart(s, read.next)
    ensures ReadDotted(s, read) == read
  {
  }

  lemma DottedGoesOn(s: string, value: string, j: nat, part: Read)
    requires AnotherPart(s, j) && part == ReadWord(s, j + 1)
    ensures ReadDotted(s, Read(value, j)) == ReadDotted(s, Read(value + "/" + part.value, part.next))
  {
  }

  lemma {:induction false} ReadDottedShift(s: string, n: nat, b: string, value: string, j: nat)
    requires Tail(s, n, b) && j <= |b|
    ensures ReadDotted(s, Read(value, n + j)) == Moved(ReadDotted(b, Read(value, j)), n)
    decreases |b| - j
  {
    hide ReadDotted, ReadWord;
    AnotherPartShift(s, n, b, j);
    if AnotherPart(b, j) {
      ReadWordShift(s, n, b, j + 1);
      var part := ReadWord(b, j + 1);
      ReadDottedShift(s, n, b, value + "/" + part.value, part.next);
      DottedGoesOn(b, value, j, part);
      DottedGoesOn(s, value, n + j, Moved(part, n));
    } else {
      DottedEnds(b, Read(value, j));
      DottedEnds(s, Read(value, n + j));
    }
  }

  function MovedStep(step: Step, offset: nat): Step {
    Step(step.token, offset + step.next)
  }

  lemma OperatorShift(s: string, n: nat, b: string, j: nat)
    requires Tail(s, n, b) && j < |b|
    ensures Operator(s, n + j) == MovedStep(Operator(b, j), n)
  {
    assert s[n + j] == b[j];
    assert j + 1 < |b| ==> s[n + (j + 1)] == b[j + 1];
  }

  lemma NumberShift(s: string, n: nat, b: string, j: nat)
    requires Tail(s, n, b) && j < |b| && Digit(b[j])
    ensures LexStep(s, n + j) == MovedStep(LexStep(b, j), n)
  {
    assert s[n + j] == b[j];
    RunEndShift(s, n, b, j, NumberChar);
    var end := RunEnd(b, j, NumberChar);
    assert s[n + j..n + end] == b[j..end];
  }

  lemma WordShift(s: string, n: nat, b: string, j: nat)
    requires Tail(s, n, b) && j < |b| && WordStart(b[j])
    ensures LexStep(s, n + j) == MovedStep(LexStep(b, j), n)
  {
    hide ReadDotted, ReadWord, KeywordKind, ReadQuoted;
    assert s[n + j] == b[j];
    ReadWordShift(s, n, b, j);
    var word := ReadWord(b, j);
    ReadDottedShift(s, n, b, word.value, word.next);
  }

  lemma LexStepShift(s: string, n: nat, b: string, j: nat)
    requires Tail(s, n, b) && j < |b|
    ensures LexStep(s, n + j) == MovedStep(LexStep(b, j), n)
  {
    var c := b[j];
    assert s[n + j] == c;
    if Digit(c) {
      NumberShift(s, n, b, j);
    } else if WordStart(c) {
      WordShift(s, n, b, j);
    } else if c == '\'' || c == '"' {
      ReadQuotedShift(s, n, b, j + 1, c);
    } else {
      OperatorShift(s, n, b, j);
    }
  }

  lemma LexUnfold(s: string, i: nat, k: nat, step: Step)
    requires i <= |s| && k == RunEnd(s, i, Space) < |s| && step == LexStep(s, k)
    ensures Lex(s, i) == OfOption(step.token) + Lex(s, step.next)
  {
  }

  lemma LexStepOn(s: string, n: nat, b: string, j: nat, k: nat, step: Step)
    requires j <= |b| && k == RunEnd(b, j, Space) < |b| && step == LexStep(b, k)
    requires n + j <= |s| && n + k == RunEnd(s, n + j, Space) < |s| && LexStep(s, n + k) == MovedStep(step, n)
    requires Lex(s, n + step.next) == Lex(b, step.next)
    ensures Lex(s, n + j) == Lex(b, j)
  {
    hide Lex, LexStep, RunEnd;
    LexUnfold(b, j, k, step);
    LexUnfold(s, n + j, n + k, MovedStep(step, n));
  }

  lemma {:induction false} LexTail(s: string, n: nat, b: string, j: nat)
    requires Tail(s, n, b) && j <= |b|
    ensures Lex(s, n + j) == Lex(b, j)
    decreases |b| - j
  {
    RunEndShift(s, n, b, j, Space);
    var k := RunEnd(b, j, Space);
    if k < |b| {
      var step := LexStep(b, k);
      LexStepShift(s, n, b, k);
      LexTail(s, n, b, step.next);
      LexStepOn(s, n, b, j, k, step);
    } else {
      LexEnds(b, j);
      LexEnds(s, n + j);
    }
  }

  lemma LexShift(a: string, b: string)
    ensures Lex(a + b, |a|) == Lex(b, 0)
  {
    LexTail(a + b, |a|, b, 0);
  }

  // ---------- pieces ----------

  /** A lexeme with the token it stands for, after a blank if `spaced`. */
  datatype Piece = Piece(spaced: bool, text: string, token: Token)

  /** What may follow a lexeme: nothing, a blank or a comma. */
  predicate Separated(rest: string) {
    rest == "" || rest[0] == ' ' || rest[0] == ','
  }

  predicate LexesBefore(text: string, token: Token, rest: string)
    requires text != ""
  {
    LexStep(text + rest, 0) == Step(Some(token), |text|)
  }

  ghost predicate Lexable(p: Piece) {
    && p.text != "" && !Space(p.text[0]) && !Space(p.text[|p.text| - 1])
    && (p.spaced || p.text[0] == ',')
    && forall rest :: Separated(rest) ==> LexesBefore(p.text, p.token, rest)
  }

  function Printed(pieces: seq<Piece>): string {
    if pieces == [] then ""
    else (if pieces[0].spaced then " " else "") + pieces[0].text + Printed(pieces[1..])
  }

  function Tokens(pieces: seq<Piece>): seq<Token> {
    if pieces == [] then [] else [pieces[0].token] + Tokens(pieces[1..])
  }

  ghost predicate AllLexable(pieces: seq<Piece>) {
    forall k :: 0 <= k < |pieces| ==> Lexable(pieces[k])
  }

  lemma TextSeparated(pieces: seq<Piece>)
    requires AllLexable(pieces)
    ensures Separated(Printed(pieces))
  {
    if pieces != [] {
      assert Lexable(pieces[0]);
    }
  }

  lemma LexBlank(rest: string)
    ensures Lex(" " + rest, 0) == Lex(rest, 0)
  {
    LexShift(" ", rest);
    RunEndShift(" " + rest, 1, rest, 0, Space);
    assert (" " + rest)[0] == ' ' && Space(' ');
    assert RunEnd(" " + rest, 0, Space) == RunEnd(" " + rest, 1, Space);
  }

  lemma LexOne(text: string, token: Token, rest: string)
    requires text != "" && !Space(text[0]) && LexesBefore(text, token, rest)
    ensures Lex(text + rest, 0) == [token] + Lex(rest, 0)
  {
    LexShift(text, rest);
    assert (text + rest)[0] == text[0];
    assert RunEnd(text + rest, 0, Space) == 0;
  }

  lemma LexPiece(p: Piece, rest: string)
    requires Lexable(p) && Separated(rest)
    ensures Lex((if p.spaced then " " else "") + p.text + rest, 0) == [p.token] + Lex(rest, 0)
  {
    assert LexesBefore(p.text, p.token, rest);
    LexOne(p.text, p.token, rest);
    if p.spaced {
      LexBlank(p.text + rest);
      assert " " + (p.text + rest) == " " + p.text + rest;
    } else {
      assert "" + p.text + rest == p.text + rest;
    }
  }

  lemma PiecesThenSeparated(pieces: seq<Piece>, rest: string)
    requires AllLexable(pieces) && Separated(rest)
    ensures Separated(Printed(pieces) + rest)
  {
    TextSeparated(pieces);
    if Printed(pieces) == "" {
      assert Printed(pieces) + rest == rest;
    }
  }

  /** Lexemes come back as their tokens, and the text behind them is lexed as if alone. */
  lemma {:induction false} LexPieces(pieces: seq<Piece>, rest: string)
    requires AllLexable(pieces) && Separated(rest)
    ensures Lex(Printed(pieces) + rest, 0) == Tokens(pieces) + Lex(rest, 0)
    decreases |pieces|
  {
    hide Lex, Lexable, Separated;
    if pieces != [] {
      var p, more := pieces[0], Printed(pieces[1..]) + rest;
      PiecesThenSeparated(pieces[1..], rest);
      LexPieces(pieces[1..], rest);
      LexPiece(p, more);
      assert Printed(pieces) + rest == (if p.spaced then " " else "") + p.text + more;
    } else {
      assert "" + rest == rest;
    }
  }

  predicate EndsInk(text: string) {
    text != "" && !Space(text[|text| - 1])
  }

  lemma {:induction false} PrintedEndsInk(pieces: seq<Piece>)
    requires pieces != [] && EndsInk(pieces[|pieces| - 1].text)
    ensures EndsInk(Printed(pieces))
    decreases |pieces|
  {
    if |pieces| > 1 {
      PrintedEndsInk(pieces[1..]);
    } else {
      assert pieces[1..] == [];
    }
  }

  lemma {:induction false} TextAppend(a: seq<Piece>, b: seq<Piece>)
    ensures Printed(a + b) == Printed(a) + Printed(b) && Tokens(a + b) == Tokens(a) + Tokens(b)
    decreases |a|
  {
    if a == [] {
      assert a + b == b;
    } else {
      assert (a + b)[1..] == a[1..] + b;
      TextAppend(a[1..], b);
      var lead := (if a[0].spaced then " " else "") + a[0].text;
      assert lead + (Printed(a[1..]) + Printed(b)) == lead + Printed(a[1..]) + Printed(b);
      assert [a[0].token] + (Tokens(a[1..]) + Tokens(b)) == [a[0].token] + Tokens(a[1..]) + Tokens(b);
    }
  }

  lemma TrimKeeps(s: string)
    requires s != "" && !Space(s[0]) && !Space(s[|s| - 1])
    ensures Trim(s) == s
  {
    assert RunEnd(s, 0, Space) == 0 && s[0..] == s;
  }

  // ---------- words, numbers, operators ----------

  /** An undotted word that is not reserved. */
  predicate Identifier(word: string) {
    Word(word) && KeywordKind(word) == IDENTIFIER
  }

  predicate Word(word: string) {
    word != "" && WordStart(word[0]) && forall k :: 0 <= k < |word| ==> WordChar(word[k])
  }

  lemma {:induction false} RunStops(text: string, rest: string, i: nat, accept: char -> bool)
    requires i <= |text| && (forall k :: i <= k < |text| ==> accept(text[k]))
    requires rest == "" || !accept(rest[0])
    ensures RunEnd(text + rest, i, accept) == |text|
    decreases |text| - i
  {
    if i < |text| {
      assert (text + rest)[i] == text[i];
      RunStops(text, rest, i + 1, accept);
    } else {
      assert rest != "" ==> (text + rest)[i] == rest[0];
    }
  }

  lemma WordLexable(word: string)
    requires Word(word)
    ensures Lexable(Piece(true, word, Token(KeywordKind(word), word)))
  {
    forall rest | Separated(rest)
      ensures LexesBefore(word, Token(KeywordKind(word), word), rest)
    {
      RunStops(word, rest, 0, WordChar);
      var s := word + rest;
      assert s[0] == word[0];
      assert s[0..|word|] == word;
      assert ReadWord(s, 0) == Read(word, |word|);
      assert |word| < |s| ==> s[|word|] == rest[0];
      assert ReadDotted(s, Read(word, |word|)) == Read(word, |word|);
    }
  }

  /** A number as the lexer reads it: a digit, then digits and dots. */
  predicate NumberText(text: string) {
    text != "" && Digit(text[0]) && forall k :: 0 <= k < |text| ==> NumberChar(text[k])
  }

  lemma NumberLexable(text: string)
    requires NumberText(text)
    ensures Lexable(Piece(true, text, Token(NUMBER, text)))
  {
    forall rest | Separated(rest)
      ensures LexesBefore(text, Token(NUMBER, text), rest)
    {
      RunStops(text, rest, 0, NumberChar);
      assert (text + rest)[0] == text[0];
      assert (text + rest)[0..|text|] == text;
    }
  }

  lemma CommaLexable()
    ensures Lexable(Piece(false, ",", Token(COMMA, ",")))
  {
    forall rest | Separated(rest)
      ensures LexesBefore(",", Token(COMMA, ","), rest)
    {
      assert ("," + rest)[0] == ',';
    }
  }

  // ---------- string literals ----------

  /** `replaceAll("'", "''")` */
  function Doubled(text: string): string {
    if text == "" then ""
    else (if text[0] == '\'' then "''" else [text[0]]) + Doubled(text[1..])
  }

  /** A doubled literal reads back as the text, whatever it holds. */
  lemma {:induction false} DoubledReads(text: string, rest: string)
    requires rest == "" || rest[0] != '\''
    ensures ReadQuoted(Doubled(text) + ("'" + rest), 0, '\'') == Read(text, |Doubled(text)| + 1)
    decreases |text|
  {
    var s := Doubled(text) + ("'" + rest);
    if text == "" {
      assert s == "'" + rest;
      assert rest != "" ==> s[1] == rest[0];
    } else {
      var lead := if text[0] == '\'' then "''" else [text[0]];
      var tail := Doubled(text[1..]) + ("'" + rest);
      assert s == lead + tail;
      DoubledReads(text[1..], rest);
      ReadQuotedShift(s, |lead|, tail, 0, '\'');
      assert s[0] == lead[0] && (|lead| == 2 ==> s[1] == '\'');
      assert text == [text[0]] + text[1..];
    }
  }

  /** The tag's quoting is complete: a value quoted by `sqlValue` is one STRING token equal
      to it, and the statement goes on behind it as if it stood alone. */
  lemma QuotedValueLexes(text: string, rest: string)
    requires rest == "" || rest[0] != '\''
    ensures Lex("'" + Doubled(text) + "'" + rest, 0) == [Token(STRING, text)] + Lex(rest, 0)
  {
    DoubledReads(text, rest);
    LiteralStep(Doubled(text), text, rest);
    LexOne("'" + Doubled(text) + "'", Token(STRING, text), rest);
  }

  lemma QuotedBody(body: string, text: string, rest: string)
    requires ReadQuoted(body + ("'" + rest), 0, '\'') == Read(text, |body| + 1)
    ensures ReadQuoted("'" + (body + ("'" + rest)), 1, '\'') == Read(text, |body| + 2)
  {
    ReadQuotedShift("'" + (body + ("'" + rest)), 1, body + ("'" + rest), 0, '\'');
  }

  lemma LiteralStep(body: string, text: string, rest: string)
    requires ReadQuoted(body + ("'" + rest), 0, '\'') == Read(text, |body| + 1)
    ensures LexesBefore("'" + body + "'", Token(STRING, text), rest)
  {
    QuotedBody(body, text, rest);
    Regroup(body, rest);
    var whole := "'" + (body + ("'" + rest));
    QuoteStep(whole, Read(text, |body| + 2));
    StepsBefore("'" + body + "'", Token(STRING, text), rest, whole);
  }

  lemma Regroup(body: string, rest: string)
    ensures "'" + (body + ("'" + rest)) == "'" + body + "'" + rest && |"'" + body + "'"| == |body| + 2
  {
  }

  lemma StepsBefore(text: string, token: Token, rest: string, whole: string)
    requires text != "" && whole == text + rest && LexStep(whole, 0) == Step(Some(token), |text|)
    ensures LexesBefore(text, token, rest)
  {
  }

  lemma QuoteStep(whole: string, read: Read)
    requires whole != "" && whole[0] == '\'' && ReadQuoted(whole, 1, '\'') == read
    ensures LexStep(whole, 0) == Step(Some(Token(STRING, read.value)), read.next)
  {
  }

  lemma {:induction false} DoubledPlain(text: string)
    requires '\'' !in text
    ensures Doubled(text) == text
  {
    if text != "" {
      assert '\'' !in text[1..];
      DoubledPlain(text[1..]);
    }
  }

  lemma StringLexable(text: string)
    requires '\'' !in text
    ensures Lexable(Piece(true, "'" + text + "'", Token(STRING, text)))
  {
    var quoted := "'" + text + "'";
    assert quoted[0] == '\'' && quoted[|quoted| - 1] == '\'';
    DoubledPlain(text);
    forall rest | Separated(rest)
      ensures LexesBefore(quoted, Token(STRING, text), rest)
    {
      DoubledReads(text, rest);
      LiteralStep(text, text, rest);
    }
  }

  predicate QuoteAtEndOnly(text: string) {
    text != "" && text[|text| - 1] == '\'' && '\'' !in text[..|text| - 1]
  }

  /** What a literal reads as when the printer put quotes around it without doubling. */
  function Reread(text: string, rest: string): string {
    ReadQuoted(text + ("'" + rest), 0, '\'').value
  }

  lemma RereadChar(text: string, rest: string)
    requires text != "" && text[0] != '\''
    ensures Reread(text, rest) == [text[0]] + Reread(text[1..], rest)
  {
    var s, tail := text + ("'" + rest), text[1..] + ("'" + rest);
    assert s == [text[0]] + tail;
    ReadQuotedShift(s, 1, tail, 0, '\'');
  }

  lemma RereadPair(text: string, rest: string)
    requires |text| >= 2 && text[0] == text[1] == '\''
    ensures Reread(text, rest) == "'" + Reread(text[2..], rest)
  {
    var s, tail := text + ("'" + rest), text[2..] + ("'" + rest);
    assert s == text[..2] + tail;
    ReadQuotedShift(s, 2, tail, 0, '\'');
  }

  /** A quote before anything but a quote closes the literal; the last one is doubled by
      the printed quote, and the literal goes on. */
  lemma RereadQuote(text: string, rest: string)
    requires text != "" && text[0] == '\'' && (|text| > 1 ==> text[1] != '\'')
    ensures |text| > 1 ==> Reread(text, rest) == ""
    ensures |text| == 1 ==> Reread(text, rest) == "'" + ReadQuoted(rest, 0, '\'').value
  {
    var s := text + ("'" + rest);
    assert s[0] == '\'' && s[1] == (if |text| > 1 then text[1] else '\'');
    if |text| == 1 {
      assert s == "''" + rest;
      ReadQuotedShift(s, 2, rest, 0, '\'');
    }
  }

  lemma RereadNothing(rest: string)
    requires rest == "" || rest[0] != '\''
    ensures Reread("", rest) == ""
    ensures ReadQuoted(rest, 0, '\'').value == "" <==> rest == ""
    ensures rest != "" ==> ReadQuoted(rest, 0, '\'').value[0] != '\''
  {
    assert "" + ("'" + rest) == "'" + rest;
    assert rest != "" ==> ("'" + rest)[1] == rest[0];
  }

  predicate Quotes(text: string) {
    text != "" && forall i :: 0 <= i < |text| ==> text[i] == '\''
  }

  /** No undoubled text reads back with quotes added in front. */
  lemma {:induction false} NeverMoreQuotes(more: string, text: string, rest: string)
    requires Quotes(more) && (rest == "" || rest[0] != '\'')
    ensures Reread(text, rest) != more + text
    decreases |text|
  {
    assert (more + text)[0] == '\'';
    RereadNothing(rest);
    if text == "" {
    } else if text[0] != '\'' {
      RereadChar(text, rest);
    } else if |text| > 1 && text[1] == '\'' {
      RereadPair(text, rest);
      var more' := more + "'";
      NeverMoreQuotes(more', text[2..], rest);
      assert text == "''" + text[2..];
      assert more' == "'" + more;
      assert more + text == "'" + (more' + text[2..]);
      assert (more + text)[1..] == more' + text[2..];
      assert Reread(text, rest)[1..] == Reread(text[2..], rest);
    } else {
      RereadQuote(text, rest);
      if |text| == 1 {
        assert (more + text)[1] == '\'';
      }
    }
  }

  /** `toSQL` puts quotes around a string without doubling: before anything but another
      quote that reads back exactly when the string holds none, or at the end of the text
      also when its only quote is its last character. */
  lemma {:induction false} UndoubledReadsExactly(text: string, rest: string)
    requires rest == "" || rest[0] != '\''
    ensures Reread(text, rest) == text <==> '\'' !in text || (rest == "" && QuoteAtEndOnly(text))
    decreases |text|
  {
    RereadNothing(rest);
    if text == "" {
    } else if text[0] != '\'' {
      RereadChar(text, rest);
      UndoubledReadsExactly(text[1..], rest);
      assert text == [text[0]] + text[1..];
      if |text| > 1 {
        assert text[..|text| - 1] == [text[0]] + text[1..][..|text[1..]| - 1];
      }
    } else if |text| > 1 && text[1] == '\'' {
      RereadPair(text, rest);
      NeverMoreQuotes("'", text[2..], rest);
      assert text == "'" + ("'" + text[2..]);
      assert text[..|text| - 1][0] == '\'';
    } else {
      RereadQuote(text, rest);
      if |text| == 1 {
        assert text == "'" && text[..0] == "";
      } else {
        assert text[..|text| - 1][0] == '\'';
      }
    }
  }

  /** Where reading such a literal stops. */
  lemma UndoubledStops(text: string, rest: string)
    requires rest == "" || rest[0] != '\''
    requires '\'' !in text || (rest == "" && QuoteAtEndOnly(text))
    ensures ReadQuoted(text + ("'" + rest), 0, '\'') == Read(text, |text| + 1)
  {
    hide ReadQuoted;
    if '\'' !in text {
      DoubledPlain(text);
      DoubledReads(text, rest);
    } else {
      LastQuoteRead(text);
      assert "'" + rest == "'";
    }
  }

  lemma LastQuoteRead(text: string)
    requires QuoteAtEndOnly(text)
    ensures ReadQuoted(text + "'", 0, '\'') == Read(text, |text| + 1)
  {
    hide ReadQuoted;
    UndoubledReadsExactly(text, "");
    var init := text[..|text| - 1];
    LastQuoteStops(init);
    assert text + "'" == init + "''";
    assert "'" + "" == "'";
  }

  lemma {:induction false} LastQuoteStops(init: string)
    requires '\'' !in init
    ensures ReadQuoted(init + "''", 0, '\'').next == |init| + 2
    decreases |init|
  {
    var s := init + "''";
    if init == "" {
      assert s == "''";
    } else {
      assert s == [init[0]] + (init[1..] + "''");
      assert init[0] in init && '\'' !in init[1..];
      LastQuoteStops(init[1..]);
      ReadQuotedShift(s, 1, init[1..] + "''", 0, '\'');
    }
  }
}
