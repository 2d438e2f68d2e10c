/** Printing a query and parsing the text: what a printable query reads back as. */
module SqlRoundTrip {
  import opened Common
  import opened SqlLexer
  import opened SqlParser
  import opened SqlPieces
  import opened SqlPrint
  import Decimal
  import SqlWhere

  // ---------- every piece can be lexed ----------

  predicate Letters(word: string) {
    forall k :: 0 <= k < |word| ==> 'A' <= word[k] <= 'Z'
  }

  lemma UpperLetters(word: string)
    requires Letters(word)
    ensures Upper(word) == word
  {
  }

  lemma Reserved(word: string)
    requires word in ["SELECT", "FROM", "WHERE", "GROUP", "BY", "LIMIT", "AND", "LIKE"]
    ensures Word(word) && Letters(word) && Lexable(WordPiece(word))
    ensures KeywordKind(word) ==
      (match word
       case "SELECT" => SELECT
       case "FROM" => FROM
       case "WHERE" => WHERE
       case "GROUP" => GROUP
       case "BY" => BY
       case "LIMIT" => LIMIT
       case "AND" => AND
       case _ => LIKE)
  {
    UpperLetters(word);
    WordLexable(word);
  }

  lemma LowerWord(word: string, upper: string)
    requires |word| == |upper| && forall k :: 0 <= k < |word| ==> UpperChar(word[k]) == upper[k]
    ensures Upper(word) == upper
  {
  }

  lemma BooleanWord(b: bool)
    ensures
      var word := LiteralText(Boolean(b));
      Word(word) && KeywordKind(word) == BOOLEAN && (Upper(word) == "TRUE" <==> b)
  {
    hide KeywordKind;
    if b {
      LowerWord("true", "TRUE");
      TrueWord("true");
    } else {
      LowerWord("false", "FALSE");
      FalseWord("false");
    }
  }

  lemma TrueWord(word: string)
    requires Upper(word) == "TRUE"
    ensures KeywordKind(word) == BOOLEAN
  {
    hide Upper;
  }

  lemma FalseWord(word: string)
    requires Upper(word) == "FALSE"
    ensures KeywordKind(word) == BOOLEAN
  {
    hide Upper;
  }

  lemma NullWord()
    ensures Word("null") && KeywordKind("null") == NULL
  {
    LowerWord("null", "NULL");
  }

  lemma LiteralLexable(value: Literal)
    requires PrintableLiteral(value)
    ensures Lexable(Piece(true, LiteralText(value), LiteralToken(value)))
  {
    match value
    case Text(s) => StringLexable(s);
    case Number(text) => NumberLexable(text);
    case Boolean(b) =>
      BooleanWord(b);
      WordLexable(LiteralText(value));
    case Null =>
      NullWord();
      WordLexable("null");
  }

  lemma LiteralBack(value: Literal)
    ensures LiteralOf(LiteralToken(value)) == Some(value)
  {
    if value.Boolean? {
      BooleanWord(value.b);
    }
  }

  lemma OperatorLexable(operator: Operator)
    ensures Lexable(Piece(true, OperatorText(operator), Token(OperatorKind(operator), OperatorText(operator))))
    ensures OperatorOf(OperatorKind(operator)) == Some(operator)
  {
    var text, token := OperatorText(operator), Token(OperatorKind(operator), OperatorText(operator));
    if operator == Like {
      Reserved("LIKE");
    } else {
      hide Upper, KeywordKind, LexesBefore;
      forall rest | Separated(rest)
        ensures LexesBefore(text, token, rest)
      {
        SymbolLexes(operator, rest);
      }
    }
  }

  lemma SymbolLexes(operator: Operator, rest: string)
    requires operator != Like && Separated(rest)
    ensures LexesBefore(OperatorText(operator), Token(OperatorKind(operator), OperatorText(operator)), rest)
  {
    var text := OperatorText(operator);
    var s := text + rest;
    assert s[0] == text[0];
    assert |text| == 2 ==> s[1] == text[1];
    assert |text| == 1 && rest != "" ==> s[1] == rest[0];
  }

  lemma StarLexable()
    ensures Lexable(Piece(true, "*", Token(ASTERISK, "*")))
  {
    forall rest | Separated(rest)
      ensures LexesBefore("*", Token(ASTERISK, "*"), rest)
    {
      assert ("*" + rest)[0] == '*';
    }
  }

  lemma ConditionLexable(c: Condition)
    requires PrintableCondition(c)
    ensures AllLexable(ConditionPieces(c))
  {
    WordLexable(c.column);
    OperatorLexable(c.operator);
    LiteralLexable(c.value);
  }

  predicate AllPrintable(conditions: seq<Condition>) {
    forall i :: 0 <= i < |conditions| ==> PrintableCondition(conditions[i])
  }

  lemma AllLexableAppend(a: seq<Piece>, b: seq<Piece>)
    requires AllLexable(a) && AllLexable(b)
    ensures AllLexable(a + b)
  {
  }

  lemma {:induction false} ChainLexable(conditions: seq<Condition>)
    requires conditions != [] && AllPrintable(conditions)
    ensures AllLexable(ChainPieces(conditions))
    decreases |conditions|
  {
    ConditionLexable(conditions[0]);
    if |conditions| > 1 {
      Reserved("AND");
      ChainLexable(conditions[1..]);
      AllLexableAppend(ConditionPieces(conditions[0]), [WordPiece("AND")]);
      AllLexableAppend(ConditionPieces(conditions[0]) + [WordPiece("AND")], ChainPieces(conditions[1..]));
    }
  }

  lemma {:induction false} ColumnsLexable(names: seq<string>)
    requires names != [] && AllIdentifiers(names)
    ensures AllLexable(ColumnPieces(names))
    decreases |names|
  {
    WordLexable(names[0]);
    if |names| > 1 {
      CommaLexable();
      ColumnsLexable(names[1..]);
      AllLexableAppend([WordPiece(names[0]), Piece(false, ",", Token(COMMA, ","))], ColumnPieces(names[1..]));
    }
  }

  lemma NumberOfLimit(n: nat)
    ensures NumberText(Decimal.Text(n)) && ParseInt(Decimal.Text(n)) == n
  {
    Decimal.RoundTrip(n);
    var text := Decimal.Text(n);
    assert forall k :: 0 <= k < |text| ==> text[k] in text;
    RunStops(text, "", 0, Digit);
    assert text + "" == text && text[..|text|] == text;
  }

  lemma SelectLexable(q: Query)
    requires Filled(q) && Named(q)
    ensures AllLexable(SelectPieces(q))
  {
    if q.select.Some? {
      ColumnsLexable(q.select.value);
    } else {
      StarLexable();
    }
  }

  lemma NameLexable(name: string)
    requires Identifier(name)
    ensures Lexable(WordPiece(name))
  {
    hide KeywordKind, Lexable;
    WordLexable(name);
  }

  lemma HeadLexable(q: Query)
    requires Filled(q) && Named(q)
    ensures AllLexable(HeadPieces(q))
  {
    hide Lexable, Identifier, Word, Letters, KeywordKind, ColumnPieces;
    Reserved("SELECT");
    Reserved("FROM");
    NameLexable(q.collection);
    SelectLexable(q);
    AllLexableAppend([WordPiece("SELECT")], SelectPieces(q));
    AllLexableAppend([WordPiece("SELECT")] + SelectPieces(q), [WordPiece("FROM"), WordPiece(q.collection)]);
  }

  lemma TailLexable(q: Query)
    requires Filled(q) && Named(q)
    ensures AllLexable(GroupPieces(q)) && AllLexable(LimitPieces(q))
  {
    hide Lexable, Word, Letters, KeywordKind, Decimal.Text;
    if q.groupBy.Some? {
      Reserved("GROUP");
      Reserved("BY");
      WordLexable(q.groupBy.value);
    }
    if q.limit.Some? {
      Reserved("LIMIT");
      NumberOfLimit(q.limit.value);
      NumberLexable(Decimal.Text(q.limit.value));
    }
  }

  function LiteralPiece(value: Literal): Piece {
    Piece(true, LiteralText(value), LiteralToken(value))
  }

  /** The pieces of a chain before its last literal. */
  function ChainFront(conditions: seq<Condition>): seq<Piece>
    requires conditions != []
    decreases |conditions|
  {
    if |conditions| == 1 then ConditionPieces(conditions[0])[..2]
    else ConditionPieces(conditions[0]) + [WordPiece("AND")] + ChainFront(conditions[1..])
  }

  lemma {:induction false} ChainLiteral(conditions: seq<Condition>)
    requires conditions != []
    ensures ChainPieces(conditions) == ChainFront(conditions) + [LiteralPiece(conditions[|conditions| - 1].value)]
    decreases |conditions|
  {
    if |conditions| > 1 {
      ChainLiteral(conditions[1..]);
      var lead, last := ConditionPieces(conditions[0]) + [WordPiece("AND")], [LiteralPiece(conditions[|conditions| - 1].value)];
      assert lead + (ChainFront(conditions[1..]) + last) == lead + ChainFront(conditions[1..]) + last;
    }
  }

  /** Up to the last literal a chain can be lexed whatever that literal is. */
  lemma {:induction false} ChainFrontLexable(conditions: seq<Condition>)
    requires conditions != [] && AllNamed(conditions)
    requires forall i :: 0 <= i < |conditions| - 1 ==> PrintableLiteral(conditions[i].value)
    ensures AllLexable(ChainFront(conditions))
    decreases |conditions|
  {
    var c := conditions[0];
    if |conditions| > 1 {
      ConditionLexable(c);
      Reserved("AND");
      ChainFrontLexable(conditions[1..]);
      AllLexableAppend(ConditionPieces(c), [WordPiece("AND")]);
      AllLexableAppend(ConditionPieces(c) + [WordPiece("AND")], ChainFront(conditions[1..]));
    } else {
      WordLexable(c.column);
      OperatorLexable(c.operator);
    }
  }

  /** Everything before the conditions. */
  function BeforeChain(q: Query): seq<Piece>
    requires Filled(q)
  {
    HeadPieces(q) + [WordPiece("WHERE")]
  }

  lemma BeforeChainLexable(q: Query)
    requires Filled(q) && Named(q)
    ensures AllLexable(BeforeChain(q))
  {
    HeadLexable(q);
    Reserved("WHERE");
    AllLexableAppend(HeadPieces(q), [WordPiece("WHERE")]);
  }

  function AfterWhere(q: Query): seq<Piece> {
    GroupPieces(q) + LimitPieces(q)
  }

  lemma AfterWhereLexable(q: Query)
    requires Filled(q) && Named(q)
    ensures AllLexable(AfterWhere(q))
  {
    TailLexable(q);
    AllLexableAppend(GroupPieces(q), LimitPieces(q));
  }

  lemma PiecesWithWhere(q: Query)
    requires Filled(q) && q.ops.Some?
    ensures AllConditions(q.ops.value) != []
    ensures Pieces(q) == BeforeChain(q) + ChainPieces(AllConditions(q.ops.value)) + AfterWhere(q)
  {
    hide ChainPieces, HeadPieces, GroupPieces, LimitPieces, AllConditions;
    OpsFlat(q.ops.value);
    var chain := ChainPieces(AllConditions(q.ops.value));
    assert HeadPieces(q) + ([WordPiece("WHERE")] + chain) + GroupPieces(q) + LimitPieces(q)
        == HeadPieces(q) + [WordPiece("WHERE")] + chain + (GroupPieces(q) + LimitPieces(q));
  }

  lemma LiteralInk(value: Literal)
    requires value.Number? ==> NumberText(value.text)
    ensures EndsInk(LiteralText(value))
  {
  }

  predicate NumbersRead(conditions: seq<Condition>) {
    forall i :: 0 <= i < |conditions| && conditions[i].value.Number? ==> NumberText(conditions[i].value.text)
  }

  lemma LastPieceInk(q: Query)
    requires Filled(q) && Named(q) && (q.ops.Some? ==> NumbersRead(AllConditions(q.ops.value)))
    ensures Pieces(q) != [] && EndsInk(Pieces(q)[|Pieces(q)| - 1].text)
  {
    hide KeywordKind, ChainPieces, ChainFront, AllConditions, LiteralText;
    var last := Pieces(q)[|Pieces(q)| - 1];
    if q.limit.Some? {
      NumberOfLimit(q.limit.value);
      assert last == LimitPieces(q)[1];
    } else if q.groupBy.Some? {
      assert last == GroupPieces(q)[2];
    } else if q.ops.Some? {
      var conditions := AllConditions(q.ops.value);
      PiecesWithWhere(q);
      ChainLiteral(conditions);
      LiteralInk(conditions[|conditions| - 1].value);
      assert AfterWhere(q) == [];
    } else {
      assert last == WordPiece(q.collection);
    }
  }

  /** Nothing is trimmed off a printed statement. */
  lemma PrintedIsTrimmed(q: Query)
    requires Filled(q) && Named(q) && (q.ops.Some? ==> NumbersRead(AllConditions(q.ops.value)))
    ensures Trim(ToSQL(q)) == ToSQL(q) && Lex(ToSQL(q), 0) == Lex(Printed(Pieces(q)), 0)
  {
    hide Pieces, ToSQL, Printed, Trim, Lex, Filled, Named, NumbersRead;
    var sql := ToSQL(q);
    PiecesPrinted(q);
    LastPieceInk(q);
    PrintedEndsInk(Pieces(q));
    StartsWithSelect(q);
    var text := " " + sql;
    assert text[|text| - 1] == sql[|sql| - 1];
    TrimKeeps(sql);
    LexBlank(sql);
  }

  lemma StartsWithSelect(q: Query)
    ensures ToSQL(q) != "" && ToSQL(q)[0] == 'S'
  {
    hide SelectText, WhereText, GroupText, LimitText;
  }

  lemma LexToEnd(pieces: seq<Piece>)
    requires AllLexable(pieces)
    ensures Lex(Printed(pieces), 0) == Tokens(pieces) + [Token(EOF, "")]
  {
    LexPieces(pieces, "");
    LexEnds("", 0);
    assert Printed(pieces) + "" == Printed(pieces);
  }

  /** The first token of a literal with what follows it. */
  lemma StringRead(s: string, rest: string)
    ensures Lex(" '" + s + "'" + rest, 0) != []
    ensures Lex(" '" + s + "'" + rest, 0)[0] == Token(STRING, Reread(s, rest))
  {
    hide ReadQuoted, Lex;
    var inner := s + ("'" + rest);
    var whole := "'" + inner;
    assert " " + whole == " '" + s + "'" + rest;
    LexBlank(whole);
    ReadQuotedShift(whole, 1, inner, 0, '\'');
    QuoteStep(whole, ReadQuoted(whole, 1, '\''));
    LexUnfold(whole, 0, 0, LexStep(whole, 0));
  }

  /** A string whose only quote is its last character reads back at the end of the text. */
  lemma StringAtEnd(s: string)
    requires QuoteAtEndOnly(s)
    ensures Lex(" '" + s + "'", 0) == [Token(STRING, s), Token(EOF, "")]
  {
    UndoubledStops(s, "");
    LiteralStep(s, s, "");
    var quoted := "'" + s + "'";
    assert " '" + s + "'" == " " + quoted && quoted + "" == quoted;
    LexOne(quoted, Token(STRING, s), "");
    LexBlank(quoted);
    LexEnds("", 0);
  }

  lemma QuotedLast(pieces: seq<Piece>, s: string)
    requires AllLexable(pieces) && QuoteAtEndOnly(s)
    ensures Lex(Printed(pieces + [LiteralPiece(Text(s))]), 0)
         == Tokens(pieces + [LiteralPiece(Text(s))]) + [Token(EOF, "")]
  {
    hide Lex, AllLexable, QuoteAtEndOnly;
    var last := LiteralPiece(Text(s));
    TextAppend(pieces, [last]);
    TextOne(last);
    TokensOne(last);
    StringAtEnd(s);
    var quoted := " '" + s + "'";
    assert " " + ("'" + s + "'") == quoted;
    LexPieces(pieces, quoted);
    assert Tokens(pieces) + [last.token] + [Token(EOF, "")] == Tokens(pieces) + [Token(STRING, s), Token(EOF, "")];
  }

  lemma WithoutWhereLexes(q: Query)
    requires Printable(q) && q.ops.None?
    ensures Lex(Printed(Pieces(q)), 0) == Tokens(Pieces(q)) + [Token(EOF, "")]
  {
    HeadLexable(q);
    TailLexable(q);
    AllLexableAppend(HeadPieces(q), GroupPieces(q));
    AllLexableAppend(HeadPieces(q) + GroupPieces(q), LimitPieces(q));
    assert HeadPieces(q) + [] == HeadPieces(q);
    LexToEnd(Pieces(q));
  }

  lemma WithWhereLexes(q: Query)
    requires Printable(q) && q.ops.Some?
    ensures Lex(Printed(Pieces(q)), 0) == Tokens(Pieces(q)) + [Token(EOF, "")]
  {
    hide BeforeChain, ChainPieces, AfterWhere, Lexable, Pieces, Filled, FilledOps;
    var conditions := AllConditions(q.ops.value);
    PiecesWithWhere(q);
    BeforeChainLexable(q);
    AfterWhereLexable(q);
    var last := conditions[|conditions| - 1].value;
    if PrintableLiteral(last) {
      ChainLexable(conditions);
      AllLexableAppend(BeforeChain(q), ChainPieces(conditions));
      AllLexableAppend(BeforeChain(q) + ChainPieces(conditions), AfterWhere(q));
      LexToEnd(Pieces(q));
    } else {
      ChainLiteral(conditions);
      ChainFrontLexable(conditions);
      NothingAfterWhere(q);
      AllLexableAppend(BeforeChain(q), ChainFront(conditions));
      QuotedLast(BeforeChain(q) + ChainFront(conditions), last.s);
      assert Pieces(q) == BeforeChain(q) + ChainFront(conditions) + [LiteralPiece(last)];
    }
  }

  lemma NothingAfterWhere(q: Query)
    requires WhereEndsText(q)
    ensures AfterWhere(q) == []
  {
  }

  /** The printed statement lexes to the tokens of its pieces. */
  lemma PrintedLexes(q: Query)
    requires Printable(q)
    ensures Lex(Trim(ToSQL(q)), 0) == Tokens(Pieces(q)) + [Token(EOF, "")]
  {
    PrintedIsTrimmed(q);
    if q.ops.Some? {
      WithWhereLexes(q);
    } else {
      WithoutWhereLexes(q);
    }
  }

  // ---------- parsing the tokens ----------

  /** `part` stands at `i`. */
  predicate Holds(tokens: seq<Token>, i: nat, part: seq<Token>) {
    i + |part| <= |tokens| && forall j :: 0 <= j < |part| ==> tokens[i + j] == part[j]
  }

  lemma HoldsSplit(tokens: seq<Token>, i: nat, a: seq<Token>, b: seq<Token>)
    requires Holds(tokens, i, a + b)
    ensures Holds(tokens, i, a) && Holds(tokens, i + |a|, b)
  {
    forall j | 0 <= j < |a|
      ensures tokens[i + j] == a[j]
    {
      assert (a + b)[j] == a[j];
    }
    forall j | 0 <= j < |b|
      ensures tokens[i + |a| + j] == b[j]
    {
      assert (a + b)[|a| + j] == b[j] && tokens[i + (|a| + j)] == (a + b)[|a| + j];
    }
  }

  lemma TokensOne(a: Piece)
    ensures Tokens([a]) == [a.token]
  {
    assert [a][1..] == [];
  }

  lemma TokensTwo(a: Piece, b: Piece)
    ensures Tokens([a, b]) == [a.token, b.token]
  {
    assert [a, b][1..] == [b];
    TokensOne(b);
  }

  lemma ColumnStep(tokens: seq<Token>, i: nat, name: string, done: seq<string>)
    requires i < |tokens| && tokens[i] == Token(IDENTIFIER, name)
    ensures ColumnLoop(tokens, i, done) ==
      if Peek(tokens, i + 1).kind == COMMA then ColumnLoop(tokens, i + 2, done + [name])
      else Ok(Columns(done + [name], i + 1))
  {
  }

  lemma ColumnHead(tokens: seq<Token>, i: nat, name: string, rest: seq<string>)
    requires rest != [] && Identifier(name) && Holds(tokens, i, Tokens(ColumnPieces([name] + rest)))
    ensures i + 1 < |tokens| && tokens[i] == Token(IDENTIFIER, name) && tokens[i + 1].kind == COMMA
    ensures Holds(tokens, i + 2, Tokens(ColumnPieces(rest)))
    ensures |Tokens(ColumnPieces([name] + rest))| == 2 + |Tokens(ColumnPieces(rest))|
  {
    var first, comma := WordPiece(name), Piece(false, ",", Token(COMMA, ","));
    assert ([name] + rest)[1..] == rest;
    TextAppend([first, comma], ColumnPieces(rest));
    TokensTwo(first, comma);
    var lead := [first.token, comma.token];
    HoldsSplit(tokens, i, lead, Tokens(ColumnPieces(rest)));
    assert tokens[i + 0] == lead[0] && tokens[i + 1] == lead[1];
  }

  lemma ColumnLast(tokens: seq<Token>, i: nat, name: string)
    requires Identifier(name) && Holds(tokens, i, Tokens(ColumnPieces([name])))
    ensures i < |tokens| && tokens[i] == Token(IDENTIFIER, name) && |Tokens(ColumnPieces([name]))| == 1
  {
    TokensOne(WordPiece(name));
    assert tokens[i + 0] == [WordPiece(name).token][0];
  }

  lemma {:induction false} ColumnsParsed(tokens: seq<Token>, i: nat, names: seq<string>, done: seq<string>)
    requires names != [] && AllIdentifiers(names)
    requires Holds(tokens, i, Tokens(ColumnPieces(names)))
    requires Peek(tokens, i + |Tokens(ColumnPieces(names))|).kind != COMMA
    ensures ColumnLoop(tokens, i, done) == Ok(Columns(done + names, i + |Tokens(ColumnPieces(names))|))
    decreases |names|
  {
    hide WordPiece, Identifier, Tokens, ColumnPieces, Holds, ColumnLoop;
    var name, rest := names[0], names[1..];
    assert names == [name] + rest;
    if rest != [] {
      ColumnHead(tokens, i, name, rest);
      ColumnStep(tokens, i, name, done);
      ColumnsParsed(tokens, i + 2, rest, done + [name]);
      assert done + [name] + rest == done + names;
    } else {
      assert names == [name];
      ColumnLast(tokens, i, name);
      ColumnStep(tokens, i, name, done);
    }
  }

  function PutAll(conjunction: Conjunction, conditions: seq<Condition>): Conjunction
    decreases |conditions|
  {
    if conditions == [] then conjunction else PutAll(Put(conjunction, conditions[0]), conditions[1..])
  }

  lemma ConditionTokens(c: Condition)
    ensures Tokens(ConditionPieces(c)) ==
      [WordPiece(c.column).token, Token(OperatorKind(c.operator), OperatorText(c.operator)), LiteralToken(c.value)]
  {
    var p := ConditionPieces(c);
    assert p[1..] == [p[1], p[2]];
    TokensTwo(p[1], p[2]);
  }

  lemma ConditionParsed(tokens: seq<Token>, i: nat, c: Condition)
    requires Identifier(c.column) && Holds(tokens, i, Tokens(ConditionPieces(c)))
    ensures ParseCondition(tokens, i) == Ok(c)
  {
    ConditionTokens(c);
    var part := Tokens(ConditionPieces(c));
    assert tokens[i + 0] == part[0] && tokens[i + 1] == part[1] && tokens[i + 2] == part[2];
    OperatorLexable(c.operator);
    LiteralBack(c.value);
  }

  lemma LoopGoesOn(tokens: seq<Token>, i: nat, c: Condition, conjunction: Conjunction)
    requires ParseCondition(tokens, i) == Ok(c) && Peek(tokens, i + 3).kind == AND
    ensures WhereLoop(tokens, i, [], conjunction) == WhereLoop(tokens, i + 4, [], Put(conjunction, c))
  {
  }

  lemma LoopEnds(tokens: seq<Token>, i: nat, c: Condition, conjunction: Conjunction)
    requires ParseCondition(tokens, i) == Ok(c)
    requires Peek(tokens, i + 3).kind != AND && Peek(tokens, i + 3).kind != OR
    ensures WhereLoop(tokens, i, [], conjunction) == Ok(Where([Put(conjunction, c)], i + 3))
  {
    assert [] + [Put(conjunction, c)] == [Put(conjunction, c)];
  }

  lemma ChainTokens(c: Condition, rest: seq<Condition>)
    requires rest != []
    ensures |Tokens(ConditionPieces(c))| == 3
    ensures Tokens(ChainPieces([c] + rest)) == Tokens(ConditionPieces(c)) + [Token(AND, "AND")] + Tokens(ChainPieces(rest))
  {
    assert ([c] + rest)[1..] == rest;
    ConditionTokens(c);
    Reserved("AND");
    TokensOne(WordPiece("AND"));
    TextAppend(ConditionPieces(c) + [WordPiece("AND")], ChainPieces(rest));
    TextAppend(ConditionPieces(c), [WordPiece("AND")]);
  }

  lemma ChainHead(tokens: seq<Token>, i: nat, c: Condition, rest: seq<Condition>)
    requires rest != [] && Identifier(c.column)
    requires Holds(tokens, i, Tokens(ChainPieces([c] + rest)))
    ensures ParseCondition(tokens, i) == Ok(c) && Peek(tokens, i + 3).kind == AND
    ensures Holds(tokens, i + 4, Tokens(ChainPieces(rest)))
    ensures |Tokens(ChainPieces([c] + rest))| == 4 + |Tokens(ChainPieces(rest))|
  {
    ChainTokens(c, rest);
    var conj := [Token(AND, "AND")];
    HoldsSplit(tokens, i, Tokens(ConditionPieces(c)) + conj, Tokens(ChainPieces(rest)));
    HoldsSplit(tokens, i, Tokens(ConditionPieces(c)), conj);
    ConditionParsed(tokens, i, c);
    assert tokens[i + 3 + 0] == conj[0];
  }

  lemma ChainLast(tokens: seq<Token>, i: nat, c: Condition)
    requires Identifier(c.column) && Holds(tokens, i, Tokens(ChainPieces([c])))
    ensures ParseCondition(tokens, i) == Ok(c) && |Tokens(ChainPieces([c]))| == 3
  {
    ConditionTokens(c);
    ConditionParsed(tokens, i, c);
  }

  lemma {:induction false} ChainParsed(tokens: seq<Token>, i: nat, conditions: seq<Condition>, conjunction: Conjunction)
    requires conditions != [] && AllNamed(conditions)
    requires Holds(tokens, i, Tokens(ChainPieces(conditions)))
    requires
      var after := Peek(tokens, i + |Tokens(ChainPieces(conditions))|).kind;
      after != AND && after != OR
    ensures WhereLoop(tokens, i, [], conjunction)
         == Ok(Where([PutAll(conjunction, conditions)], i + |Tokens(ChainPieces(conditions))|))
    decreases |conditions|
  {
    hide ConditionPieces, Identifier, ChainPieces, Tokens, WhereLoop, ParseCondition, Holds, Put;
    var c, rest := conditions[0], conditions[1..];
    assert conditions == [c] + rest;
    if rest != [] {
      ChainHead(tokens, i, c, rest);
      LoopGoesOn(tokens, i, c, conjunction);
      ChainParsed(tokens, i + 4, rest, Put(conjunction, c));
    } else {
      assert conditions == [c];
      ChainLast(tokens, i, c);
      LoopEnds(tokens, i, c, conjunction);
    }
  }

  // ---------- filling a conjunction again ----------

  lemma {:induction false} PutNew(done: Conjunction, c: Condition)
    requires forall k :: 0 <= k < |done| ==> done[k].column != c.column
    ensures Put(done, c) == done + [Entry(c.column, [(c.operator, c.value)])]
    decreases |done|
  {
    if done != [] {
      PutNew(done[1..], c);
    }
  }

  lemma {:induction false} PutOperatorNew(operand: seq<(Operator, Literal)>, operator: Operator, value: Literal)
    requires forall k :: 0 <= k < |operand| ==> operand[k].0 != operator
    ensures PutOperator(operand, operator, value) == operand + [(operator, value)]
    decreases |operand|
  {
    if operand != [] {
      PutOperatorNew(operand[1..], operator, value);
    }
  }

  lemma {:induction false} PutLast(done: Conjunction, entry: Entry, operator: Operator, value: Literal)
    requires forall k :: 0 <= k < |done| ==> done[k].column != entry.column
    requires forall k :: 0 <= k < |entry.operand| ==> entry.operand[k].0 != operator
    ensures Put(done + [entry], Condition(entry.column, operator, value))
         == done + [Entry(entry.column, entry.operand + [(operator, value)])]
    decreases |done|
  {
    if done == [] {
      PutOperatorNew(entry.operand, operator, value);
      assert done + [entry] == [entry];
    } else {
      PutLast(done[1..], entry, operator, value);
      assert (done + [entry])[1..] == done[1..] + [entry];
    }
  }

  lemma {:induction false} PutAllAppend(conjunction: Conjunction, a: seq<Condition>, b: seq<Condition>)
    ensures PutAll(conjunction, a + b) == PutAll(PutAll(conjunction, a), b)
    decreases |a|
  {
    if a == [] {
      assert a + b == b;
    } else {
      assert (a + b)[1..] == a[1..] + b;
      PutAllAppend(Put(conjunction, a[0]), a[1..], b);
    }
  }

  lemma {:induction false} EntryRefilled(done: Conjunction, entry: Entry, n: nat)
    requires 1 <= n <= |entry.operand| && SqlWhere.DistinctOperators(entry.operand)
    requires forall k :: 0 <= k < |done| ==> done[k].column != entry.column
    ensures PutAll(done, EntryConditions(entry)[..n]) == done + [Entry(entry.column, entry.operand[..n])]
    decreases n
  {
    var c := EntryConditions(entry);
    assert c[..n] == c[..n - 1] + [c[n - 1]];
    PutAllAppend(done, c[..n - 1], [c[n - 1]]);
    assert [c[n - 1]][1..] == [];
    if n == 1 {
      PutNew(done, c[0]);
      assert c[..0] == [];
      assert entry.operand[..1] == [entry.operand[0]];
    } else {
      EntryRefilled(done, entry, n - 1);
      var part := Entry(entry.column, entry.operand[..n - 1]);
      PutLast(done, part, entry.operand[n - 1].0, entry.operand[n - 1].1);
      assert entry.operand[..n - 1] + [entry.operand[n - 1]] == entry.operand[..n];
    }
  }

  lemma {:induction false} Refilled(done: Conjunction, rest: Conjunction)
    requires SqlWhere.DistinctColumns(done + rest)
    requires forall i :: 0 <= i < |rest| ==> rest[i].operand != []
    ensures PutAll(done, Flatten(rest)) == done + rest
    decreases |rest|
  {
    if rest == [] {
      assert done + rest == done;
    } else {
      var all, entry := done + rest, rest[0];
      assert all[|done|] == entry;
      assert forall k :: 0 <= k < |done| ==> all[k] == done[k];
      EntryRefilled(done, entry, |entry.operand|);
      assert EntryConditions(entry)[..|entry.operand|] == EntryConditions(entry);
      assert entry.operand[..|entry.operand|] == entry.operand;
      PutAllAppend(done, EntryConditions(entry), Flatten(rest[1..]));
      assert done + [entry] + rest[1..] == all;
      Refilled(done + [entry], rest[1..]);
    }
  }

  // ---------- the whole statement ----------

  lemma HeadTokens(q: Query)
    requires Filled(q) && Named(q)
    ensures Tokens(HeadPieces(q)) ==
      [Token(SELECT, "SELECT")] + Tokens(SelectPieces(q)) + [Token(FROM, "FROM"), Token(IDENTIFIER, q.collection)]
  {
    Reserved("SELECT");
    Reserved("FROM");
    TextAppend([WordPiece("SELECT")] + SelectPieces(q), [WordPiece("FROM"), WordPiece(q.collection)]);
    TextAppend([WordPiece("SELECT")], SelectPieces(q));
    TokensOne(WordPiece("SELECT"));
    TokensTwo(WordPiece("FROM"), WordPiece(q.collection));
  }

  lemma SelectHolds(tokens: seq<Token>, q: Query)
    requires Filled(q) && Named(q) && Holds(tokens, 0, Tokens(HeadPieces(q)))
    ensures
      var n := |Tokens(SelectPieces(q))|;
      && |Tokens(HeadPieces(q))| == n + 3 <= |tokens|
      && tokens[0] == Token(SELECT, "SELECT") && Holds(tokens, 1, Tokens(SelectPieces(q)))
      && tokens[n + 1] == Token(FROM, "FROM") && tokens[n + 2] == Token(IDENTIFIER, q.collection)
  {
    HeadTokens(q);
    hide Tokens, HeadPieces, SelectPieces, Filled, Named, KeywordKind;
    var select, columns := [Token(SELECT, "SELECT")], Tokens(SelectPieces(q));
    var from := [Token(FROM, "FROM"), Token(IDENTIFIER, q.collection)];
    HoldsSplit(tokens, 0, select + columns, from);
    HoldsSplit(tokens, 0, select, columns);
    assert tokens[0 + 0] == select[0];
    var n := 1 + |columns|;
    assert tokens[n + 0] == from[0] && tokens[n + 1] == from[1];
  }

  /** The columns, up to FROM. */
  lemma SelectParsed(tokens: seq<Token>, q: Query)
    requires Filled(q) && Named(q) && Holds(tokens, 0, Tokens(HeadPieces(q)))
    ensures
      var names := if q.select.Some? then q.select.value else ["*"];
      var n := |Tokens(HeadPieces(q))|;
      && Peek(tokens, 0).value == "SELECT"
      && n >= 2 && ParseColumns(tokens, 0) == Ok(Columns(names, n - 2))
      && Peek(tokens, n - 2).kind == FROM && Peek(tokens, n - 1) == Token(IDENTIFIER, q.collection)
  {
    SelectHolds(tokens, q);
    hide Tokens, HeadPieces, Filled, Named, ParseColumns, Holds;
    if q.select.Some? {
      NamesParsed(tokens, q);
    } else {
      StarParsed(tokens, q);
    }
  }

  lemma NamesParsed(tokens: seq<Token>, q: Query)
    requires Filled(q) && Named(q) && q.select.Some? && tokens != [] && tokens[0] == Token(SELECT, "SELECT")
    requires Holds(tokens, 1, Tokens(SelectPieces(q)))
    requires Peek(tokens, 1 + |Tokens(SelectPieces(q))|).kind != COMMA
    ensures ParseColumns(tokens, 0) == Ok(Columns(q.select.value, 1 + |Tokens(SelectPieces(q))|))
  {
    hide ColumnPieces, ColumnLoop, Identifier;
    ColumnsParsed(tokens, 1, q.select.value, []);
    assert [] + q.select.value == q.select.value;
    FirstColumn(tokens, 1, q.select.value);
  }

  lemma StarParsed(tokens: seq<Token>, q: Query)
    requires Filled(q) && Named(q) && q.select.None? && tokens != [] && tokens[0] == Token(SELECT, "SELECT")
    requires Holds(tokens, 1, Tokens(SelectPieces(q)))
    ensures ParseColumns(tokens, 0) == Ok(Columns(["*"], 2)) && |Tokens(SelectPieces(q))| == 1
  {
    hide KeywordKind, Identifier;
    var star := Piece(true, "*", Token(ASTERISK, "*"));
    TokensOne(star);
    assert tokens[1 + 0] == [star.token][0];
  }

  lemma FirstColumn(tokens: seq<Token>, i: nat, names: seq<string>)
    requires names != [] && AllIdentifiers(names) && Holds(tokens, i, Tokens(ColumnPieces(names)))
    ensures Peek(tokens, i).kind == IDENTIFIER
  {
    assert names == [names[0]] + names[1..];
    if |names| > 1 {
      ColumnHead(tokens, i, names[0], names[1..]);
    } else {
      assert names == [names[0]];
      ColumnLast(tokens, i, names[0]);
    }
  }

  lemma WhereTokens(conditions: seq<Condition>)
    requires conditions != []
    ensures Tokens([WordPiece("WHERE")] + ChainPieces(conditions))
         == [Token(WHERE, "WHERE")] + Tokens(ChainPieces(conditions))
  {
    Reserved("WHERE");
    hide ChainPieces;
    TokensOne(WordPiece("WHERE"));
    TextAppend([WordPiece("WHERE")], ChainPieces(conditions));
  }

  lemma ClauseParsed(tokens: seq<Token>, i: nat, conditions: seq<Condition>)
    requires conditions != [] && AllNamed(conditions)
    requires Holds(tokens, i, [Token(WHERE, "WHERE")] + Tokens(ChainPieces(conditions)))
    requires
      var after := Peek(tokens, i + 1 + |Tokens(ChainPieces(conditions))|).kind;
      after != AND && after != OR
    ensures Peek(tokens, i).kind == WHERE
    ensures ParseWhere(tokens, i) == Ok(Where([PutAll([], conditions)], i + 1 + |Tokens(ChainPieces(conditions))|))
  {
    hide ChainPieces, Tokens, WhereLoop, PutAll, Identifier;
    HoldsSplit(tokens, i, [Token(WHERE, "WHERE")], Tokens(ChainPieces(conditions)));
    assert tokens[i + 0] == [Token(WHERE, "WHERE")][0];
    ChainParsed(tokens, i + 1, conditions, []);
  }

  lemma WhereParsed(tokens: seq<Token>, i: nat, q: Query)
    requires Filled(q) && Named(q) && q.ops.Some? && Holds(tokens, i, Tokens(WherePieces(q)))
    requires
      var after := Peek(tokens, i + |Tokens(WherePieces(q))|).kind;
      after != AND && after != OR
    ensures Peek(tokens, i).kind == WHERE
    ensures ParseWhere(tokens, i)
         == Ok(Where([PutAll([], AllConditions(q.ops.value))], i + |Tokens(WherePieces(q))|))
  {
    hide ChainPieces, Tokens, ParseWhere, PutAll, AllConditions, Peek, Holds, KeywordKind, Identifier;
    OpsFlat(q.ops.value);
    WhereTokens(AllConditions(q.ops.value));
    ClauseParsed(tokens, i, AllConditions(q.ops.value));
  }

  lemma LimitParsed(tokens: seq<Token>, i: nat, q: Query, head: Query)
    requires Filled(q) && Named(q) && Holds(tokens, i, Tokens(LimitPieces(q)) + [Token(EOF, "")]) && head.limit == None
    ensures ParseLimit(tokens, i, head) == Ok(head.(limit := q.limit))
    ensures Peek(tokens, i).kind == LIMIT || Peek(tokens, i).kind == EOF
  {
    var part := Tokens(LimitPieces(q)) + [Token(EOF, "")];
    assert tokens[i + 0] == part[0];
    if q.limit.Some? {
      var text := Decimal.Text(q.limit.value);
      Reserved("LIMIT");
      TokensTwo(WordPiece("LIMIT"), Piece(true, text, Token(NUMBER, text)));
      NumberOfLimit(q.limit.value);
      assert tokens[i + 1] == part[1];
    }
  }

  lemma TailParsed(tokens: seq<Token>, i: nat, q: Query, head: Query)
    requires Filled(q) && Named(q) && head.limit == None && head.groupBy == None
    requires Holds(tokens, i, Tokens(GroupPieces(q)) + (Tokens(LimitPieces(q)) + [Token(EOF, "")]))
    ensures ParseTail(tokens, i, head) == Ok(head.(groupBy := q.groupBy, limit := q.limit))
    ensures Peek(tokens, i).kind in [GROUP, LIMIT, EOF]
  {
    hide ParseLimit, Word, Letters, KeywordKind, LimitPieces, Filled;
    var group, rest := Tokens(GroupPieces(q)), Tokens(LimitPieces(q)) + [Token(EOF, "")];
    HoldsSplit(tokens, i, group, rest);
    if q.groupBy.Some? {
      GroupTokens(q);
      assert tokens[i + 0] == group[0] && tokens[i + 1] == group[1] && tokens[i + 2] == group[2];
      LimitParsed(tokens, i + 3, q, head.(groupBy := q.groupBy));
    } else {
      assert group == [];
      LimitParsed(tokens, i, q, head);
    }
  }

  lemma GroupTokens(q: Query)
    requires q.groupBy.Some? && Identifier(q.groupBy.value)
    ensures Tokens(GroupPieces(q)) == [Token(GROUP, "GROUP"), Token(BY, "BY"), Token(IDENTIFIER, q.groupBy.value)]
  {
    hide KeywordKind, Word, Letters, Lexable;
    var p := GroupPieces(q);
    Reserved("GROUP");
    Reserved("BY");
    assert p[1..] == [p[1], p[2]];
    TokensTwo(p[1], p[2]);
  }

  lemma TokensFour(a: seq<Piece>, b: seq<Piece>, c: seq<Piece>, d: seq<Piece>, end: Token)
    ensures Tokens(a + b + c + d) + [end] == Tokens(a) + (Tokens(b) + (Tokens(c) + (Tokens(d) + [end])))
  {
    hide Tokens;
    TextAppend(a + b + c, d);
    TextAppend(a + b, c);
    TextAppend(a, b);
    Regrouped(Tokens(a), Tokens(b), Tokens(c), Tokens(d), [end]);
  }

  lemma Regrouped<T>(a: seq<T>, b: seq<T>, c: seq<T>, d: seq<T>, e: seq<T>)
    ensures a + b + c + d + e == a + (b + (c + (d + e)))
  {
  }

  /** What follows the columns and the collection. */
  function TailTokens(q: Query): seq<Token> {
    Tokens(GroupPieces(q)) + (Tokens(LimitPieces(q)) + [Token(EOF, "")])
  }

  lemma StatementTokens(q: Query)
    requires Filled(q) && Named(q)
    ensures Tokens(Pieces(q)) + [Token(EOF, "")] ==
      Tokens(HeadPieces(q)) + (Tokens(WherePieces(q)) + TailTokens(q))
  {
    hide *;
    TokensFour(HeadPieces(q), WherePieces(q), GroupPieces(q), LimitPieces(q), Token(EOF, ""));
    assert Pieces(q) == HeadPieces(q) + WherePieces(q) + GroupPieces(q) + LimitPieces(q) by {
      PiecesParts(q);
    }
    TailParts(q);
  }

  lemma PiecesParts(q: Query)
    requires Filled(q) && Named(q)
    ensures Pieces(q) == HeadPieces(q) + WherePieces(q) + GroupPieces(q) + LimitPieces(q)
  {
    hide HeadPieces, WherePieces, GroupPieces, LimitPieces, Filled;
  }

  lemma TailParts(q: Query)
    ensures TailTokens(q) == Tokens(GroupPieces(q)) + (Tokens(LimitPieces(q)) + [Token(EOF, "")])
  {
    hide Tokens, GroupPieces, LimitPieces;
  }

  predicate SelectsIds(q: Query) {
    q.select.Some? && "_id" in q.select.value
  }

  /** The query as far as it is known before its clauses. */
  function HeadQuery(q: Query): Query {
    Query(q.collection, q.select, SelectsIds(q), None, None, None)
  }

  /** What a printed query reads back as: one conjunction of all its conditions. */
  function ReadBack(q: Query): Query {
    q.(onlyIds := SelectsIds(q),
       ops := if q.ops.Some? then Some([PutAll([], AllConditions(q.ops.value))]) else None)
  }

  /** The three parts of the statement stand one behind the other. */
  lemma StatementHolds(tokens: seq<Token>, q: Query)
    requires Filled(q) && Named(q) && tokens == Tokens(Pieces(q)) + [Token(EOF, "")]
    ensures
      var head, where := Tokens(HeadPieces(q)), Tokens(WherePieces(q));
      Holds(tokens, 0, head) && Holds(tokens, |head|, where) && Holds(tokens, |head| + |where|, TailTokens(q))
  {
    hide *;
    StatementTokens(q);
    HoldsThree(Tokens(HeadPieces(q)), Tokens(WherePieces(q)), TailTokens(q));
  }

  lemma HoldsThree(a: seq<Token>, b: seq<Token>, c: seq<Token>)
    ensures
      var tokens := a + (b + c);
      Holds(tokens, 0, a) && Holds(tokens, |a|, b) && Holds(tokens, |a| + |b|, c)
  {
    var tokens := a + (b + c);
    assert Holds(tokens, 0, a + (b + c));
    HoldsSplit(tokens, 0, a, b + c);
    HoldsSplit(tokens, |a|, b, c);
  }

  /** The parser's own steps, from what its parts return. */
  lemma SelectUnfold(tokens: seq<Token>, q: Query, i: nat, names: seq<string>)
    requires ParseColumns(tokens, 0) == Ok(Columns(names, i))
    requires Peek(tokens, i).kind == FROM && Peek(tokens, i + 1) == Token(IDENTIFIER, q.collection)
    requires (if "*" in names then None else Some(names)) == q.select && ("_id" in names) == SelectsIds(q)
    requires !StartsJoin(Peek(tokens, i + 2).kind)
    ensures Peek(tokens, i + 2).kind != WHERE ==> ParseSelect(tokens) == ParseTail(tokens, i + 2, HeadQuery(q))
    ensures
      var where := ParseWhere(tokens, i + 2);
      Peek(tokens, i + 2).kind == WHERE && where.Ok? ==>
        ParseSelect(tokens) == ParseTail(tokens, where.value.next, HeadQuery(q).(ops := Some(where.value.ops)))
  {
    hide ParseColumns, ParseTail, ParseWhere, Peek;
  }

  lemma WithWhere(tokens: seq<Token>, q: Query, n: nat, names: seq<string>)
    requires Filled(q) && Named(q) && q.ops.Some? && Holds(tokens, n, Tokens(WherePieces(q)))
    requires Holds(tokens, n + |Tokens(WherePieces(q))|, TailTokens(q))
    requires n >= 2 && ParseColumns(tokens, 0) == Ok(Columns(names, n - 2))
    requires Peek(tokens, n - 2).kind == FROM && Peek(tokens, n - 1) == Token(IDENTIFIER, q.collection)
    requires (if "*" in names then None else Some(names)) == q.select && ("_id" in names) == SelectsIds(q)
    ensures ParseSelect(tokens) == Ok(ReadBack(q))
  {
    hide Tokens, WherePieces, GroupPieces, LimitPieces, TailTokens, Filled, Named, Holds, Peek;
    hide ParseColumns, ParseTail, ParseWhere, ParseSelect, AllConditions, PutAll;
    TailParts(q);
    TailParsed(tokens, n + |Tokens(WherePieces(q))|, q, HeadQuery(q).(ops := ReadBack(q).ops));
    WhereParsed(tokens, n, q);
    SelectUnfold(tokens, q, n - 2, names);
  }

  lemma WithoutWhere(tokens: seq<Token>, q: Query, n: nat, names: seq<string>)
    requires Filled(q) && Named(q) && q.ops.None? && Holds(tokens, n, TailTokens(q))
    requires n >= 2 && ParseColumns(tokens, 0) == Ok(Columns(names, n - 2))
    requires Peek(tokens, n - 2).kind == FROM && Peek(tokens, n - 1) == Token(IDENTIFIER, q.collection)
    requires (if "*" in names then None else Some(names)) == q.select && ("_id" in names) == SelectsIds(q)
    ensures ParseSelect(tokens) == Ok(ReadBack(q))
  {
    hide Tokens, GroupPieces, LimitPieces, TailTokens, Filled, Named, Holds, Peek;
    hide ParseColumns, ParseTail, ParseWhere, ParseSelect;
    TailParts(q);
    TailParsed(tokens, n, q, HeadQuery(q));
    SelectUnfold(tokens, q, n - 2, names);
  }

  lemma SelectStatement(tokens: seq<Token>, q: Query)
    requires Filled(q) && Named(q) && tokens == Tokens(Pieces(q)) + [Token(EOF, "")]
    ensures Peek(tokens, 0).value == "SELECT" && ParseSelect(tokens) == Ok(ReadBack(q))
  {
    hide *;
    StatementHolds(tokens, q);
    SelectParsed(tokens, q);
    StarOnly(q);
    var n, names := |Tokens(HeadPieces(q))|, if q.select.Some? then q.select.value else ["*"];
    if q.ops.Some? {
      WithWhere(tokens, q, n, names);
    } else {
      NoWhere(q);
      WithoutWhere(tokens, q, n, names);
    }
  }

  lemma NoWhere(q: Query)
    requires Filled(q) && Named(q) && q.ops.None?
    ensures Tokens(WherePieces(q)) == []
  {
  }

  /** No identifier is a star, so the columns come back as they were. */
  lemma StarOnly(q: Query)
    requires Filled(q) && Named(q)
    ensures
      var names := if q.select.Some? then q.select.value else ["*"];
      && (if "*" in names then None else Some(names)) == q.select
      && ("_id" in names) == SelectsIds(q)
  {
    if q.select.Some? {
      forall i | 0 <= i < |q.select.value|
        ensures q.select.value[i] != "*"
      {
        assert Identifier(q.select.value[i]);
      }
    }
  }

  /** What every printable query reads back as. */
  lemma PrintedReadsBack(q: Query)
    requires Printable(q)
    ensures Parse(ToSQL(q)) == Ok(ReadBack(q))
  {
    PrintedLexes(q);
    SelectStatement(Tokens(Pieces(q)) + [Token(EOF, "")], q);
  }
}
