/** `QueryBuilder.toSQL`, the lexemes of its output, and which queries can be read from it. */
module SqlPrint {
  import opened Common
  import opened SqlLexer
  import opened SqlParser
  import opened SqlPieces
  import Decimal

  // ---------- the printer ----------

  /** `parts.join(separator)` */
  function Join(parts: seq<string>, separator: string): string {
    if parts == [] then ""
    else if |parts| == 1 then parts[0]
    else parts[0] + separator + Join(parts[1..], separator)
  }

  function OperatorText(operator: Operator): string {
    match operator
    case Eq => "="
    case Ne => "!="
    case Gt => ">"
    case Lt => "<"
    case Gte => ">="
    case Lte => "<="
    case Like => "LIKE"
  }

  function LiteralText(value: Literal): string {
    match value
    case Text(s) => "'" + s + "'"
    case Number(text) => text
    case Boolean(b) => if b then "true" else "false"
    case Null => "null"
  }

  function ConditionText(c: Condition): string {
    c.column + " " + OperatorText(c.operator) + " " + LiteralText(c.value)
  }

  function EntryConditions(entry: Entry): seq<Condition> {
    seq(|entry.operand|, i requires 0 <= i < |entry.operand| =>
      Condition(entry.column, entry.operand[i].0, entry.operand[i].1))
  }

  function ConditionTexts(conditions: seq<Condition>): seq<string> {
    seq(|conditions|, i requires 0 <= i < |conditions| => ConditionText(conditions[i]))
  }

  function EntryText(entry: Entry): string {
    Join(ConditionTexts(EntryConditions(entry)), " AND ")
  }

  function EntryTexts(conjunction: Conjunction): seq<string> {
    seq(|conjunction|, i requires 0 <= i < |conjunction| => EntryText(conjunction[i]))
  }

  function ConjunctionText(conjunction: Conjunction): string {
    Join(EntryTexts(conjunction), " AND ")
  }

  function ConjunctionTexts(ops: seq<Conjunction>): seq<string> {
    seq(|ops|, i requires 0 <= i < |ops| => ConjunctionText(ops[i]))
  }

  function OpsText(ops: seq<Conjunction>): string {
    Join(ConjunctionTexts(ops), " AND ")
  }

  function SelectText(q: Query): string {
    if q.select.Some? then Join(q.select.value, ", ") else "*"
  }

  function WhereText(q: Query): string {
    if q.ops.Some? && q.ops.value != [] then " WHERE " + OpsText(q.ops.value) else ""
  }

  function GroupText(q: Query): string {
    if q.groupBy.Some? && q.groupBy.value != "" then " GROUP BY " + q.groupBy.value else ""
  }

  function LimitText(q: Query): string {
    if q.limit.Some? && q.limit.value != 0 then " LIMIT " + Decimal.Text(q.limit.value) else ""
  }

  function ToSQL(q: Query): string {
    "SELECT " + SelectText(q) + " FROM " + q.collection + WhereText(q) + GroupText(q) + LimitText(q)
  }

  /** The conditions of a conjunction in printing order. */
  function Flatten(conjunction: Conjunction): seq<Condition> {
    if conjunction == [] then [] else EntryConditions(conjunction[0]) + Flatten(conjunction[1..])
  }

  /** The conditions of all conjunctions in printing order. */
  function AllConditions(ops: seq<Conjunction>): seq<Condition> {
    if ops == [] then [] else Flatten(ops[0]) + AllConditions(ops[1..])
  }

  // ---------- what survives printing ----------

  predicate PrintableLiteral(value: Literal) {
    match value
    case Text(s) => '\'' !in s
    case Number(text) => NumberText(text)
    case _ => true
  }

  /** A literal that ends the text may also hold a quote as its last character. */
  predicate ReadableLiteral(value: Literal, atEnd: bool) {
    PrintableLiteral(value) || (atEnd && value.Text? && QuoteAtEndOnly(value.s))
  }

  predicate PrintableCondition(c: Condition) {
    Identifier(c.column) && PrintableLiteral(c.value)
  }

  predicate FilledConjunction(conjunction: Conjunction) {
    conjunction != [] && forall i :: 0 <= i < |conjunction| ==> conjunction[i].operand != []
  }

  /** Nothing the printer leaves out or prints as empty text. */
  predicate Filled(q: Query) {
    && (q.select.Some? ==> q.select.value != [])
    && (q.ops.Some? ==> q.ops.value != [] && FilledOps(q.ops.value))
    && (q.groupBy.Some? ==> q.groupBy.value != "")
    && (q.limit.Some? ==> q.limit.value != 0)
  }

  predicate FilledOps(ops: seq<Conjunction>) {
    forall i :: 0 <= i < |ops| ==> FilledConjunction(ops[i])
  }

  /** Every name is one unreserved word, without a slash. */
  predicate Named(q: Query) {
    && Identifier(q.collection)
    && (q.select.Some? ==> AllIdentifiers(q.select.value))
    && (q.groupBy.Some? ==> Identifier(q.groupBy.value))
    && (q.ops.Some? ==> AllNamed(AllConditions(q.ops.value)))
  }

  predicate AllNamed(conditions: seq<Condition>) {
    forall i :: 0 <= i < |conditions| ==> Identifier(conditions[i].column)
  }

  predicate WhereEndsText(q: Query) {
    q.groupBy.None? && q.limit.None?
  }

  predicate ReadableLiterals(conditions: seq<Condition>, endsText: bool) {
    forall i :: 0 <= i < |conditions| ==>
      ReadableLiteral(conditions[i].value, endsText && i == |conditions| - 1)
  }

  /** The names are plain words, the numbers unsigned, no string holds a quote except at the
      very end of the text, and nothing is empty. */
  predicate Printable(q: Query) {
    && Filled(q) && Named(q)
    && (q.ops.Some? ==> ReadableLiterals(AllConditions(q.ops.value), WhereEndsText(q)))
  }

  predicate AllIdentifiers(names: seq<string>) {
    forall i :: 0 <= i < |names| ==> Identifier(names[i])
  }

  // ---------- the printed text as pieces ----------

  function WordPiece(word: string): Piece {
    Piece(true, word, Token(KeywordKind(word), word))
  }

  function OperatorKind(operator: Operator): Kind {
    match operator
    case Eq => EQUALS
    case Ne => NOT_EQUALS
    case Gt => GREATER_THAN
    case Lt => LESS_THAN
    case Gte => GREATER_EQUAL
    case Lte => LESS_EQUAL
    case Like => LIKE
  }

  function LiteralToken(value: Literal): Token {
    match value
    case Text(s) => Token(STRING, s)
    case Number(text) => Token(NUMBER, text)
    case Boolean(b) => Token(BOOLEAN, LiteralText(value))
    case Null => Token(NULL, LiteralText(value))
  }

  function ConditionPieces(c: Condition): seq<Piece> {
    [WordPiece(c.column),
     Piece(true, OperatorText(c.operator), Token(OperatorKind(c.operator), OperatorText(c.operator))),
     Piece(true, LiteralText(c.value), LiteralToken(c.value))]
  }

  function ChainPieces(conditions: seq<Condition>): seq<Piece>
    requires conditions != []
  {
    if |conditions| == 1 then ConditionPieces(conditions[0])
    else ConditionPieces(conditions[0]) + [WordPiece("AND")] + ChainPieces(conditions[1..])
  }

  function ColumnPieces(names: seq<string>): seq<Piece>
    requires names != []
  {
    if |names| == 1 then [WordPiece(names[0])]
    else [WordPiece(names[0]), Piece(false, ",", Token(COMMA, ","))] + ColumnPieces(names[1..])
  }


  function SelectPieces(q: Query): seq<Piece>
    requires Filled(q)
  {
    if q.select.Some? then ColumnPieces(q.select.value) else [Piece(true, "*", Token(ASTERISK, "*"))]
  }

  function WherePieces(q: Query): seq<Piece>
    requires Filled(q)
  {
    if q.ops.Some? then
      OpsFlat(q.ops.value);
      [WordPiece("WHERE")] + ChainPieces(AllConditions(q.ops.value))
    else []
  }

  function GroupPieces(q: Query): seq<Piece> {
    if q.groupBy.Some? then [WordPiece("GROUP"), WordPiece("BY"), WordPiece(q.groupBy.value)] else []
  }

  function LimitPieces(q: Query): seq<Piece> {
    if q.limit.Some? then
      var text := Decimal.Text(q.limit.value);
      [WordPiece("LIMIT"), Piece(true, text, Token(NUMBER, text))]
    else []
  }

  function HeadPieces(q: Query): seq<Piece>
    requires Filled(q)
  {
    [WordPiece("SELECT")] + SelectPieces(q) + [WordPiece("FROM"), WordPiece(q.collection)]
  }

  function Pieces(q: Query): seq<Piece>
    requires Filled(q)
  {
    HeadPieces(q) + WherePieces(q) + GroupPieces(q) + LimitPieces(q)
  }

  // ---------- the text of the pieces is the printed text ----------

  lemma TextOne(p: Piece)
    ensures Printed([p]) == (if p.spaced then " " else "") + p.text
  {
    assert [p][1..] == [];
  }

  lemma {:induction false} JoinAppend(a: seq<string>, b: seq<string>, separator: string)
    requires a != [] && b != []
    ensures Join(a + b, separator) == Join(a, separator) + separator + Join(b, separator)
    decreases |a|
  {
    assert (a + b)[1..] == a[1..] + b;
    if |a| > 1 {
      JoinAppend(a[1..], b, separator);
    } else {
      assert a[1..] + b == b;
    }
  }

  lemma {:induction false} ColumnsText(names: seq<string>)
    requires names != []
    ensures Printed(ColumnPieces(names)) == " " + Join(names, ", ")
    decreases |names|
  {
    hide KeywordKind, Printed;
    var word, comma := WordPiece(names[0]), Piece(false, ",", Token(COMMA, ","));
    TextOne(word);
    if |names| > 1 {
      ColumnsText(names[1..]);
      TextAppend([word, comma], ColumnPieces(names[1..]));
      TextAppend([word], [comma]);
      TextOne(comma);
      assert [word] + [comma] == [word, comma];
      ColumnBlanks(names[0], Join(names[1..], ", "));
    }
  }

  lemma ColumnBlanks(name: string, rest: string)
    ensures " " + name + ("" + ",") + (" " + rest) == " " + (name + ", " + rest)
  {
  }

  lemma ConditionPiecesText(c: Condition)
    ensures Printed(ConditionPieces(c)) == " " + ConditionText(c)
  {
    var p := ConditionPieces(c);
    TextOne(p[2]);
    assert p[1..][1..] == [p[2]];
    assert p[1..][0] == p[1];
  }

  lemma PrintedThree(a: seq<Piece>, b: seq<Piece>, c: seq<Piece>)
    ensures Printed(a + b + c) == Printed(a) + Printed(b) + Printed(c)
  {
    TextAppend(a + b, c);
    TextAppend(a, b);
  }

  /** Blanks in front of the parts, or between them. */
  lemma Blanks(a: string, word: string, b: string)
    ensures " " + a + (" " + word) + (" " + b) == " " + (a + (" " + word + " ") + b)
  {
  }

  lemma {:induction false} ChainText(conditions: seq<Condition>)
    requires conditions != []
    ensures Printed(ChainPieces(conditions)) == " " + Join(ConditionTexts(conditions), " AND ")
    decreases |conditions|
  {
    var c := conditions[0];
    ConditionPiecesText(c);
    if |conditions| > 1 {
      var rest := conditions[1..];
      ChainText(rest);
      assert ConditionTexts(conditions)[1..] == ConditionTexts(rest);
      PrintedThree(ConditionPieces(c), [WordPiece("AND")], ChainPieces(rest));
      TextOne(WordPiece("AND"));
      Blanks(ConditionText(c), "AND", Join(ConditionTexts(rest), " AND "));
      assert " " + "AND" + " " == " AND " && " " + "AND" == " AND";
    }
  }

  lemma {:induction false} ConjunctionFlat(conjunction: Conjunction)
    requires FilledConjunction(conjunction)
    ensures Flatten(conjunction) != []
    ensures ConjunctionText(conjunction) == Join(ConditionTexts(Flatten(conjunction)), " AND ")
    decreases |conjunction|
  {
    hide EntryText, ConditionText;
    var first := EntryConditions(conjunction[0]);
    assert |first| == |conjunction[0].operand| > 0;
    EntryIsFlat(conjunction[0]);
    if |conjunction| == 1 {
      assert Flatten(conjunction) == first + [] == first;
    } else {
      var rest := conjunction[1..];
      ConjunctionFlat(rest);
      assert EntryTexts(conjunction)[1..] == EntryTexts(rest);
      ConditionTextsAppend(first, Flatten(rest));
      JoinAppend(ConditionTexts(first), ConditionTexts(Flatten(rest)), " AND ");
    }
  }

  lemma EntryIsFlat(entry: Entry)
    ensures EntryText(entry) == Join(ConditionTexts(EntryConditions(entry)), " AND ")
  {
  }

  lemma ConditionTextsAppend(a: seq<Condition>, b: seq<Condition>)
    ensures ConditionTexts(a + b) == ConditionTexts(a) + ConditionTexts(b)
  {
    hide ConditionText;
  }

  /** The printer separates the entries of `$ops` by AND, as it does the columns of one. */
  lemma {:induction false} OpsFlat(ops: seq<Conjunction>)
    requires ops != [] && FilledOps(ops)
    ensures AllConditions(ops) != []
    ensures OpsText(ops) == Join(ConditionTexts(AllConditions(ops)), " AND ")
    decreases |ops|
  {
    hide FilledConjunction, ConjunctionText, ConditionText, Flatten;
    var first := Flatten(ops[0]);
    ConjunctionFlat(ops[0]);
    if |ops| == 1 {
      assert AllConditions(ops) == first + [] == first;
    } else {
      var rest := ops[1..];
      OpsFlat(rest);
      assert ConjunctionTexts(ops)[1..] == ConjunctionTexts(rest);
      ConditionTextsAppend(first, AllConditions(rest));
      JoinAppend(ConditionTexts(first), ConditionTexts(AllConditions(rest)), " AND ");
    }
  }

  lemma WherePrinted(q: Query)
    requires Filled(q)
    ensures Printed(WherePieces(q)) == WhereText(q)
  {
    if q.ops.Some? {
      OpsFlat(q.ops.value);
      ClausePrinted("WHERE", AllConditions(q.ops.value));
    }
  }

  lemma ClausePrinted(word: string, conditions: seq<Condition>)
    requires conditions != []
    ensures Printed([WordPiece(word)] + ChainPieces(conditions))
         == " " + word + " " + Join(ConditionTexts(conditions), " AND ")
  {
    ChainText(conditions);
    TextAppend([WordPiece(word)], ChainPieces(conditions));
    TextOne(WordPiece(word));
  }

  lemma GroupPrinted(q: Query)
    requires Filled(q)
    ensures Printed(GroupPieces(q)) == GroupText(q)
  {
    if q.groupBy.Some? {
      var p := GroupPieces(q);
      TextOne(p[2]);
      assert p[1..][1..] == [p[2]] && p[1..][0] == p[1];
    }
  }

  lemma LimitPrinted(q: Query)
    requires Filled(q)
    ensures Printed(LimitPieces(q)) == LimitText(q)
  {
    if q.limit.Some? {
      var p := LimitPieces(q);
      TextOne(p[1]);
      assert p[1..] == [p[1]];
    }
  }

  lemma SelectPrinted(q: Query)
    requires Filled(q)
    ensures Printed(SelectPieces(q)) == " " + SelectText(q)
  {
    if q.select.Some? {
      ColumnsText(q.select.value);
    } else {
      TextOne(Piece(true, "*", Token(ASTERISK, "*")));
    }
  }

  lemma FromPrinted(collection: string)
    ensures Printed([WordPiece("FROM"), WordPiece(collection)]) == " FROM" + (" " + collection)
  {
    var from := [WordPiece("FROM"), WordPiece(collection)];
    TextOne(from[1]);
    assert from[1..] == [from[1]];
  }

  lemma HeadPrinted(q: Query)
    requires Filled(q)
    ensures Printed(HeadPieces(q)) == " " + ("SELECT " + SelectText(q) + " FROM " + q.collection)
  {
    PrintedThree([WordPiece("SELECT")], SelectPieces(q), [WordPiece("FROM"), WordPiece(q.collection)]);
    TextOne(WordPiece("SELECT"));
    SelectPrinted(q);
    FromPrinted(q.collection);
    HeadBlanks(SelectText(q), q.collection);
  }

  lemma HeadBlanks(columns: string, collection: string)
    ensures " SELECT" + (" " + columns) + (" FROM" + (" " + collection))
         == " " + ("SELECT " + columns + " FROM " + collection)
    ensures " " + "SELECT" == " SELECT"
  {
  }

  lemma PiecesPrinted(q: Query)
    requires Filled(q)
    ensures Printed(Pieces(q)) == " " + ToSQL(q)
  {
    HeadPrinted(q);
    WherePrinted(q);
    GroupPrinted(q);
    LimitPrinted(q);
    PrintedThree(HeadPieces(q) + WherePieces(q), GroupPieces(q), LimitPieces(q));
    TextAppend(HeadPieces(q), WherePieces(q));
    Front("SELECT " + SelectText(q) + " FROM " + q.collection, WhereText(q), GroupText(q), LimitText(q));
  }

  lemma Front(a: string, b: string, c: string, d: string)
    ensures " " + a + b + c + d == " " + (a + b + c + d)
  {
  }
}
