/** A printed query that parses back was paid for by its own text: the weight of the tokens
    against the weight of the printed statement. */
module SqlBalance {
  import opened Common
  import opened SqlLexer
  import opened SqlParser
  import opened SqlPieces
  import opened SqlPrint
  import opened SqlRoundTrip
  import opened SqlWeights
  import opened SqlBudget
  import Decimal
  import SqlWhere

  // ---------- what a statement weighs ----------

  function NamesWeight(w: Scale, names: seq<string>): nat {
    if names == [] then 0
    else if |names| == 1 then Weight(w.name, names[0])
    else Weight(w.name, names[0]) + Weight(w.text, ",") + NamesWeight(w, names[1..])
  }

  function SelectWeight(w: Scale, select: Option<seq<string>>): nat {
    if select.Some? then NamesWeight(w, select.value) else Weight(w.text, "*")
  }

  function HeadWeight(w: Scale, q: Query): nat {
    Weight(w.text, "SELECT") + SelectWeight(w, q.select) + Weight(w.text, "FROM") + Weight(w.name, q.collection)
  }

  function WhereWeight(w: Scale, q: Query): int {
    if q.ops.Some? then Weight(w.text, "WHERE") + OpsWeight(w, q.ops.value) - AndWeight(w) else 0
  }

  function GroupWeight(w: Scale, q: Query): nat {
    if q.groupBy.Some? then Weight(w.text, "GROUP") + Weight(w.text, "BY") + Weight(w.name, q.groupBy.value) else 0
  }

  function LimitWeight(w: Scale, q: Query): nat {
    if q.limit.Some? then Weight(w.text, "LIMIT") + Weight(w.text, Decimal.Text(q.limit.value)) else 0
  }

  function QueryWeight(w: Scale, q: Query): int {
    HeadWeight(w, q) + WhereWeight(w, q) + GroupWeight(w, q) + LimitWeight(w, q)
  }

  // ---------- reading a statement ----------

  predicate AllPaths(names: seq<string>) {
    forall i :: 0 <= i < |names| ==> PathName(names[i])
  }

  lemma {:induction false} ColumnsWeigh(w: Scale, tokens: seq<Token>, i: nat, done: seq<string>, columns: Columns)
    returns (rest: seq<string>)
    requires Fair(w) && GoodTokens(tokens) && ColumnLoop(tokens, i, done) == Ok(columns)
    ensures columns.names == done + rest && rest != [] && AllPaths(rest)
    ensures i < columns.next <= |tokens| && TokensWeight(w, tokens[i..columns.next]) == NamesWeight(w, rest)
    decreases |tokens| - i
  {
    hide GoodToken, Fair, TokenWeight, PathName;
    var name := tokens[i].value;
    assert GoodToken(tokens[i]);
    IdentifierGood(w, tokens[i]);
    TokensWeightOne(w, tokens, i);
    if Peek(tokens, i + 1).kind == COMMA {
      var more := ColumnsWeigh(w, tokens, i + 2, done + [name], columns);
      rest := [name] + more;
      assert rest[1..] == more && done + [name] + more == done + rest;
      assert GoodToken(tokens[i + 1]);
      FixedWeighs(w, tokens[i + 1]);
      TokensWeightOne(w, tokens, i + 1);
      TokensWeightSplit(w, tokens, i, i + 1, columns.next);
      TokensWeightSplit(w, tokens, i + 1, i + 2, columns.next);
    } else {
      rest := [name];
    }
  }

  lemma IdentifierGood(w: Scale, t: Token)
    requires GoodToken(t) && t.kind == IDENTIFIER
    ensures PathName(t.value) && TokenWeight(w, t) == Weight(w.name, t.value)
  {
  }

  predicate GoodSelect(select: Option<seq<string>>) {
    select.Some? ==> select.value != [] && AllPaths(select.value)
  }

  lemma NoStar(names: seq<string>)
    requires AllPaths(names)
    ensures "*" !in names
  {
    forall i | 0 <= i < |names|
      ensures names[i] != "*"
    {
      assert PathName(names[i]);
    }
  }

  function Selected(names: seq<string>): Option<seq<string>> {
    if "*" in names then None else Some(names)
  }

  lemma SelectRead(w: Scale, tokens: seq<Token>, columns: Columns)
    requires Fair(w) && GoodTokens(tokens) && ParseColumns(tokens, 0) == Ok(columns)
    ensures GoodSelect(Selected(columns.names)) && columns.next <= |tokens|
    ensures ("_id" in columns.names) == (Selected(columns.names).Some? && "_id" in columns.names)
    ensures TokensWeight(w, tokens[..columns.next])
         == Weight(w.text, "SELECT") + SelectWeight(w, Selected(columns.names))
  {
    hide GoodToken, Fair, TokenWeight, PathName, TokensWeight, Weight, ColumnLoop, NamesWeight;
    var n := columns.next;
    assert GoodToken(tokens[0]);
    FixedWeighs(w, tokens[0]);
    TokensWeightOne(w, tokens, 0);
    if Peek(tokens, 1).kind == ASTERISK {
      assert GoodToken(tokens[1]);
      FixedWeighs(w, tokens[1]);
      TokensWeightOne(w, tokens, 1);
    } else {
      var names := ColumnsWeigh(w, tokens, 1, [], columns);
      assert [] + names == names;
      NoStar(names);
    }
    TokensWeightSplit(w, tokens, 0, 1, n);
    assert tokens[0..n] == tokens[..n];
  }

  /** What parsing guarantees of a query, whatever the text. */
  ghost predicate Shaped(q: Query) {
    && PathName(q.collection) && GoodSelect(q.select) && q.onlyIds == SelectsIds(q)
    && (q.ops.Some? ==> q.ops.value != [] && GoodOps(q.ops.value))
    && (q.groupBy.Some? ==> PathName(q.groupBy.value))
  }

  /** The query the parser starts from once it has read the columns and the collection. */
  function ReadHead(tokens: seq<Token>, columns: Columns): Query {
    Query(Peek(tokens, columns.next + 1).value, Selected(columns.names), "_id" in columns.names, None, None, None)
  }

  /** The parser's steps up to the conditions and behind them. */
  lemma HeadRead(w: Scale, tokens: seq<Token>, q: Query) returns (i: nat, next: nat)
    requires Fair(w) && GoodTokens(tokens) && ParseSelect(tokens) == Ok(q)
    ensures i <= next <= |tokens| && TokensWeight(w, tokens[..i]) == HeadWeight(w, q)
    ensures ParseColumns(tokens, 0).Ok? && i == ParseColumns(tokens, 0).value.next + 2
    ensures PathName(q.collection) && GoodSelect(q.select) && q.onlyIds == SelectsIds(q)
    ensures if q.ops.None? then next == i
            else i < |tokens| && tokens[i].kind == WHERE
                 && WhereLoop(tokens, i + 1, [], []) == Ok(Where(q.ops.value, next))
    ensures ParseTail(tokens, next, HeadQuery(q).(ops := q.ops)) == Ok(q)
  {
    hide GoodToken, Fair, TokenWeight, PathName, TokensWeight, Weight, WhereLoop, ParseColumns;
    var columns := ParseColumns(tokens, 0).value;
    SelectRead(w, tokens, columns);
    i := columns.next + 2;
    FromWeighs(w, tokens, columns.next);
    next := i;
    if Peek(tokens, i).kind == WHERE {
      var where := ParseWhere(tokens, i).value;
      next := where.next;
      WhereWeighs(w, tokens, i + 1, [], [], where);
      TailKeeps(tokens, next, ReadHead(tokens, columns).(ops := Some(where.ops)), q);
    } else {
      TailKeeps(tokens, next, ReadHead(tokens, columns), q);
    }
  }

  lemma FromWeighs(w: Scale, tokens: seq<Token>, n: nat)
    requires Fair(w) && GoodTokens(tokens) && Peek(tokens, n).kind == FROM && Peek(tokens, n + 1).kind == IDENTIFIER
    ensures n + 2 <= |tokens| && PathName(tokens[n + 1].value)
    ensures TokensWeight(w, tokens[..n + 2])
         == TokensWeight(w, tokens[..n]) + Weight(w.text, "FROM") + Weight(w.name, tokens[n + 1].value)
  {
    hide GoodToken, Fair, TokenWeight, PathName, TokensWeight, Weight;
    assert GoodToken(tokens[n]) && GoodToken(tokens[n + 1]);
    FixedWeighs(w, tokens[n]);
    IdentifierGood(w, tokens[n + 1]);
    TokensWeightOne(w, tokens, n);
    TokensWeightOne(w, tokens, n + 1);
    TokensWeightSplit(w, tokens, 0, n, n + 2);
    TokensWeightSplit(w, tokens, n, n + 1, n + 2);
    assert tokens[0..n] == tokens[..n] && tokens[0..n + 2] == tokens[..n + 2];
  }

  lemma TailKeeps(tokens: seq<Token>, i: nat, h: Query, q: Query)
    requires ParseTail(tokens, i, h) == Ok(q)
    ensures q.(groupBy := h.groupBy, limit := h.limit) == h
  {
  }

  /** Digits weigh no less than the number they stand for. */
  lemma {:induction false} DigitsWeigh(f: char -> nat, digits: string)
    requires digits != "" && forall k :: 0 <= k < |digits| ==> Digit(digits[k])
    ensures Weight(f, Decimal.Text(Decimal.Value(digits))) <= Weight(f, digits)
    decreases |digits|
  {
    hide Decimal.Text, Weight;
    var init, last := digits[..|digits| - 1], digits[|digits| - 1];
    assert digits == init + [last];
    WeightAppend(f, init, [last]);
    if init != "" && Decimal.Value(init) > 0 {
      DigitsWeigh(f, init);
      WeightAppend(f, Decimal.Text(Decimal.Value(init)), [last]);
      TextStep(Decimal.Value(init), last);
    } else {
      assert init == "" ==> Decimal.Value(init) == 0;
      TextStep(0, last);
      assert Decimal.Value(digits) == 10 * 0 + Decimal.DigitValue(last);
      assert "" + [last] == [last];
    }
  }

  lemma TextStep(n: nat, last: char)
    requires Digit(last)
    ensures Decimal.Text(10 * n + Decimal.DigitValue(last)) == (if n == 0 then "" else Decimal.Text(n)) + [last]
  {
    var v := 10 * n + Decimal.DigitValue(last);
    assert v / 10 == n && v % 10 == Decimal.DigitValue(last);
    assert Decimal.Digit(Decimal.DigitValue(last)) == last;
  }

  lemma LimitTokenWeighs(f: char -> nat, text: string)
    requires NumberText(text)
    ensures Weight(f, Decimal.Text(ParseInt(text))) <= Weight(f, text)
  {
    var n := RunEnd(text, 0, Digit);
    RunAccepted(text, 0, Digit);
    DigitsWeigh(f, text[..n]);
    assert text == text[..n] + text[n..];
    WeightAppend(f, text[..n], text[n..]);
  }

  lemma LimitRead(w: Scale, tokens: seq<Token>, i: nat, h: Query, q: Query)
    requires Fair(w) && GoodTokens(tokens) && i <= |tokens| && h.limit == None && ParseLimit(tokens, i, h) == Ok(q)
    ensures q.(limit := None) == h && TokensWeight(w, tokens[i..]) >= LimitWeight(w, q)
  {
    hide GoodToken, Fair, TokensWeight, Weight, NumberText, ParseInt;
    if Peek(tokens, i).kind == LIMIT {
      NumberGood(w, tokens[i + 1]);
      FixedWeighs(w, tokens[i]);
      LimitTokenWeighs(w.text, tokens[i + 1].value);
      TokensWeightOne(w, tokens, i);
      TokensWeightOne(w, tokens, i + 1);
      TokensWeightSplit(w, tokens, i, i + 1, |tokens|);
      TokensWeightSplit(w, tokens, i + 1, i + 2, |tokens|);
      assert tokens[i..|tokens|] == tokens[i..];
    }
  }

  lemma NumberGood(w: Scale, t: Token)
    requires GoodToken(t) && t.kind == NUMBER
    ensures NumberText(t.value) && TokenWeight(w, t) == Weight(w.text, t.value)
  {
  }

  lemma TailRead(w: Scale, tokens: seq<Token>, i: nat, h: Query, q: Query)
    requires Fair(w) && GoodTokens(tokens) && i <= |tokens|
    requires h.limit == None && h.groupBy == None && ParseTail(tokens, i, h) == Ok(q)
    ensures q.groupBy.Some? ==> PathName(q.groupBy.value)
    ensures TokensWeight(w, tokens[i..]) >= GroupWeight(w, q) + LimitWeight(w, q)
  {
    hide GoodToken, Fair, TokensWeight, TokenWeight, Weight, PathName, ParseLimit;
    if Peek(tokens, i).kind == GROUP {
      var grouped := h.(groupBy := Some(tokens[i + 2].value));
      LimitRead(w, tokens, i + 3, grouped, q);
      FixedWeighs(w, tokens[i]);
      FixedWeighs(w, tokens[i + 1]);
      IdentifierGood(w, tokens[i + 2]);
      ThreeWeigh(w, tokens, i);
    } else {
      LimitRead(w, tokens, i, h, q);
    }
  }

  lemma ThreeWeigh(w: Scale, tokens: seq<Token>, i: nat)
    requires i + 3 <= |tokens|
    ensures TokensWeight(w, tokens[i..])
         == TokenWeight(w, tokens[i]) + TokenWeight(w, tokens[i + 1]) + TokenWeight(w, tokens[i + 2])
            + TokensWeight(w, tokens[i + 3..])
  {
    hide TokensWeight, TokenWeight;
    TokensWeightOne(w, tokens, i);
    TokensWeightOne(w, tokens, i + 1);
    TokensWeightOne(w, tokens, i + 2);
    TokensWeightSplit(w, tokens, i, i + 1, |tokens|);
    TokensWeightSplit(w, tokens, i + 1, i + 2, |tokens|);
    TokensWeightSplit(w, tokens, i + 2, i + 3, |tokens|);
    assert tokens[i..|tokens|] == tokens[i..] && tokens[i + 3..|tokens|] == tokens[i + 3..];
  }

  /** The tokens of a parsed statement pay for the whole query. */
  lemma StatementWeighs(w: Scale, tokens: seq<Token>, q: Query)
    requires Fair(w) && GoodTokens(tokens) && ParseSelect(tokens) == Ok(q)
    ensures Shaped(q)
    ensures TokensWeight(w, tokens)
         >= QueryWeight(w, q) + (if q.ops.Some? then Gain(w, |q.ops.value|) + AndWeight(w) else 0)
  {
    hide Fair, GoodTokens, TokensWeight, Weight, OpsWeight, GoodOps, PathName, GoodSelect, Gain, AndWeight;
    hide HeadWeight, GroupWeight, LimitWeight;
    var i, next := HeadRead(w, tokens, q);
    TailRead(w, tokens, next, HeadQuery(q).(ops := q.ops), q);
    TokensWeightSplit(w, tokens, 0, next, |tokens|);
    assert tokens[0..|tokens|] == tokens && tokens[next..|tokens|] == tokens[next..];
    assert tokens[0..i] == tokens[..i];
    if q.ops.Some? {
      ClauseWeighs(w, tokens, i, Where(q.ops.value, next));
      TokensWeightSplit(w, tokens, 0, i, next);
    }
  }

  lemma ClauseWeighs(w: Scale, tokens: seq<Token>, i: nat, where: Where)
    requires Fair(w) && GoodTokens(tokens) && i < |tokens| && tokens[i].kind == WHERE
    requires WhereLoop(tokens, i + 1, [], []) == Ok(where)
    ensures where.ops != [] && GoodOps(where.ops) && i < where.next <= |tokens|
    ensures TokensWeight(w, tokens[i..where.next])
         >= Weight(w.text, "WHERE") + OpsWeight(w, where.ops) + Gain(w, |where.ops|)
    ensures TokensWeight(w, tokens[i..where.next])
         == Weight(w.text, "WHERE") + TokensWeight(w, tokens[i + 1..where.next])
  {
    hide Fair, GoodToken, WhereLoop, TokensWeight, Weight, OpsWeight, Gain, GoodOps, GoodConjunction;
    FixedWeighs(w, tokens[i]);
    WhereWeighs(w, tokens, i + 1, [], [], where);
    NothingGood();
    WhereGood(tokens, i + 1, [], [], where);
    NoConjunction(w);
    NoOps(w);
    TokensWeightSplit(w, tokens, i, i + 1, where.next);
    TokensWeightOne(w, tokens, i);
  }

  // ---------- what the printed text weighs ----------

  function Flat(f: char -> nat): Scale {
    Scale(f, f)
  }

  lemma {:induction false} NamesPrinted(f: char -> nat, names: seq<string>)
    requires f(' ') == 0
    ensures Weight(f, Join(names, ", ")) == NamesWeight(Flat(f), names)
    decreases |names|
  {
    if |names| > 1 {
      NamesPrinted(f, names[1..]);
      WeightAppend(f, names[0] + ", ", Join(names[1..], ", "));
      WeightAppend(f, names[0], ", ");
      assert ", " == "," + " ";
      WeightAppend(f, ",", " ");
      WeightChar(f, ' ');
    }
  }

  lemma ConditionPrinted(f: char -> nat, c: Condition)
    requires f(' ') == 0
    ensures Weight(f, ConditionText(c)) == ConditionWeight(Flat(f), c)
  {
    hide Weight;
    var head := c.column + " " + OperatorText(c.operator);
    WeightAppend(f, head + " ", LiteralText(c.value));
    WeightAppend(f, head, " ");
    WeightAppend(f, c.column + " ", OperatorText(c.operator));
    WeightAppend(f, c.column, " ");
    WeightChar(f, ' ');
  }

  lemma AndPrinted(f: char -> nat, a: string, b: string)
    requires f(' ') == 0
    ensures Weight(f, a + " AND " + b) == Weight(f, a) + Weight(f, "AND") + Weight(f, b)
  {
    hide Weight;
    assert " AND " == " " + "AND" + " ";
    WeightAppend(f, a + " AND ", b);
    WeightAppend(f, a, " AND ");
    WeightAppend(f, " " + "AND", " ");
    WeightAppend(f, " ", "AND");
    WeightChar(f, ' ');
  }

  lemma {:induction false} ConditionsPrinted(f: char -> nat, conditions: seq<Condition>)
    requires f(' ') == 0 && conditions != []
    ensures Weight(f, Join(ConditionTexts(conditions), " AND ")) + AndWeight(Flat(f))
         == ConditionsWeight(Flat(f), conditions)
    decreases |conditions|
  {
    hide Weight, ConditionText, ConditionWeight;
    ConditionPrinted(f, conditions[0]);
    var texts := ConditionTexts(conditions);
    if |conditions| > 1 {
      ConditionsPrinted(f, conditions[1..]);
      assert texts[1..] == ConditionTexts(conditions[1..]);
      AndPrinted(f, texts[0], Join(texts[1..], " AND "));
    } else {
      assert conditions[1..] == [];
    }
  }

  lemma BlankPrinted(f: char -> nat, word: string, text: string)
    requires f(' ') == 0
    ensures Weight(f, word + " " + text) == Weight(f, word) + Weight(f, text)
    ensures Weight(f, " " + text) == Weight(f, text)
  {
    WeightAppend(f, word + " ", text);
    WeightAppend(f, word, " ");
    WeightAppend(f, " ", text);
    WeightChar(f, ' ');
  }

  lemma HeadPrintedWeighs(f: char -> nat, q: Query)
    requires f(' ') == 0
    ensures Weight(f, "SELECT " + SelectText(q) + " FROM " + q.collection) == HeadWeight(Flat(f), q)
  {
    hide Weight, Join, NamesWeight;
    var select, columns := "SELECT", SelectText(q);
    if q.select.Some? {
      NamesPrinted(f, q.select.value);
    }
    BlankPrinted(f, select, columns);
    BlankPrinted(f, select + " " + columns, "FROM");
    BlankPrinted(f, select + " " + columns + " " + "FROM", q.collection);
    assert "SELECT " == select + " ";
    assert select + " " + columns + " " + "FROM" + " " + q.collection
        == "SELECT " + columns + " FROM " + q.collection;
  }

  lemma WherePrintedWeighs(f: char -> nat, q: Query)
    requires f(' ') == 0 && (q.ops.Some? ==> q.ops.value != [] && FilledOps(q.ops.value))
    ensures Weight(f, WhereText(q)) == WhereWeight(Flat(f), q)
  {
    hide Weight, OpsText, FilledConjunction;
    if q.ops.Some? {
      OpsFlat(q.ops.value);
      ConditionsPrinted(f, AllConditions(q.ops.value));
      BlankPrinted(f, " WHERE", OpsText(q.ops.value));
      BlankPrinted(f, "", "WHERE");
      assert " " + "WHERE" == " WHERE" && " WHERE" + " " == " WHERE ";
    } else {
      EmptyWeighs(f);
    }
  }

  lemma EmptyWeighs(f: char -> nat)
    ensures Weight(f, "") == 0
  {
  }

  lemma GroupPrintedWeighs(f: char -> nat, q: Query)
    requires f(' ') == 0 && q.groupBy != Some("")
    ensures Weight(f, GroupText(q)) == GroupWeight(Flat(f), q)
  {
    hide Weight;
    EmptyWeighs(f);
    if q.groupBy.Some? {
      BlankPrinted(f, " GROUP BY", q.groupBy.value);
      BlankPrinted(f, " GROUP", "BY");
      BlankPrinted(f, "", "GROUP");
      assert " GROUP" + " " + "BY" == " GROUP BY" && " GROUP BY" + " " == " GROUP BY " && " " + "GROUP" == " GROUP";
    }
  }

  lemma LimitPrintedWeighs(f: char -> nat, q: Query)
    requires f(' ') == 0
    ensures Weight(f, LimitText(q)) == if q.limit == Some(0) then 0 else LimitWeight(Flat(f), q)
  {
    hide Weight, Decimal.Text;
    EmptyWeighs(f);
    if q.limit.Some? {
      BlankPrinted(f, " LIMIT", Decimal.Text(q.limit.value));
      BlankPrinted(f, "", "LIMIT");
      assert " LIMIT" + " " == " LIMIT " && " " + "LIMIT" == " LIMIT";
    }
  }

  lemma ShapedIsFilled(q: Query)
    requires Shaped(q)
    ensures q.limit != Some(0) ==> Filled(q)
    ensures q.ops.Some? ==> q.ops.value != [] && FilledOps(q.ops.value)
    ensures q.groupBy != Some("")
  {
  }

  lemma PrintedWeighs(f: char -> nat, q: Query)
    requires f(' ') == 0 && Shaped(q)
    ensures Weight(f, ToSQL(q))
         == QueryWeight(Flat(f), q) - if q.limit == Some(0) then LimitWeight(Flat(f), q) else 0
  {
    hide Weight, Shaped, HeadWeight, WhereWeight, GroupWeight, LimitWeight, WhereText, GroupText, LimitText, FilledOps;
    ShapedIsFilled(q);
    var head := "SELECT " + SelectText(q) + " FROM " + q.collection;
    HeadPrintedWeighs(f, q);
    WherePrintedWeighs(f, q);
    GroupPrintedWeighs(f, q);
    LimitPrintedWeighs(f, q);
    WeightAppend(f, head + WhereText(q) + GroupText(q), LimitText(q));
    WeightAppend(f, head + WhereText(q), GroupText(q));
    WeightAppend(f, head, WhereText(q));
  }

  // ---------- the balance ----------

  /** A query that comes back was paid for by its own text. */
  lemma Balance(w: Scale, q: Query)
    requires Fair(w) && Parse(ToSQL(q)) == Ok(q)
    ensures Shaped(q)
    ensures QueryWeight(w, q) + (if q.ops.Some? then Gain(w, |q.ops.value|) + AndWeight(w) else 0)
         <= QueryWeight(Flat(w.text), q) - (if q.limit == Some(0) then LimitWeight(Flat(w.text), q) else 0)
            + w.text('\'')
  {
    hide Weight, Shaped, GoodToken, TokensWeight, QueryWeight, LimitWeight, Gain, ParseSelect, Lex;
    var text := Trim(ToSQL(q));
    LexWeighs(w, text, 0);
    assert text[0..] == text;
    StatementWeighs(w, Lex(text, 0), q);
    TrimWeighs(w.text, ToSQL(q));
    PrintedWeighs(w.text, q);
  }
}
