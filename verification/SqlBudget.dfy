/** What a parsed query costs: the tokens it was read from weigh at least as much as the
    text it would be printed as, and more for every condition that was overwritten. */
module SqlBudget {
  import opened Common
  import opened SqlLexer
  import opened SqlParser
  import opened SqlPieces
  import opened SqlPrint
  import opened SqlWeights
  import SqlWhere

  // ---------- conditions ----------

  function LiteralWeight(w: Scale, value: Literal): nat {
    Weight(w.text, LiteralText(value))
  }

  function ConditionWeight(w: Scale, c: Condition): nat {
    Weight(w.name, c.column) + Weight(w.text, OperatorText(c.operator)) + LiteralWeight(w, c.value)
  }

  function AndWeight(w: Scale): nat { Weight(w.text, "AND") }

  function OrWeight(w: Scale): nat { Weight(w.text, "OR") }

  /** The conditions, each with an AND. */
  function ConditionsWeight(w: Scale, conditions: seq<Condition>): nat {
    if conditions == [] then 0
    else ConditionWeight(w, conditions[0]) + AndWeight(w) + ConditionsWeight(w, conditions[1..])
  }

  lemma {:induction false} ConditionsAppend(w: Scale, a: seq<Condition>, b: seq<Condition>)
    ensures ConditionsWeight(w, a + b) == ConditionsWeight(w, a) + ConditionsWeight(w, b)
    decreases |a|
  {
    if a == [] {
      assert a + b == b;
    } else {
      assert (a + b)[1..] == a[1..] + b;
      ConditionsAppend(w, a[1..], b);
    }
  }

  function EntryWeight(w: Scale, column: string, operand: seq<(Operator, Literal)>): nat {
    ConditionsWeight(w, EntryConditions(Entry(column, operand)))
  }

  function ConjunctionWeight(w: Scale, conjunction: Conjunction): nat {
    ConditionsWeight(w, Flatten(conjunction))
  }

  function OpsWeight(w: Scale, ops: seq<Conjunction>): nat {
    ConditionsWeight(w, AllConditions(ops))
  }

  lemma EntryCons(w: Scale, column: string, first: (Operator, Literal), rest: seq<(Operator, Literal)>)
    ensures EntryWeight(w, column, [first] + rest)
         == ConditionWeight(w, Condition(column, first.0, first.1)) + AndWeight(w) + EntryWeight(w, column, rest)
  {
    var all := EntryConditions(Entry(column, [first] + rest));
    assert all[1..] == EntryConditions(Entry(column, rest));
  }

  lemma ConjunctionCons(w: Scale, first: Entry, rest: Conjunction)
    ensures ConjunctionWeight(w, [first] + rest) == EntryWeight(w, first.column, first.operand) + ConjunctionWeight(w, rest)
  {
    assert ([first] + rest)[1..] == rest;
    ConditionsAppend(w, EntryConditions(first), Flatten(rest));
  }

  // ---------- putting a condition ----------

  predicate HasOperator(operand: seq<(Operator, Literal)>, operator: Operator) {
    operand != [] && (operand[0].0 == operator || HasOperator(operand[1..], operator))
  }

  /** Something stands where `Put` would put the condition. */
  predicate Taken(conjunction: Conjunction, c: Condition) {
    conjunction != []
    && if conjunction[0].column == c.column then HasOperator(conjunction[0].operand, c.operator)
       else Taken(conjunction[1..], c)
  }

  /** Overwriting costs the whole condition except its literal. */
  lemma {:induction false} PutOperatorWeighs(w: Scale, column: string, operand: seq<(Operator, Literal)>, operator: Operator, value: Literal)
    ensures
      var before := EntryWeight(w, column, operand);
      var after := EntryWeight(w, column, PutOperator(operand, operator, value));
      if HasOperator(operand, operator) then after <= before + LiteralWeight(w, value)
      else after == before + ConditionWeight(w, Condition(column, operator, value)) + AndWeight(w)
    decreases |operand|
  {
    hide ConditionWeight, EntryWeight;
    EntryCons(w, column, (operator, value), if operand == [] then [] else operand[1..]);
    if operand == [] {
      NoEntry(w, column);
      assert [(operator, value)] + [] == [(operator, value)];
    } else {
      var first, rest := operand[0], operand[1..];
      assert operand == [first] + rest;
      EntryCons(w, column, first, rest);
      if first.0 != operator {
        PutOperatorWeighs(w, column, rest, operator, value);
        EntryCons(w, column, first, PutOperator(rest, operator, value));
      } else {
        SamePlaceWeighs(w, column, operator, first.1, value);
      }
    }
  }

  lemma NoEntry(w: Scale, column: string)
    ensures EntryWeight(w, column, []) == 0
  {
  }

  lemma SamePlaceWeighs(w: Scale, column: string, operator: Operator, before: Literal, after: Literal)
    ensures ConditionWeight(w, Condition(column, operator, after))
         <= ConditionWeight(w, Condition(column, operator, before)) + LiteralWeight(w, after)
  {
  }

  lemma {:induction false} PutWeighs(w: Scale, conjunction: Conjunction, c: Condition)
    ensures
      var before, after := ConjunctionWeight(w, conjunction), ConjunctionWeight(w, Put(conjunction, c));
      if Taken(conjunction, c) then after <= before + LiteralWeight(w, c.value)
      else after == before + ConditionWeight(w, c) + AndWeight(w)
    decreases |conjunction|
  {
    hide ConditionWeight, ConjunctionWeight, EntryWeight, PutOperator;
    if conjunction == [] {
      var entry := Entry(c.column, [(c.operator, c.value)]);
      assert [entry] + [] == [entry] && [(c.operator, c.value)] + [] == [(c.operator, c.value)];
      ConjunctionCons(w, entry, []);
      EntryCons(w, c.column, (c.operator, c.value), []);
      NoEntry(w, c.column);
      NoConjunction(w);
    } else {
      var first, rest := conjunction[0], conjunction[1..];
      assert conjunction == [first] + rest;
      ConjunctionCons(w, first, rest);
      if first.column == c.column {
        PutOperatorWeighs(w, c.column, first.operand, c.operator, c.value);
        ConjunctionCons(w, Entry(c.column, PutOperator(first.operand, c.operator, c.value)), rest);
      } else {
        PutWeighs(w, rest, c);
        ConjunctionCons(w, first, Put(rest, c));
      }
    }
  }

  lemma NoConjunction(w: Scale)
    ensures ConjunctionWeight(w, []) == 0
  {
  }

  lemma PutAtMost(w: Scale, conjunction: Conjunction, c: Condition)
    ensures ConjunctionWeight(w, Put(conjunction, c))
         <= ConjunctionWeight(w, conjunction) + ConditionWeight(w, c) + AndWeight(w)
  {
    hide ConjunctionWeight;
    PutWeighs(w, conjunction, c);
  }

  // ---------- reading conditions ----------

  lemma FixedWeighs(w: Scale, t: Token)
    requires Fair(w) && GoodToken(t) && FixedText(t.kind).Some?
    ensures TokenWeight(w, t) == Weight(w.text, FixedText(t.kind).value)
  {
    WeightUpper(w, t.value);
  }

  lemma OperatorTokenWeighs(w: Scale, t: Token)
    requires Fair(w) && GoodToken(t) && OperatorOf(t.kind).Some?
    ensures TokenWeight(w, t) == Weight(w.text, OperatorText(OperatorOf(t.kind).value))
  {
    FixedWeighs(w, t);
  }

  lemma StringTokenWeighs(w: Scale, s: string)
    ensures TokenWeight(w, Token(STRING, s)) == LiteralWeight(w, Text(s))
  {
    hide Weight;
    WeightAppend(w.text, "'" + s, "'");
    WeightAppend(w.text, "'", s);
    WeightChar(w.text, '\'');
  }

  lemma BooleanTokenWeighs(w: Scale, t: Token)
    requires Fair(w) && GoodToken(t) && t.kind == BOOLEAN
    ensures TokenWeight(w, t) == LiteralWeight(w, LiteralOf(t).value)
  {
    hide Weight, Fair;
    WeightUpper(w, t.value);
    WeightUpper(w, LiteralText(LiteralOf(t).value));
    assert Upper("true") == "TRUE" && Upper("false") == "FALSE";
  }

  lemma NullTokenWeighs(w: Scale, t: Token)
    requires Fair(w) && GoodToken(t) && t.kind == NULL
    ensures TokenWeight(w, t) == LiteralWeight(w, Null)
  {
    hide Weight, Fair, TokenWeight;
    FixedWeighs(w, t);
    WeightUpper(w, "null");
    assert Upper("null") == "NULL";
  }

  lemma LiteralTokenWeighs(w: Scale, t: Token)
    requires Fair(w) && GoodToken(t) && LiteralOf(t).Some?
    ensures TokenWeight(w, t) == LiteralWeight(w, LiteralOf(t).value)
  {
    hide Weight, Fair, GoodToken, Upper;
    match t.kind
    case STRING => StringTokenWeighs(w, t.value);
    case NUMBER =>
    case BOOLEAN => BooleanTokenWeighs(w, t);
    case NULL => NullTokenWeighs(w, t);
    case _ =>
  }

  lemma ConditionReadWeighs(w: Scale, tokens: seq<Token>, i: nat)
    requires Fair(w) && GoodTokens(tokens) && ParseCondition(tokens, i).Ok?
    ensures i + 3 <= |tokens|
    ensures TokensWeight(w, tokens[i..i + 3]) == ConditionWeight(w, ParseCondition(tokens, i).value)
  {
    hide FixedText, GoodToken, TokenWeight, LiteralText, OperatorText;
    assert GoodToken(tokens[i]) && GoodToken(tokens[i + 1]) && GoodToken(tokens[i + 2]);
    OperatorTokenWeighs(w, tokens[i + 1]);
    LiteralTokenWeighs(w, tokens[i + 2]);
    IdentifierWeighs(w, tokens[i]);
    TokensWeightOne(w, tokens, i);
    TokensWeightOne(w, tokens, i + 1);
    TokensWeightOne(w, tokens, i + 2);
    TokensWeightSplit(w, tokens, i, i + 1, i + 3);
    TokensWeightSplit(w, tokens, i + 1, i + 2, i + 3);
  }

  lemma IdentifierWeighs(w: Scale, t: Token)
    requires t.kind == IDENTIFIER
    ensures TokenWeight(w, t) == Weight(w.name, t.value)
  {
  }

  /** What `n` conjunctions read with OR between them weigh beyond their conditions with an AND each. */
  function Gain(w: Scale, n: nat): int {
    if n == 0 then 0 - OrWeight(w) else Gain(w, n - 1) + OrWeight(w) - AndWeight(w)
  }

  lemma {:induction false} AllConditionsAppend(w: Scale, ops: seq<Conjunction>, conjunction: Conjunction)
    ensures OpsWeight(w, ops + [conjunction]) == OpsWeight(w, ops) + ConjunctionWeight(w, conjunction)
    decreases |ops|
  {
    if ops == [] {
      assert [conjunction][1..] == [] && ops + [conjunction] == [conjunction];
      assert Flatten(conjunction) + [] == Flatten(conjunction);
    } else {
      assert (ops + [conjunction])[1..] == ops[1..] + [conjunction];
      AllConditionsAppend(w, ops[1..], conjunction);
      ConditionsAppend(w, Flatten(ops[0]), AllConditions(ops[1..] + [conjunction]));
      ConditionsAppend(w, Flatten(ops[0]), AllConditions(ops[1..]));
    }
  }

  /** One condition and the AND or OR behind it. */
  lemma JoinReadWeighs(w: Scale, tokens: seq<Token>, i: nat)
    requires Fair(w) && GoodTokens(tokens) && ParseCondition(tokens, i).Ok?
    requires Peek(tokens, i + 3).kind == AND || Peek(tokens, i + 3).kind == OR
    ensures i + 4 <= |tokens|
    ensures TokensWeight(w, tokens[i..i + 4]) == ConditionWeight(w, ParseCondition(tokens, i).value)
      + (if Peek(tokens, i + 3).kind == AND then AndWeight(w) else OrWeight(w))
  {
    hide ConditionWeight, TokenWeight, ParseCondition;
    ConditionReadWeighs(w, tokens, i);
    FixedWeighs(w, tokens[i + 3]);
    TokensWeightSplit(w, tokens, i, i + 3, i + 4);
    TokensWeightOne(w, tokens, i + 3);
  }

  /** The tokens of a WHERE clause pay for everything in its conjunctions. */
  lemma {:induction false} WhereWeighs(
    w: Scale, tokens: seq<Token>, i: nat, done: seq<Conjunction>, conjunction: Conjunction, where: Where)
    requires Fair(w) && GoodTokens(tokens) && WhereLoop(tokens, i, done, conjunction) == Ok(where)
    ensures i + 3 <= where.next <= |tokens| && |where.ops| > |done|
    ensures TokensWeight(w, tokens[i..where.next]) + OpsWeight(w, done) + ConjunctionWeight(w, conjunction)
         >= OpsWeight(w, where.ops) + Gain(w, |where.ops| - |done|)
    decreases |tokens| - i
  {
    hide ConditionWeight, ConjunctionWeight, OpsWeight, TokensWeight, ParseCondition, Fair, Put;
    var c := ParseCondition(tokens, i).value;
    var filled := Put(conjunction, c);
    ConditionReadWeighs(w, tokens, i);
    PutAtMost(w, conjunction, c);
    AllConditionsAppend(w, done, filled);
    var after := Peek(tokens, i + 3).kind;
    if after == AND || after == OR {
      JoinReadWeighs(w, tokens, i);
      if after == AND {
        WhereWeighs(w, tokens, i + 4, done, filled, where);
      } else {
        WhereWeighs(w, tokens, i + 4, done + [filled], [], where);
        NoConjunction(w);
      }
      TokensWeightSplit(w, tokens, i, i + 4, where.next);
    }
  }

  // ---------- what the loop fills ----------

  predicate GoodCondition(c: Condition) {
    PathName(c.column) && (c.value.Number? ==> NumberText(c.value.text))
  }

  ghost predicate GoodConjunction(conjunction: Conjunction) {
    && SqlWhere.DistinctColumns(conjunction)
    && (forall i :: 0 <= i < |conjunction| ==> conjunction[i].operand != [])
    && (forall c :: SqlWhere.InConjunction(conjunction, c) ==> GoodCondition(c))
  }

  lemma {:induction false} PutFills(conjunction: Conjunction, c: Condition)
    requires forall i :: 0 <= i < |conjunction| ==> conjunction[i].operand != []
    ensures FilledConjunction(Put(conjunction, c))
    decreases |conjunction|
  {
    if conjunction != [] && conjunction[0].column != c.column {
      PutFills(conjunction[1..], c);
    }
  }

  lemma PutGood(conjunction: Conjunction, c: Condition)
    requires GoodConjunction(conjunction) && GoodCondition(c)
    ensures GoodConjunction(Put(conjunction, c)) && FilledConjunction(Put(conjunction, c))
  {
    hide GoodCondition, SqlWhere.InConjunction, SqlWhere.DistinctColumns, Put;
    SqlWhere.PutKeeps(conjunction, c);
    PutFills(conjunction, c);
  }

  lemma ConditionReadGood(tokens: seq<Token>, i: nat)
    requires GoodTokens(tokens) && ParseCondition(tokens, i).Ok?
    ensures GoodCondition(ParseCondition(tokens, i).value)
  {
    assert GoodToken(tokens[i]) && GoodToken(tokens[i + 2]);
  }

  ghost predicate GoodOps(ops: seq<Conjunction>) {
    forall i :: 0 <= i < |ops| ==> GoodConjunction(ops[i]) && FilledConjunction(ops[i])
  }

  lemma NothingGood()
    ensures GoodConjunction([]) && GoodOps([])
  {
  }

  lemma {:induction false} WhereGood(
    tokens: seq<Token>, i: nat, done: seq<Conjunction>, conjunction: Conjunction, where: Where)
    requires GoodTokens(tokens) && WhereLoop(tokens, i, done, conjunction) == Ok(where)
    requires GoodOps(done) && GoodConjunction(conjunction)
    ensures GoodOps(where.ops) && where.ops != []
    decreases |tokens| - i
  {
    hide GoodConjunction, GoodCondition, GoodTokens, ParseCondition, Put, FilledConjunction;
    var c := ParseCondition(tokens, i).value;
    ConditionReadGood(tokens, i);
    PutGood(conjunction, c);
    var after := Peek(tokens, i + 3).kind;
    if after == AND {
      assert i < |tokens|;
      WhereGood(tokens, i + 4, done, Put(conjunction, c), where);
    } else if after == OR {
      NothingGood();
      WhereGood(tokens, i + 4, done + [Put(conjunction, c)], [], where);
    }
  }

  // ---------- nothing is overwritten on a tight budget ----------

  lemma {:induction false} NotTaken(conjunction: Conjunction, c: Condition, d: Condition)
    requires SqlWhere.DistinctColumns(conjunction) && !Taken(conjunction, c)
    requires SqlWhere.InConjunction(conjunction, d)
    ensures !SqlWhere.SamePlace(c, d)
    decreases |conjunction|
  {
    var first, rest := conjunction[0], conjunction[1..];
    assert conjunction == [first] + rest;
    SqlWhere.InConjunctionCons(first, rest, d);
    if first.column == c.column {
      if SqlWhere.SamePlace(c, d) && SqlWhere.InOperand(first.operand, d.operator, d.value) {
        NoOperator(first.operand, c.operator, d.value);
      }
    } else if SqlWhere.InConjunction(rest, d) {
      NotTaken(rest, c, d);
    }
  }

  lemma {:induction false} NoOperator(operand: seq<(Operator, Literal)>, operator: Operator, value: Literal)
    requires !HasOperator(operand, operator)
    ensures !SqlWhere.InOperand(operand, operator, value)
    decreases |operand|
  {
    if operand != [] {
      NoOperator(operand[1..], operator, value);
      SqlWhere.InOperandCons(operand[0], operand[1..], operator, value);
      assert operand == [operand[0]] + operand[1..];
    }
  }

  /** The clause reads back as one conjunction, and its tokens weigh at most 1 more than
      what they must add to the conjunction filled so far. */
  ghost predicate Tight(w: Scale, tokens: seq<Token>, i: nat, conjunction: Conjunction, where: Where) {
    && Fair(w) && GoodTokens(tokens) && AndWeight(w) > 1
    && WhereLoop(tokens, i, [], conjunction) == Ok(where) && |where.ops| == 1
    && SqlWhere.DistinctColumns(conjunction) && i <= where.next <= |tokens|
    && TokensWeight(w, tokens[i..where.next]) + ConjunctionWeight(w, conjunction) + AndWeight(w)
       <= ConjunctionWeight(w, where.ops[0]) + 1
  }

  lemma OneConjunction(w: Scale, ops: seq<Conjunction>)
    requires |ops| == 1
    ensures OpsWeight(w, ops) + Gain(w, 1) == ConjunctionWeight(w, ops[0]) - AndWeight(w)
    ensures OpsWeight(w, []) == 0
  {
    hide ConjunctionWeight, OpsWeight;
    assert ops == [] + [ops[0]];
    AllConditionsAppend(w, [], ops[0]);
    assert OpsWeight(w, []) == 0 by { NoOps(w); }
    assert Gain(w, 1) == Gain(w, 0) + OrWeight(w) - AndWeight(w);
  }

  lemma NoOps(w: Scale)
    ensures OpsWeight(w, []) == 0
  {
  }

  /** On a tight budget the next condition overwrites nothing, and the budget stays tight. */
  lemma TightStep(w: Scale, tokens: seq<Token>, i: nat, conjunction: Conjunction, where: Where)
    requires Tight(w, tokens, i, conjunction, where)
    ensures ParseCondition(tokens, i).Ok?
    ensures
      var c := ParseCondition(tokens, i).value;
      && !Taken(conjunction, c)
      && if Peek(tokens, i + 3).kind == AND then Tight(w, tokens, i + 4, Put(conjunction, c), where)
         else where.ops == [Put(conjunction, c)]
  {
    hide ConjunctionWeight, OpsWeight, TokensWeight, ParseCondition, Fair, Put, SqlWhere.DistinctColumns, GoodTokens;
    hide AndWeight, OrWeight, LiteralWeight, ConditionWeight, Gain, Taken;
    var c := ParseCondition(tokens, i).value;
    var filled := Put(conjunction, c);
    ConditionReadWeighs(w, tokens, i);
    PutWeighs(w, conjunction, c);
    LiteralPart(w, c);
    SqlWhere.PutKeeps(conjunction, c);
    OneConjunction(w, where.ops);
    var after := Peek(tokens, i + 3).kind;
    if after == AND {
      JoinReadWeighs(w, tokens, i);
      WhereWeighs(w, tokens, i + 4, [], filled, where);
      TokensWeightSplit(w, tokens, i, i + 4, where.next);
    } else if after == OR {
      WhereWeighs(w, tokens, i + 4, [] + [filled], [], where);
    }
  }

  lemma LiteralPart(w: Scale, c: Condition)
    ensures LiteralWeight(w, c.value) <= ConditionWeight(w, c)
  {
  }

  /** On a tight budget whatever was put stays. */
  lemma {:induction false} TightKeeps(
    w: Scale, tokens: seq<Token>, i: nat, conjunction: Conjunction, where: Where, d: Condition)
    requires Tight(w, tokens, i, conjunction, where) && SqlWhere.InConjunction(conjunction, d)
    ensures SqlWhere.InConjunction(where.ops[0], d)
    decreases |tokens| - i
  {
    hide ConjunctionWeight, TokensWeight, Fair, Put, SqlWhere.DistinctColumns, GoodTokens, SqlWhere.InConjunction, Taken;
    TightStep(w, tokens, i, conjunction, where);
    var c := ParseCondition(tokens, i).value;
    NotTaken(conjunction, c, d);
    SqlWhere.PutKeeps(conjunction, c);
    if Peek(tokens, i + 3).kind == AND {
      TightKeeps(w, tokens, i + 4, Put(conjunction, c), where, d);
    }
  }

  /** The condition just read is in the conjunction that comes out. */
  lemma TightReads(w: Scale, tokens: seq<Token>, i: nat, conjunction: Conjunction, where: Where)
    requires Tight(w, tokens, i, conjunction, where)
    ensures ParseCondition(tokens, i).Ok? && SqlWhere.InConjunction(where.ops[0], ParseCondition(tokens, i).value)
  {
    hide ConjunctionWeight, TokensWeight, Fair, Put, SqlWhere.DistinctColumns, GoodTokens, SqlWhere.InConjunction, Taken;
    TightStep(w, tokens, i, conjunction, where);
    var c := ParseCondition(tokens, i).value;
    SqlWhere.PutKeeps(conjunction, c);
    assert SqlWhere.SamePlace(c, c);
    if Peek(tokens, i + 3).kind == AND {
      TightKeeps(w, tokens, i + 4, Put(conjunction, c), where, c);
    }
  }
}
