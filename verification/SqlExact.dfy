/** Exactly which queries `toSQL` prints so that parsing gives them back: for every query,
    whatever its names and strings hold. */
module SqlExact {
  import opened Common
  import opened SqlLexer
  import opened SqlParser
  import opened SqlPieces
  import opened SqlPrint
  import opened SqlRoundTrip
  import opened SqlWeights
  import opened SqlBudget
  import opened SqlBalance
  import SqlWhere

  // ---------- no disjunction comes back ----------

  function Ohs(c: char): nat {
    if c == 'o' || c == 'O' then 1 else 0
  }

  lemma {:induction false} GainOfOhs(n: nat)
    ensures Gain(Flat(Ohs), n) == n - 1 && AndWeight(Flat(Ohs)) == 0
  {
    assert AndWeight(Flat(Ohs)) == 0 && OrWeight(Flat(Ohs)) == 1 by {
      assert "AND"[1..] == "ND" && "ND"[1..] == "D" && "D"[1..] == "";
      assert "OR"[1..] == "R" && "R"[1..] == "";
    }
    if n > 0 {
      GainOfOhs(n - 1);
    }
  }

  /** The printer writes AND for every OR, and no text has letters to spare for one. */
  lemma DisjunctionIsLost(q: Query)
    requires q.ops.Some? && |q.ops.value| > 1
    ensures Parse(ToSQL(q)) != Ok(q)
  {
    hide Parse, ToSQL, Gain, QueryWeight, LimitWeight, AndWeight;
    if Parse(ToSQL(q)) == Ok(q) {
      Balance(Flat(Ohs), q);
      GainOfOhs(|q.ops.value|);
    }
  }

  // ---------- no slash comes back ----------

  function Dots(c: char): nat {
    if c == '.' then 1 else 0
  }

  function DotsOrSlashes(c: char): nat {
    if c == '.' || c == '/' then 1 else 0
  }

  /** Slashes in a name cost the dots they were read from. */
  const Paths: Scale := Scale(Dots, DotsOrSlashes)

  lemma {:induction false} NameGap(name: string)
    ensures Weight(Dots, name) <= Weight(DotsOrSlashes, name)
    ensures Weight(Dots, name) == Weight(DotsOrSlashes, name) <==> '/' !in name
    decreases |name|
  {
    if name != "" {
      NameGap(name[1..]);
      assert name == [name[0]] + name[1..];
    }
  }

  predicate NoSlashes(names: seq<string>) {
    forall i :: 0 <= i < |names| ==> '/' !in names[i]
  }

  lemma {:induction false} NamesGap(names: seq<string>)
    ensures NamesWeight(Flat(Dots), names) <= NamesWeight(Paths, names)
    ensures NamesWeight(Flat(Dots), names) == NamesWeight(Paths, names) ==> NoSlashes(names)
    decreases |names|
  {
    if names != [] {
      NameGap(names[0]);
      NamesGap(names[1..]);
    }
  }

  predicate NoSlashColumns(conditions: seq<Condition>) {
    forall i :: 0 <= i < |conditions| ==> '/' !in conditions[i].column
  }

  lemma {:induction false} ConditionsGap(conditions: seq<Condition>)
    ensures ConditionsWeight(Flat(Dots), conditions) <= ConditionsWeight(Paths, conditions)
    ensures ConditionsWeight(Flat(Dots), conditions) == ConditionsWeight(Paths, conditions) ==> NoSlashColumns(conditions)
    decreases |conditions|
  {
    if conditions != [] {
      NameGap(conditions[0].column);
      ConditionsGap(conditions[1..]);
    }
  }

  predicate SlashFree(q: Query) {
    && '/' !in q.collection
    && (q.select.Some? ==> NoSlashes(q.select.value))
    && (q.groupBy.Some? ==> '/' !in q.groupBy.value)
    && (q.ops.Some? ==> NoSlashColumns(AllConditions(q.ops.value)))
  }

  lemma QueryGap(q: Query)
    ensures QueryWeight(Flat(Dots), q) <= QueryWeight(Paths, q)
    ensures QueryWeight(Flat(Dots), q) == QueryWeight(Paths, q) ==> SlashFree(q)
  {
    hide Weight, NamesWeight, ConditionsWeight, NoSlashes, NoSlashColumns;
    NameGap(q.collection);
    if q.select.Some? {
      NamesGap(q.select.value);
    }
    if q.groupBy.Some? {
      NameGap(q.groupBy.value);
    }
    if q.ops.Some? {
      ConditionsGap(AllConditions(q.ops.value));
    }
  }

  lemma NamesAreSlashFree(q: Query)
    requires Parse(ToSQL(q)) == Ok(q)
    ensures SlashFree(q)
  {
    hide Parse, ToSQL, QueryWeight, LimitWeight, SlashFree, AndWeight, OrWeight;
    Balance(Paths, q);
    QueryGap(q);
    if q.ops.Some? {
      if |q.ops.value| > 1 {
        DisjunctionIsLost(q);
      }
      OpsShaped(q);
      assert Gain(Paths, 1) == Gain(Paths, 0) + OrWeight(Paths) - AndWeight(Paths);
    }
  }

  lemma OpsShaped(q: Query)
    requires Shaped(q) && q.ops.Some?
    ensures q.ops.value != [] && GoodOps(q.ops.value)
  {
  }

  // ---------- the shape of a query that comes back ----------

  lemma {:induction false} FlattenIn(conjunction: Conjunction, k: nat)
    requires k < |Flatten(conjunction)|
    ensures SqlWhere.InConjunction(conjunction, Flatten(conjunction)[k])
    decreases |conjunction|
  {
    var first, rest := conjunction[0], conjunction[1..];
    assert conjunction == [first] + rest;
    SqlWhere.InConjunctionCons(first, rest, Flatten(conjunction)[k]);
    var n := |EntryConditions(first)|;
    if k < n {
      assert first.operand[k] == (Flatten(conjunction)[k].operator, Flatten(conjunction)[k].value);
    } else {
      FlattenIn(rest, k - n);
      assert Flatten(conjunction)[k] == Flatten(rest)[k - n];
    }
  }

  lemma OneFlat(conjunction: Conjunction)
    ensures AllConditions([conjunction]) == Flatten(conjunction)
  {
    assert [conjunction][1..] == [];
    assert Flatten(conjunction) + [] == Flatten(conjunction);
  }

  lemma PathIsIdentifier(name: string)
    requires PathName(name) && '/' !in name
    ensures Identifier(name)
  {
    assert forall k :: 0 <= k < |name| ==> name[k] in name;
  }

  lemma ConditionsNamed(conjunction: Conjunction)
    requires GoodConjunction(conjunction) && NoSlashColumns(Flatten(conjunction))
    ensures AllNamed(Flatten(conjunction)) && NumbersRead(Flatten(conjunction))
  {
    hide PathName, Identifier, NumberText, SqlWhere.InConjunction;
    var conditions := Flatten(conjunction);
    forall i | 0 <= i < |conditions|
      ensures Identifier(conditions[i].column)
      ensures conditions[i].value.Number? ==> NumberText(conditions[i].value.text)
    {
      FlattenIn(conjunction, i);
      assert GoodCondition(conditions[i]);
      PathIsIdentifier(conditions[i].column);
    }
  }

  lemma NamesNamed(names: seq<string>)
    requires AllPaths(names) && NoSlashes(names)
    ensures AllIdentifiers(names)
  {
    forall i | 0 <= i < |names|
      ensures Identifier(names[i])
    {
      PathIsIdentifier(names[i]);
    }
  }

  function Inks(c: char): nat {
    if Space(c) then 0 else 1
  }

  lemma InkIsFair()
    ensures Fair(Flat(Inks)) && AndWeight(Flat(Inks)) == 3 && Weight(Inks, "LIMIT") >= 2
  {
    InkWeights();
    hide Weight;
  }

  lemma InkWeights()
    ensures AndWeight(Flat(Inks)) == 3 && Weight(Inks, "LIMIT") >= 2
  {
    assert "AND"[1..] == "ND" && "ND"[1..] == "D" && "D"[1..] == "";
    assert "LIMIT"[1..] == "IMIT" && "IMIT"[1..] == "MIT";
  }

  lemma LimitIsPrinted(q: Query)
    requires Parse(ToSQL(q)) == Ok(q)
    ensures q.limit != Some(0)
  {
    hide Parse, ToSQL, QueryWeight, Weight, AndWeight, OrWeight;
    InkIsFair();
    Balance(Flat(Inks), q);
    if q.ops.Some? {
      if |q.ops.value| > 1 {
        DisjunctionIsLost(q);
      }
      OpsShaped(q);
      assert Gain(Flat(Inks), 1) == Gain(Flat(Inks), 0) + OrWeight(Flat(Inks)) - AndWeight(Flat(Inks));
    }
  }

  /** All that has to hold except what the strings contain. */
  ghost predicate WellFormed(q: Query) {
    && Filled(q) && Named(q) && q.onlyIds == SelectsIds(q)
    && (q.ops.Some? ==>
          |q.ops.value| == 1 && GoodConjunction(q.ops.value[0]) && NumbersRead(AllConditions(q.ops.value)))
  }

  lemma ReturnedIsWellFormed(q: Query)
    requires Parse(ToSQL(q)) == Ok(q)
    ensures WellFormed(q) && Shaped(q)
  {
    hide Parse, ToSQL, QueryWeight, Weight, PathName, Identifier, GoodConjunction, NoSlashColumns, FilledOps;
    InkIsFair();
    Balance(Flat(Inks), q);
    LimitIsPrinted(q);
    ShapedIsFilled(q);
    NamesAreSlashFree(q);
    PathIsIdentifier(q.collection);
    if q.select.Some? {
      NamesNamed(q.select.value);
    }
    if q.groupBy.Some? {
      PathIsIdentifier(q.groupBy.value);
    }
    if q.ops.Some? {
      if |q.ops.value| > 1 {
        DisjunctionIsLost(q);
      }
      assert q.ops.value == [q.ops.value[0]];
      OneFlat(q.ops.value[0]);
      ConditionsNamed(q.ops.value[0]);
    }
  }

  // ---------- the budget of the conditions ----------

  /** The tokens of the clause leave no room for a condition that is overwritten. */
  lemma ClauseIsTight(q: Query, tokens: seq<Token>) returns (i: nat, where: Where)
    requires Parse(ToSQL(q)) == Ok(q) && q.ops.Some? && tokens == Lex(Trim(ToSQL(q)), 0)
    ensures ParseColumns(tokens, 0).Ok? && i == ParseColumns(tokens, 0).value.next + 2
    ensures Tight(Flat(Inks), tokens, i + 1, [], where) && where.ops == q.ops.value
  {
    hide Weight, TokensWeight, PathName, GoodSelect, Gain, HeadWeight, GroupWeight, LimitWeight, Lex, ToSQL;
    hide GoodConjunction, Filled, Named, WhereLoop, ParseSelect, OpsWeight, ConjunctionWeight, AndWeight, OrWeight;
    hide ParseColumns, AllConditions, GoodToken;
    var w, text := Flat(Inks), Trim(ToSQL(q));
    InkIsFair();
    ReturnedIsWellFormed(q);
    LexWeighs(w, text, 0);
    assert text[0..] == text;
    TrimWeighs(Inks, ToSQL(q));
    PrintedWeighs(Inks, q);
    var next: nat;
    i, next := HeadRead(w, tokens, q);
    where := Where(q.ops.value, next);
    TailRead(w, tokens, next, HeadQuery(q).(ops := q.ops), q);
    ClauseWeighs(w, tokens, i, where);
    TokensWeightSplit(w, tokens, 0, next, |tokens|);
    TokensWeightSplit(w, tokens, 0, i, next);
    assert tokens[0..|tokens|] == tokens && tokens[next..|tokens|] == tokens[next..] && tokens[0..i] == tokens[..i];
    OneConjunction(w, q.ops.value);
    assert Gain(w, 1) == 0 - AndWeight(w) by { GainOne(w); }
    NoConjunction(w);
    WhereWeighs(w, tokens, i + 1, [], [], where);
  }

  lemma GainOne(w: Scale)
    ensures Gain(w, 1) == 0 - AndWeight(w)
  {
    assert Gain(w, 1) == Gain(w, 0) + OrWeight(w) - AndWeight(w);
  }

  /** What a tight clause starts with is in the conjunction that comes out. */
  lemma {:induction false} TightChain(
    w: Scale, tokens: seq<Token>, i: nat, conditions: seq<Condition>, conjunction: Conjunction, where: Where)
    requires conditions != [] && AllNamed(conditions)
    requires Holds(tokens, i, Tokens(ChainPieces(conditions))) && Tight(w, tokens, i, conjunction, where)
    ensures SqlWhere.InConjunction(where.ops[0], conditions[|conditions| - 1])
    decreases |conditions|
  {
    hide Tight, Identifier, Tokens, Holds, ChainPieces;
    var c, rest := conditions[0], conditions[1..];
    assert conditions == [c] + rest;
    if rest == [] {
      assert conditions == [c];
      ChainLast(tokens, i, c);
      TightReads(w, tokens, i, conjunction, where);
    } else {
      ChainHead(tokens, i, c, rest);
      TightStep(w, tokens, i, conjunction, where);
      TightChain(w, tokens, i + 4, rest, Put(conjunction, c), where);
    }
  }

  lemma OneValue(conjunction: Conjunction, c: Condition, d: Condition)
    requires SqlWhere.DistinctColumns(conjunction) && SqlWhere.SamePlace(c, d)
    requires SqlWhere.InConjunction(conjunction, c) && SqlWhere.InConjunction(conjunction, d)
    ensures c == d
  {
  }

  // ---------- the first string that does not read back ----------

  function ChainRest(conditions: seq<Condition>): seq<Piece> {
    if conditions == [] then [] else [WordPiece("AND")] + ChainPieces(conditions)
  }

  lemma {:induction false} ChainSplit(a: seq<Condition>, b: seq<Condition>)
    requires a != []
    ensures ChainPieces(a + b) == ChainPieces(a) + ChainRest(b)
    decreases |a|
  {
    if |a| == 1 {
      assert (a + b)[1..] == b;
      if b == [] {
        assert a + b == a;
      }
    } else {
      assert (a + b)[1..] == a[1..] + b;
      ChainSplit(a[1..], b);
    }
  }

  lemma {:induction false} SameFront(init: seq<Condition>, c: Condition, d: Condition)
    requires SqlWhere.SamePlace(c, d)
    ensures ChainFront(init + [c]) == ChainFront(init + [d])
    decreases |init|
  {
    if init == [] {
      assert init + [c] == [c] && init + [d] == [d];
    } else {
      assert (init + [c])[1..] == init[1..] + [c] && (init + [d])[1..] == init[1..] + [d];
      SameFront(init[1..], c, d);
    }
  }

  /** What is printed behind the condition at `k`. */
  function Behind(q: Query, conditions: seq<Condition>, k: nat): seq<Piece>
    requires k < |conditions|
  {
    ChainRest(conditions[k + 1..]) + AfterWhere(q)
  }

  /** Nothing, or something after a blank. */
  lemma BehindSeparated(q: Query, conditions: seq<Condition>, k: nat)
    requires k < |conditions|
    ensures var rest := Printed(Behind(q, conditions, k));
      Separated(rest) && (rest == "" ==> k == |conditions| - 1 && WhereEndsText(q))
  {
    var pieces := Behind(q, conditions, k);
    if pieces != [] {
      assert pieces[0].spaced;
    }
  }

  function InFront(q: Query, conditions: seq<Condition>, k: nat): seq<Piece>
    requires Filled(q) && k < |conditions|
  {
    BeforeChain(q) + ChainFront(conditions[..k + 1])
  }

  lemma CutPieces(q: Query, conditions: seq<Condition>, k: nat)
    requires WellFormed(q) && q.ops.Some? && conditions == AllConditions(q.ops.value) && k < |conditions|
    requires forall j :: 0 <= j < k ==> PrintableLiteral(conditions[j].value)
    ensures AllLexable(InFront(q, conditions, k))
    ensures Pieces(q) == InFront(q, conditions, k) + [LiteralPiece(conditions[k].value)] + Behind(q, conditions, k)
  {
    hide Lexable, Filled, Identifier, Pieces, BeforeChain, AfterWhere, ChainPieces, GoodConjunction, AllConditions;
    var upto := conditions[..k + 1];
    PiecesWithWhere(q);
    assert conditions == upto + conditions[k + 1..];
    ChainSplit(upto, conditions[k + 1..]);
    ChainLiteral(upto);
    BeforeChainLexable(q);
    ChainFrontLexable(upto);
    AllLexableAppend(BeforeChain(q), ChainFront(upto));
  }

  lemma LexAtString(front: seq<Piece>, s: string, behind: seq<Piece>)
    requires AllLexable(front)
    ensures
      var tokens := Lex(Printed(front + [LiteralPiece(Text(s))] + behind), 0);
      && |Tokens(front)| < |tokens|
      && tokens[..|Tokens(front)| + 1] == Tokens(front) + [Token(STRING, Reread(s, Printed(behind)))]
  {
    hide Lexable, Lex, Reread, Printed, Tokens, Separated;
    var literal := LiteralPiece(Text(s));
    PrintedThree(front, [literal], behind);
    TextOne(literal);
    var text := " '" + s + "'" + Printed(behind);
    QuotedJoin(Printed(front), s, Printed(behind));
    assert Separated(text) by { BlankSeparates(text); }
    LexPieces(front, text);
    StringRead(s, Printed(behind));
  }

  /** The statement cut before the string at `k`: the pieces in front read back as they are. */
  lemma CutBeforeString(q: Query, conditions: seq<Condition>, k: nat)
    requires WellFormed(q) && q.ops.Some? && conditions == AllConditions(q.ops.value)
    requires k < |conditions| && conditions[k].value.Text?
    requires forall j :: 0 <= j < k ==> PrintableLiteral(conditions[j].value)
    ensures
      var n := |Tokens(InFront(q, conditions, k))|;
      var read := Reread(conditions[k].value.s, Printed(Behind(q, conditions, k)));
      var tokens := Lex(Trim(ToSQL(q)), 0);
      n < |tokens| && tokens[..n + 1] == Tokens(InFront(q, conditions, k)) + [Token(STRING, read)]
  {
    hide Lex, Reread, Pieces, InFront, Behind, AllConditions, GoodConjunction, Identifier, ToSQL, Trim;
    PrintedIsTrimmed(q);
    CutPieces(q, conditions, k);
    LexAtString(InFront(q, conditions, k), conditions[k].value.s, Behind(q, conditions, k));
  }

  lemma QuotedJoin(front: string, s: string, behind: string)
    ensures front + (" " + ("'" + s + "'")) + behind == front + (" '" + s + "'" + behind)
  {
  }

  lemma BlankSeparates(text: string)
    requires text != "" && text[0] == ' '
    ensures Separated(text)
  {
  }

  /** As the tokens stand, the clause up to `k` holds the string as it was read. */
  lemma StringStands(q: Query, conditions: seq<Condition>, k: nat, tokens: seq<Token>, read: string)
    requires Filled(q) && Named(q) && q.ops.Some? && k < |conditions| && AllNamed(conditions)
    requires var front := Tokens(InFront(q, conditions, k));
      |front| < |tokens| && tokens[..|front| + 1] == front + [Token(STRING, read)]
    ensures Holds(tokens, 0, Tokens(HeadPieces(q)))
    ensures
      var c := Condition(conditions[k].column, conditions[k].operator, Text(read));
      Holds(tokens, |Tokens(HeadPieces(q))| + 1, Tokens(ChainPieces(conditions[..k] + [c])))
  {
    hide Filled, Named, Tokens, ChainPieces, HeadPieces, ChainFront;
    var c := Condition(conditions[k].column, conditions[k].operator, Text(read));
    var chain := conditions[..k] + [c];
    assert conditions[..k + 1] == conditions[..k] + [conditions[k]];
    SameFront(conditions[..k], conditions[k], c);
    ChainLiteral(chain);
    var head, front := HeadPieces(q), ChainFront(chain);
    TextAppend(head + [WordPiece("WHERE")], front);
    TextAppend(head, [WordPiece("WHERE")]);
    TextAppend(front, [LiteralPiece(Text(read))]);
    TokensOne(WordPiece("WHERE"));
    TokensOne(LiteralPiece(Text(read)));
    PartsStand(tokens, Tokens(head), Tokens([WordPiece("WHERE")]), Tokens(front), Token(STRING, read));
  }

  lemma PartsStand(tokens: seq<Token>, head: seq<Token>, word: seq<Token>, front: seq<Token>, last: Token)
    requires |head + word + front| < |tokens|
    requires tokens[..|head + word + front| + 1] == head + word + front + [last]
    ensures Holds(tokens, 0, head) && Holds(tokens, |head| + |word|, front + [last])
  {
    var whole := head + (word + (front + [last]));
    assert whole == head + word + front + [last];
    assert forall j :: 0 <= j < |whole| ==> tokens[..|whole|][j] == tokens[j];
    assert Holds(tokens, 0, whole);
    HoldsSplit(tokens, 0, head, word + (front + [last]));
    HoldsSplit(tokens, |head|, word, front + [last]);
  }

  /** If the query comes back, the first string in doubt reads back. */
  lemma StringReadsBack(q: Query, conditions: seq<Condition>, k: nat)
    requires Parse(ToSQL(q)) == Ok(q) && q.ops.Some? && conditions == AllConditions(q.ops.value)
    requires k < |conditions| && conditions[k].value.Text?
    requires forall j :: 0 <= j < k ==> PrintableLiteral(conditions[j].value)
    ensures ReadableLiteral(conditions[k].value, WhereEndsText(q) && k == |conditions| - 1)
  {
    hide Lex, Reread, InFront, Behind, Tokens, ToSQL, Trim, Tight, Parse, Holds, ParseColumns, ChainPieces, HeadPieces;
    hide Identifier, GoodConjunction, Filled, Named, Shaped, QuoteAtEndOnly, AllConditions;
    ReturnedIsWellFormed(q);
    NamedConditions(q);
    var s, rest := conditions[k].value.s, Printed(Behind(q, conditions, k));
    var tokens := Lex(Trim(ToSQL(q)), 0);
    CutBeforeString(q, conditions, k);
    var read := Reread(s, rest);
    StringStands(q, conditions, k, tokens, read);
    SelectParsed(tokens, q);
    var i, where := ClauseIsTight(q, tokens);
    var c := Condition(conditions[k].column, conditions[k].operator, Text(read));
    TightChain(Flat(Inks), tokens, i + 1, conditions[..k] + [c], [], where);
    InOne(q, k);
    OneValue(q.ops.value[0], c, conditions[k]);
    BehindSeparated(q, conditions, k);
    UndoubledReadsExactly(s, rest);
  }

  lemma NamedConditions(q: Query)
    requires Named(q) && q.ops.Some?
    ensures AllNamed(AllConditions(q.ops.value))
  {
  }

  lemma InOne(q: Query, k: nat)
    requires WellFormed(q) && q.ops.Some? && k < |AllConditions(q.ops.value)|
    ensures SqlWhere.DistinctColumns(q.ops.value[0])
    ensures SqlWhere.InConjunction(q.ops.value[0], AllConditions(q.ops.value)[k])
  {
    assert q.ops.value == [q.ops.value[0]];
    OneFlat(q.ops.value[0]);
    FlattenIn(q.ops.value[0], k);
  }

  /** If the query comes back, all its literals read back. */
  lemma {:induction false} LiteralsReadBack(q: Query, conditions: seq<Condition>, k: nat)
    requires Parse(ToSQL(q)) == Ok(q) && q.ops.Some? && conditions == AllConditions(q.ops.value) && k <= |conditions|
    ensures forall j :: 0 <= j < k ==> ReadableLiteral(conditions[j].value, WhereEndsText(q) && j == |conditions| - 1)
  {
    hide Parse, ToSQL, AllConditions, GoodConjunction, Filled, Named, Shaped, QuoteAtEndOnly;
    if k > 0 {
      LiteralsReadBack(q, conditions, k - 1);
      ReturnedIsWellFormed(q);
      if conditions[k - 1].value.Text? {
        StringReadsBack(q, conditions, k - 1);
      }
    }
  }

  // ---------- exactly the queries that come back ----------

  /** One conjunction at most, every column and operator once, plain words for names,
      unsigned numbers, no quote in a string except at the very end of the text, a limit
      that is not 0, and the identifiers asked for exactly when `_id` is selected. */
  predicate Restorable(q: Query) {
    && Printable(q) && q.onlyIds == SelectsIds(q)
    && (q.ops.Some? ==> |q.ops.value| == 1 && SqlWhere.DistinctColumns(q.ops.value[0]))
  }

  lemma RestorableReadsBack(q: Query)
    requires Restorable(q)
    ensures ReadBack(q) == q
  {
    hide Named, ReadableLiterals, SqlWhere.DistinctColumns;
    if q.ops.Some? {
      var conjunction := q.ops.value[0];
      assert q.ops.value == [conjunction];
      OneFlat(conjunction);
      assert FilledConjunction(conjunction);
      assert [] + conjunction == conjunction;
      Refilled([], conjunction);
    }
  }

  /** Parsing what `toSQL` prints gives the query back exactly for the restorable queries. */
  lemma ParseUndoesPrintExactly(q: Query)
    ensures Parse(ToSQL(q)) == Ok(q) <==> Restorable(q)
  {
    hide Parse, ToSQL, Filled, Named, SqlWhere.DistinctColumns, AllConditions, ReadBack;
    if Restorable(q) {
      PrintedReadsBack(q);
      RestorableReadsBack(q);
    }
    if Parse(ToSQL(q)) == Ok(q) {
      ReturnedIsWellFormed(q);
      if q.ops.Some? {
        LiteralsReadBack(q, AllConditions(q.ops.value), |AllConditions(q.ops.value)|);
        assert SqlWhere.DistinctColumns(q.ops.value[0]) by { WellFormedIsDistinct(q); }
      }
    }
  }

  lemma WellFormedIsDistinct(q: Query)
    requires WellFormed(q) && q.ops.Some?
    ensures SqlWhere.DistinctColumns(q.ops.value[0])
  {
  }

  /** Columns with a slash and signed numbers do not come back, wherever they stand. */
  lemma SlashesAndSignsAreLost(q: Query, k: nat)
    requires q.ops.Some? && k < |AllConditions(q.ops.value)|
    requires
      var c := AllConditions(q.ops.value)[k];
      '/' in c.column || (c.value.Number? && c.value.text != "" && c.value.text[0] == '-')
    ensures Parse(ToSQL(q)) != Ok(q)
  {
    hide Parse, ToSQL, Filled, AllConditions;
    ParseUndoesPrintExactly(q);
  }

  /** `column = first OR column = second` */
  function EitherValue(collection: string, column: string, first: string, second: string): Query {
    Query(collection, None, false,
      Some([[Entry(column, [(Eq, Text(first))])], [Entry(column, [(Eq, Text(second))])]]), None, None)
  }

  /** An ordinary OR on one column reads back as its second comparison alone. */
  lemma OrKeepsTheLast(collection: string, column: string, first: string, second: string)
    requires Identifier(collection) && Identifier(column) && '\'' !in first && '\'' !in second
    ensures
      var q := EitherValue(collection, column, first, second);
      Parse(ToSQL(q)) == Ok(q.(ops := Some([[Entry(column, [(Eq, Text(second))])]])))
  {
    hide Parse, ToSQL, Identifier;
    var q := EitherValue(collection, column, first, second);
    var c, d := Condition(column, Eq, Text(first)), Condition(column, Eq, Text(second));
    EitherConditions(q, c, d);
    PrintedReadsBack(q);
    PutTwice(c, d);
  }

  lemma PutTwice(c: Condition, d: Condition)
    requires SqlWhere.SamePlace(c, d)
    ensures PutAll([], [c, d]) == [Entry(d.column, [(d.operator, d.value)])]
  {
    assert [c, d][1..] == [d] && [d][1..] == [];
    var one := Put([], c);
    assert one == [Entry(c.column, [(c.operator, c.value)])];
    assert PutAll(one, [d]) == Put(one, d);
    assert one[1..] == [] && one[0].operand[1..] == [];
    assert PutOperator(one[0].operand, d.operator, d.value) == [(d.operator, d.value)];
  }

  lemma EitherConditions(q: Query, c: Condition, d: Condition)
    requires q.ops == Some([[Entry(c.column, [(c.operator, c.value)])], [Entry(d.column, [(d.operator, d.value)])]])
    ensures AllConditions(q.ops.value) == [c, d]
  {
    var ops := q.ops.value;
    assert ops[1..] == [ops[1]];
    OneFlat(ops[1]);
    FlatOne(ops[0][0]);
    FlatOne(ops[1][0]);
    assert EntryConditions(ops[0][0]) == [c] && EntryConditions(ops[1][0]) == [d];
  }

  lemma FlatOne(entry: Entry)
    ensures Flatten([entry]) == EntryConditions(entry)
  {
    assert [entry][1..] == [];
    assert EntryConditions(entry) + [] == EntryConditions(entry);
  }
}
