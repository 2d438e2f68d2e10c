/** What overwriting a condition does to rows with values: comparisons of one column depend
    on each other through its value, those of different columns do not. */
module SqlRows {
  import opened Common
  import opened SqlLexer
  import opened SqlParser
  import opened SqlWhere
  import Decimal

  /** The valuation of a row: each comparison is made with its column's value. */
  function ValuationOf<V>(holds: (V, Operator, Literal) -> bool, row: string -> V): Valuation {
    (c: Condition) => holds(row(c.column), c.operator, c.value)
  }

  /** The merged chain admits the rows that the chain admits. */
  ghost predicate SameOnRows<V(!new)>(group: Group, holds: (V, Operator, Literal) -> bool) {
    forall row: string -> V ::
      GroupHolds(group, ValuationOf(holds, row)) <==> ConjunctionHolds(Merge(group), ValuationOf(holds, row))
  }

  /** The value meets what is left of the column's conditions. */
  ghost predicate Survives<V>(group: Group, holds: (V, Operator, Literal) -> bool, column: string, v: V) {
    forall c: Condition :: LastOfPlace(group, c) && c.column == column ==> holds(v, c.operator, c.value)
  }

  /** Some value of the column meets what is left of its conditions. */
  ghost predicate Satisfiable<V(!new)>(group: Group, holds: (V, Operator, Literal) -> bool, column: string) {
    exists v: V :: Survives(group, holds, column, v)
  }

  /** Every value that meets what is left of its column's conditions meets the condition. */
  ghost predicate ImpliedBySurvivors<V(!new)>(group: Group, holds: (V, Operator, Literal) -> bool, c: Condition) {
    forall v: V :: Survives(group, holds, c.column, v) ==> holds(v, c.operator, c.value)
  }

  lemma MergedOnRow<V>(group: Group, holds: (V, Operator, Literal) -> bool, row: string -> V)
    ensures ConjunctionHolds(Merge(group), ValuationOf(holds, row))
       <==> forall column :: Survives(group, holds, column, row(column))
  {
    MergeKeeps(group);
    var valuation := ValuationOf(holds, row);
    if forall column :: Survives(group, holds, column, row(column)) {
      forall c | InConjunction(Merge(group), c)
        ensures valuation(c)
      {
        assert Survives(group, holds, c.column, row(c.column));
      }
    }
    if ConjunctionHolds(Merge(group), valuation) {
      forall column
        ensures Survives(group, holds, column, row(column))
      {
        forall c: Condition | LastOfPlace(group, c) && c.column == column
          ensures holds(row(column), c.operator, c.value)
        {
          assert valuation(c);
        }
      }
    }
  }

  lemma KeptWhereImplied<V(!new)>(group: Group, holds: (V, Operator, Literal) -> bool, row: string -> V)
    requires (exists column :: !Satisfiable(group, holds, column))
             || forall i :: 0 <= i < |group| ==> ImpliedBySurvivors(group, holds, group[i])
    ensures GroupHolds(group, ValuationOf(holds, row)) <==> ConjunctionHolds(Merge(group), ValuationOf(holds, row))
  {
    hide Survives;
    MergedIsWeaker(group, ValuationOf(holds, row));
    MergedOnRow(group, holds, row);
    if ConjunctionHolds(Merge(group), ValuationOf(holds, row)) {
      forall column
        ensures Satisfiable(group, holds, column)
      {
        assert Survives(group, holds, column, row(column));
      }
      forall i | 0 <= i < |group|
        ensures ValuationOf(holds, row)(group[i])
      {
        assert ImpliedBySurvivors(group, holds, group[i]);
        assert Survives(group, holds, group[i].column, row(group[i].column));
      }
    }
  }

  /** A row that the merged chain lets through and the chain does not. */
  lemma LetThrough<V(!new)>(group: Group, holds: (V, Operator, Literal) -> bool, i: nat, v: V) returns (row: string -> V)
    requires i < |group| && (forall column :: Satisfiable(group, holds, column))
    requires Survives(group, holds, group[i].column, v) && !holds(v, group[i].operator, group[i].value)
    ensures ConjunctionHolds(Merge(group), ValuationOf(holds, row)) && !GroupHolds(group, ValuationOf(holds, row))
  {
    var place := group[i].column;
    hide Survives;
    row := (column: string) =>
      if column == place then v
      else
        assert Satisfiable(group, holds, column);
        var w: V :| Survives(group, holds, column, w);
        w;
    MergedOnRow(group, holds, row);
    assert !ValuationOf(holds, row)(group[i]);
  }

  /** Whatever values and comparisons are: merging an AND chain keeps its meaning on all rows
      exactly when some column's remaining conditions cannot be met at all, or every condition
      follows from what is left of the conditions on its own column. */
  lemma ChainKeptOnRowsExactly<V(!new)>(group: Group, holds: (V, Operator, Literal) -> bool)
    ensures SameOnRows(group, holds) <==>
      (exists column :: !Satisfiable(group, holds, column))
      || forall i :: 0 <= i < |group| ==> ImpliedBySurvivors(group, holds, group[i])
  {
    hide Survives, Satisfiable;
    if (exists column :: !Satisfiable(group, holds, column))
       || forall i :: 0 <= i < |group| ==> ImpliedBySurvivors(group, holds, group[i]) {
      forall row: string -> V
        ensures GroupHolds(group, ValuationOf(holds, row)) <==> ConjunctionHolds(Merge(group), ValuationOf(holds, row))
      {
        KeptWhereImplied(group, holds, row);
      }
    } else {
      var i :| 0 <= i < |group| && !ImpliedBySurvivors(group, holds, group[i]);
      var v: V :| Survives(group, holds, group[i].column, v) && !holds(v, group[i].operator, group[i].value);
      var row := LetThrough(group, holds, i, v);
    }
  }

  // ---------- two comparisons of one column with numbers ----------

  predicate Compared(operator: Operator, n: nat, m: nat) {
    match operator
    case Eq => n == m
    case Ne => n != m
    case Gt => n > m
    case Lt => n < m
    case Gte => n >= m
    case Lte => n <= m
    case Like => false
  }

  predicate NumberHolds(v: nat, operator: Operator, literal: Literal) {
    literal.Number? && Compared(operator, v, Decimal.Value(literal.text))
  }

  /** The second comparison implies the first. */
  predicate Tightens(operator: Operator, n: nat, m: nat) {
    match operator
    case Gt => n <= m
    case Gte => n <= m
    case Lt => m <= n
    case Lte => m <= n
    case Like => true
    case _ => n == m
  }

  function Repeated(column: string, operator: Operator, first: string, second: string): Group {
    [Condition(column, operator, Number(first)), Condition(column, operator, Number(second))]
  }

  lemma LastOfTwo(column: string, operator: Operator, first: string, second: string, c: Condition)
    ensures LastOfPlace(Repeated(column, operator, first, second), c)
       <==> c == Condition(column, operator, Number(second))
  {
    var group := Repeated(column, operator, first, second);
    assert SamePlace(group[1], group[0]);
    assert group[1] == Condition(column, operator, Number(second));
  }

  lemma TwoSurvive(column: string, operator: Operator, first: string, second: string, v: nat)
    ensures Survives(Repeated(column, operator, first, second), NumberHolds, column, v)
       <==> Compared(operator, v, Decimal.Value(second))
  {
    hide LastOfPlace;
    var c := Condition(column, operator, Number(second));
    forall d: Condition
      ensures LastOfPlace(Repeated(column, operator, first, second), d) <==> d == c
    {
      LastOfTwo(column, operator, first, second, d);
    }
  }

  /** `column op first AND column op second` means the same as its second half, which is all
      that is kept, exactly when the second number tightens the first. */
  lemma PairKeptExactly(column: string, operator: Operator, first: string, second: string)
    ensures SameOnRows(Repeated(column, operator, first, second), NumberHolds)
       <==> Tightens(operator, Decimal.Value(first), Decimal.Value(second))
  {
    hide Survives, SameOnRows;
    var group := Repeated(column, operator, first, second);
    var n, m := Decimal.Value(first), Decimal.Value(second);
    ChainKeptOnRowsExactly(group, NumberHolds);
    forall v: nat
      ensures Survives(group, NumberHolds, column, v) <==> Compared(operator, v, m)
    {
      TwoSurvive(column, operator, first, second, v);
    }
    assert ImpliedBySurvivors(group, NumberHolds, group[1]);
    OtherColumnsFree(column, operator, first, second);
    Witnesses(operator, n, m);
    if Tightens(operator, n, m) {
      if operator == Like {
        assert !Satisfiable(group, NumberHolds, column);
      } else {
        assert ImpliedBySurvivors(group, NumberHolds, group[0]);
      }
    } else {
      assert !ImpliedBySurvivors(group, NumberHolds, group[0]);
      assert Satisfiable(group, NumberHolds, column);
    }
  }

  lemma OtherColumnsFree(column: string, operator: Operator, first: string, second: string)
    ensures forall other :: other != column ==>
      Satisfiable(Repeated(column, operator, first, second), NumberHolds, other)
  {
    forall other | other != column
      ensures Satisfiable(Repeated(column, operator, first, second), NumberHolds, other)
    {
      assert Survives(Repeated(column, operator, first, second), NumberHolds, other, 0);
    }
  }

  /** Where the second number does not tighten the first, a value meets only the second. */
  lemma Witnesses(operator: Operator, n: nat, m: nat)
    ensures !Tightens(operator, n, m) ==> exists v: nat :: Compared(operator, v, m) && !Compared(operator, v, n)
  {
    if !Tightens(operator, n, m) {
      var v := if operator in [Eq, Gte, Lte] then m else n;
      assert Compared(operator, v, m) && !Compared(operator, v, n);
    }
  }

  /** `a > 5 AND a > 1` becomes `a > 1` alone: the row whose `a` is 3 is let through. */
  lemma OverwriteLosesCondition()
    ensures
      var group := Repeated("a", Gt, "5", "1");
      var row := ValuationOf(NumberHolds, column => 3);
      && Merge(group) == [Entry("a", [(Gt, Number("1"))])]
      && ConjunctionHolds(Merge(group), row) && !GroupHolds(group, row)
  {
    hide LastOfPlace, Merge, InConjunction;
    var group := Repeated("a", Gt, "5", "1");
    var row := ValuationOf(NumberHolds, column => 3);
    DigitsOfExample();
    MergedPair("a", Gt, "5", "1");
    MergeKeeps(group);
    forall c | InConjunction(Merge(group), c)
      ensures row(c)
    {
      assert LastOfPlace(group, c);
      LastOfTwo("a", Gt, "5", "1", c);
      assert NumberHolds(3, Gt, Number("1"));
    }
    assert !row(group[0]);
  }

  lemma DigitsOfExample()
    ensures Decimal.Value("5") == 5 && Decimal.Value("1") == 1
  {
    OneDigit('5');
    OneDigit('1');
  }

  lemma OneDigit(c: char)
    ensures Decimal.Value([c]) == Decimal.DigitValue(c)
  {
    assert [c][..0] == "" && Decimal.Value("") == 0;
  }

  lemma MergedPair(column: string, operator: Operator, first: string, second: string)
    ensures Merge(Repeated(column, operator, first, second)) == [Entry(column, [(operator, Number(second))])]
  {
    var group := Repeated(column, operator, first, second);
    MergeNext([], group[0]);
    MergeNext([group[0]], group[1]);
    assert [] + [group[0]] == [group[0]] && [group[0]] + [group[1]] == group;
    var one := Put([], group[0]);
    assert one == [Entry(column, [(operator, Number(first))])] && one[1..] == [] && one[0].operand[1..] == [];
    assert PutOperator(one[0].operand, operator, Number(second)) == [(operator, Number(second))];
  }
}
