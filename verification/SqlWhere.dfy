/** What the conjunctions built from a WHERE clause mean: OR over entries, AND within one,
    against the condition read with AND binding tighter than OR. */
module SqlWhere {
  import opened Common
  import opened SqlLexer
  import opened SqlParser

  /** A truth value for every comparison: what one row makes of them. */
  type Valuation = Condition -> bool

  // ---------- the reference reading ----------

  datatype Expr = Atom(c: Condition) | And(left: Expr, right: Expr) | Or(left: Expr, right: Expr)

  predicate Eval(e: Expr, row: Valuation) {
    match e
    case Atom(c) => row(c)
    case And(left, right) => Eval(left, row) && Eval(right, row)
    case Or(left, right) => Eval(left, row) || Eval(right, row)
  }

  datatype Parsed = Parsed(e: Expr, next: nat)

  function ParseAnd(tokens: seq<Token>, i: nat): Result<Parsed, ParseError>
    decreases |tokens| - i
  {
    var c := ParseCondition(tokens, i);
    if c.Err? then Err(c.error)
    else if Peek(tokens, i + 3).kind == AND then
      var rest := ParseAnd(tokens, i + 4);
      if rest.Err? then rest else Ok(Parsed(And(Atom(c.value), rest.value.e), rest.value.next))
    else Ok(Parsed(Atom(c.value), i + 3))
  }

  lemma {:induction false} ParseAndAdvances(tokens: seq<Token>, i: nat)
    ensures var r := ParseAnd(tokens, i); r.Ok? ==> i + 3 <= r.value.next && i < |tokens|
    decreases |tokens| - i
  {
    if i < |tokens| && Peek(tokens, i + 3).kind == AND {
      ParseAndAdvances(tokens, i + 4);
    }
  }

  function ParseOr(tokens: seq<Token>, i: nat): Result<Parsed, ParseError>
    decreases |tokens| - i
  {
    var left := ParseAnd(tokens, i);
    ParseAndAdvances(tokens, i);
    if left.Err? then left
    else if Peek(tokens, left.value.next).kind == OR then
      var right := ParseOr(tokens, left.value.next + 1);
      if right.Err? then right else Ok(Parsed(Or(left.value.e, right.value.e), right.value.next))
    else left
  }

  // ---------- groups of conditions ----------

  type Group = seq<Condition>

  predicate GroupHolds(group: Group, row: Valuation) {
    forall i :: 0 <= i < |group| ==> row(group[i])
  }

  predicate AnyGroupHolds(groups: seq<Group>, row: Valuation) {
    exists i :: 0 <= i < |groups| && GroupHolds(groups[i], row)
  }

  function AndGroup(e: Expr): Group {
    match e
    case Atom(c) => [c]
    case And(left, right) => AndGroup(left) + AndGroup(right)
    case Or(_, _) => []
  }

  function Groups(e: Expr): seq<Group> {
    match e
    case Or(left, right) => Groups(left) + Groups(right)
    case _ => [AndGroup(e)]
  }

  predicate Conjunctive(e: Expr) {
    match e
    case Atom(_) => true
    case And(left, right) => Conjunctive(left) && Conjunctive(right)
    case Or(_, _) => false
  }

  predicate Disjunctive(e: Expr) {
    match e
    case Or(left, right) => Disjunctive(left) && Disjunctive(right)
    case _ => Conjunctive(e)
  }

  lemma {:induction false} AndGroupMeans(e: Expr, row: Valuation)
    requires Conjunctive(e)
    ensures Eval(e, row) <==> GroupHolds(AndGroup(e), row)
  {
    match e
    case Atom(c) =>
      assert AndGroup(e)[0] == c;
    case And(left, right) =>
      AndGroupMeans(left, row);
      AndGroupMeans(right, row);
      var a, b := AndGroup(left), AndGroup(right);
      if GroupHolds(a + b, row) {
        assert forall i :: 0 <= i < |a| ==> a[i] == (a + b)[i];
        assert forall i :: 0 <= i < |b| ==> b[i] == (a + b)[|a| + i];
      }
  }

  lemma {:induction false} GroupsMean(e: Expr, row: Valuation)
    requires Disjunctive(e)
    ensures Eval(e, row) <==> AnyGroupHolds(Groups(e), row)
  {
    match e
    case Or(left, right) =>
      GroupsMean(left, row);
      GroupsMean(right, row);
      AnyGroupAppend(Groups(left), Groups(right), row);
    case _ =>
      AndGroupMeans(e, row);
      assert Groups(e)[0] == AndGroup(e);
  }

  lemma AnyGroupAppend(a: seq<Group>, b: seq<Group>, row: Valuation)
    ensures AnyGroupHolds(a + b, row) <==> AnyGroupHolds(a, row) || AnyGroupHolds(b, row)
  {
    if AnyGroupHolds(a, row) {
      var i :| 0 <= i < |a| && GroupHolds(a[i], row);
      assert (a + b)[i] == a[i];
    }
    if AnyGroupHolds(b, row) {
      var i :| 0 <= i < |b| && GroupHolds(b[i], row);
      assert (a + b)[|a| + i] == b[i];
    }
  }

  lemma {:induction false} ParseAndShape(tokens: seq<Token>, i: nat)
    ensures var r := ParseAnd(tokens, i); r.Ok? ==> Conjunctive(r.value.e)
    decreases |tokens| - i
  {
    if i < |tokens| && Peek(tokens, i + 3).kind == AND {
      ParseAndShape(tokens, i + 4);
    }
  }

  lemma {:induction false} ParseOrShape(tokens: seq<Token>, i: nat)
    ensures var r := ParseOr(tokens, i); r.Ok? ==> Disjunctive(r.value.e)
    decreases |tokens| - i
  {
    ParseAndShape(tokens, i);
    ParseAndAdvances(tokens, i);
    var left := ParseAnd(tokens, i);
    if left.Ok? && Peek(tokens, left.value.next).kind == OR {
      ParseOrShape(tokens, left.value.next + 1);
    }
    if left.Ok? && left.value.e.And? {
      assert Disjunctive(left.value.e);
    }
  }

  // ---------- the loop collects exactly these groups ----------

  /** One `$ops` entry from the conditions of a group, in order. */
  function Merge(group: Group): Conjunction {
    if group == [] then [] else Put(Merge(group[..|group| - 1]), group[|group| - 1])
  }

  function MergeAll(groups: seq<Group>): seq<Conjunction> {
    seq(|groups|, i requires 0 <= i < |groups| => Merge(groups[i]))
  }

  lemma MergeNext(group: Group, c: Condition)
    ensures Merge(group + [c]) == Put(Merge(group), c)
  {
    assert (group + [c])[..|group|] == group;
  }

  /** Where the loop stands after an AND chain of conditions ending at `next`. */
  function AfterChain(tokens: seq<Token>, next: nat, done: seq<Conjunction>): Result<Where, ParseError> {
    if Peek(tokens, next).kind == OR then WhereLoop(tokens, next + 1, done, []) else Ok(Where(done, next))
  }

  /** Running through an AND chain fills the current conjunction with its conditions. */
  lemma {:induction false} LoopTakesAnd(tokens: seq<Token>, i: nat, done: seq<Conjunction>, group: Group)
    ensures
      var left := ParseAnd(tokens, i);
      WhereLoop(tokens, i, done, Merge(group)) ==
        if left.Err? then Err(left.error)
        else AfterChain(tokens, left.value.next, done + [Merge(group + AndGroup(left.value.e))])
    decreases |tokens| - i
  {
    hide Put, ParseCondition, Merge;
    var c := ParseCondition(tokens, i);
    if c.Ok? {
      ConditionInside(tokens, i);
      MergeNext(group, c.value);
      if Peek(tokens, i + 3).kind == AND {
        LoopTakesAnd(tokens, i + 4, done, group + [c.value]);
        var rest := ParseAnd(tokens, i + 4);
        if rest.Ok? {
          ChainGroup(group, c.value, rest.value.e);
        }
      } else {
        assert AndGroup(Atom(c.value)) == [c.value];
      }
    }
  }

  lemma ConditionInside(tokens: seq<Token>, i: nat)
    requires ParseCondition(tokens, i).Ok?
    ensures i < |tokens|
  {
  }

  lemma ChainGroup(group: Group, c: Condition, e: Expr)
    ensures group + [c] + AndGroup(e) == group + AndGroup(And(Atom(c), e))
  {
    assert AndGroup(Atom(c)) == [c];
  }

  lemma OneGroup(e: Expr)
    requires Conjunctive(e)
    ensures Groups(e) == [AndGroup(e)] && MergeAll(Groups(e)) == [Merge(AndGroup(e))]
  {
  }

  lemma GroupsOfOr(left: Expr, right: Expr, done: seq<Conjunction>)
    requires Conjunctive(left)
    ensures done + [Merge(AndGroup(left))] + MergeAll(Groups(right)) == done + MergeAll(Groups(Or(left, right)))
  {
    OneGroup(left);
    assert Groups(Or(left, right)) == [AndGroup(left)] + Groups(right);
  }

  /** The loop's verdict read off the reference parser's. */
  function Collected(e: Result<Parsed, ParseError>, done: seq<Conjunction>): Result<Where, ParseError> {
    if e.Err? then Err(e.error) else Ok(Where(done + MergeAll(Groups(e.value.e)), e.value.next))
  }

  lemma CollectedOr(left: Expr, right: Result<Parsed, ParseError>, done: seq<Conjunction>)
    requires Conjunctive(left)
    ensures
      var whole := if right.Err? then right else Ok(Parsed(Or(left, right.value.e), right.value.next));
      Collected(right, done + [Merge(AndGroup(left))]) == Collected(whole, done)
  {
    if right.Ok? {
      GroupsOfOr(left, right.value.e, done);
    }
  }

  lemma ChainFromEmpty(tokens: seq<Token>, i: nat, done: seq<Conjunction>)
    ensures
      var left := ParseAnd(tokens, i);
      WhereLoop(tokens, i, done, []) ==
        if left.Err? then Err(left.error)
        else AfterChain(tokens, left.value.next, done + [Merge(AndGroup(left.value.e))])
  {
    LoopTakesAnd(tokens, i, done, []);
    var left := ParseAnd(tokens, i);
    if left.Ok? {
      assert [] + AndGroup(left.value.e) == AndGroup(left.value.e);
    }
  }

  lemma {:induction false} LoopTakesOr(tokens: seq<Token>, i: nat, done: seq<Conjunction>)
    ensures WhereLoop(tokens, i, done, []) == Collected(ParseOr(tokens, i), done)
    decreases |tokens| - i
  {
    ChainFromEmpty(tokens, i, done);
    ParseAndAdvances(tokens, i);
    ParseAndShape(tokens, i);
    var left := ParseAnd(tokens, i);
    if left.Ok? {
      var next := left.value.next;
      if Peek(tokens, next).kind == OR {
        LoopTakesOr(tokens, next + 1, done + [Merge(AndGroup(left.value.e))]);
        CollectedOr(left.value.e, ParseOr(tokens, next + 1), done);
      } else {
        OneGroup(left.value.e);
      }
    }
  }

  // ---------- what a merged conjunction keeps ----------

  predicate InOperand(operand: seq<(Operator, Literal)>, operator: Operator, value: Literal) {
    exists i :: 0 <= i < |operand| && operand[i] == (operator, value)
  }

  predicate InConjunction(conjunction: Conjunction, c: Condition) {
    exists i :: 0 <= i < |conjunction|
      && conjunction[i].column == c.column && InOperand(conjunction[i].operand, c.operator, c.value)
  }

  /** AND over the operators of every column. */
  ghost predicate ConjunctionHolds(conjunction: Conjunction, row: Valuation) {
    forall c :: InConjunction(conjunction, c) ==> row(c)
  }

  ghost predicate OpsHold(ops: seq<Conjunction>, row: Valuation) {
    exists i :: 0 <= i < |ops| && ConjunctionHolds(ops[i], row)
  }

  predicate SamePlace(a: Condition, b: Condition) {
    a.column == b.column && a.operator == b.operator
  }

  predicate DistinctOperators(operand: seq<(Operator, Literal)>) {
    forall i, j :: 0 <= i < j < |operand| ==> operand[i].0 != operand[j].0
  }

  predicate DistinctColumns(conjunction: Conjunction) {
    && (forall i, j :: 0 <= i < j < |conjunction| ==> conjunction[i].column != conjunction[j].column)
    && (forall i :: 0 <= i < |conjunction| ==> DistinctOperators(conjunction[i].operand))
  }

  lemma {:induction false} PutOperatorKeeps(operand: seq<(Operator, Literal)>, operator: Operator, value: Literal)
    requires DistinctOperators(operand)
    ensures DistinctOperators(PutOperator(operand, operator, value))
    ensures forall o, v :: InOperand(PutOperator(operand, operator, value), o, v) <==>
      if o == operator then v == value else InOperand(operand, o, v)
  {
    var result := PutOperator(operand, operator, value);
    if operand == [] {
      assert result[0] == (operator, value);
    } else {
      var first, rest := operand[0], operand[1..];
      if first.0 == operator {
        forall o, v
          ensures InOperand(result, o, v) <==> if o == operator then v == value else InOperand(operand, o, v)
        {
          InOperandCons((operator, value), rest, o, v);
          InOperandCons(first, rest, o, v);
          assert operand == [first] + rest;
        }
      } else {
        PutOperatorKeeps(rest, operator, value);
        var rest' := PutOperator(rest, operator, value);
        forall o, v
          ensures InOperand(result, o, v) <==> if o == operator then v == value else InOperand(operand, o, v)
        {
          InOperandCons(first, rest', o, v);
          InOperandCons(first, rest, o, v);
          assert operand == [first] + rest;
        }
        forall j | 0 <= j < |rest'|
          ensures rest'[j].0 != first.0
        {
          assert InOperand(rest', rest'[j].0, rest'[j].1);
        }
      }
    }
  }

  lemma InOperandCons(first: (Operator, Literal), rest: seq<(Operator, Literal)>, o: Operator, v: Literal)
    ensures InOperand([first] + rest, o, v) <==> first == (o, v) || InOperand(rest, o, v)
  {
    var all := [first] + rest;
    if first == (o, v) {
      assert all[0] == (o, v);
    }
    if InOperand(rest, o, v) {
      var i :| 0 <= i < |rest| && rest[i] == (o, v);
      assert all[i + 1] == (o, v);
    }
  }

  lemma InConjunctionCons(first: Entry, rest: Conjunction, c: Condition)
    ensures InConjunction([first] + rest, c) <==>
      (first.column == c.column && InOperand(first.operand, c.operator, c.value)) || InConjunction(rest, c)
  {
    var all := [first] + rest;
    if first.column == c.column && InOperand(first.operand, c.operator, c.value) {
      assert all[0] == first;
    }
    if InConjunction(rest, c) {
      var i :| 0 <= i < |rest| && rest[i].column == c.column && InOperand(rest[i].operand, c.operator, c.value);
      assert all[i + 1] == rest[i];
    }
  }

  /** Putting a condition replaces what was at its place and keeps everything else. */
  lemma {:induction false} PutKeeps(conjunction: Conjunction, c: Condition)
    requires DistinctColumns(conjunction)
    ensures DistinctColumns(Put(conjunction, c))
    ensures forall d :: InConjunction(Put(conjunction, c), d) <==>
      if SamePlace(c, d) then d == c else InConjunction(conjunction, d)
    ensures forall i :: 0 <= i < |Put(conjunction, c)| ==>
      Put(conjunction, c)[i].column == c.column || exists j :: 0 <= j < |conjunction| && conjunction[j].column == Put(conjunction, c)[i].column
  {
    var result := Put(conjunction, c);
    if conjunction == [] {
      forall d
        ensures InConjunction(result, d) <==> d == c
      {
        assert result == [result[0]] + [];
        InConjunctionCons(result[0], [], d);
        InOperandCons((c.operator, c.value), [], d.operator, d.value);
        assert result[0].operand == [(c.operator, c.value)] + [];
      }
    } else {
      var first, rest := conjunction[0], conjunction[1..];
      assert conjunction == [first] + rest;
      if first.column == c.column {
        PutOperatorKeeps(first.operand, c.operator, c.value);
        forall d
          ensures InConjunction(result, d) <==>
            if SamePlace(c, d) then d == c else InConjunction(conjunction, d)
        {
          InConjunctionCons(result[0], rest, d);
          InConjunctionCons(first, rest, d);
        }
      } else {
        PutKeeps(rest, c);
        forall d
          ensures InConjunction(result, d) <==>
            if SamePlace(c, d) then d == c else InConjunction(conjunction, d)
        {
          InConjunctionCons(first, Put(rest, c), d);
          InConjunctionCons(first, rest, d);
        }
      }
    }
  }

  /** A condition reaches the merged entry unless a later one of its group takes its place. */
  predicate LastOfPlace(group: Group, c: Condition) {
    exists i :: 0 <= i < |group| && group[i] == c && forall j :: i < j < |group| ==> !SamePlace(group[j], c)
  }

  lemma LastOfPlaceNext(group: Group, c: Condition, d: Condition)
    ensures LastOfPlace(group + [c], d) <==> if SamePlace(c, d) then d == c else LastOfPlace(group, d)
  {
    var all := group + [c];
    assert all[|group|] == c;
    assert forall j :: 0 <= j < |group| ==> all[j] == group[j];
    if !SamePlace(c, d) && LastOfPlace(group, d) {
      var i :| 0 <= i < |group| && group[i] == d && forall j :: i < j < |group| ==> !SamePlace(group[j], d);
      assert all[i] == d;
    }
  }

  lemma {:induction false} MergeKeeps(group: Group)
    ensures DistinctColumns(Merge(group))
    ensures forall d :: InConjunction(Merge(group), d) <==> LastOfPlace(group, d)
  {
    if group != [] {
      var init, c := group[..|group| - 1], group[|group| - 1];
      MergeKeeps(init);
      PutKeeps(Merge(init), c);
      assert group == init + [c];
      forall d
        ensures InConjunction(Merge(group), d) <==> LastOfPlace(group, d)
      {
        LastOfPlaceNext(init, c, d);
      }
    }
  }

  // ---------- the meaning of a WHERE clause ----------

  /** No condition of the group is overwritten by a different one. */
  predicate NoOverwrite(group: Group) {
    forall i, j :: 0 <= i < j < |group| && SamePlace(group[i], group[j]) ==> group[i] == group[j]
  }

  lemma {:induction false} LastExists(group: Group, i: nat)
    requires NoOverwrite(group) && i < |group|
    ensures LastOfPlace(group, group[i])
    decreases |group| - i
  {
    if j :| i < j < |group| && SamePlace(group[j], group[i]) {
      LastExists(group, j);
    }
  }

  lemma MergedIsWeaker(group: Group, row: Valuation)
    ensures GroupHolds(group, row) ==> ConjunctionHolds(Merge(group), row)
  {
    MergeKeeps(group);
  }

  lemma MergedIsEqual(group: Group, row: Valuation)
    requires NoOverwrite(group)
    ensures GroupHolds(group, row) <==> ConjunctionHolds(Merge(group), row)
  {
    MergeKeeps(group);
    forall i | 0 <= i < |group|
      ensures LastOfPlace(group, group[i])
    {
      LastExists(group, i);
    }
  }

  lemma OpsOf(groups: seq<Group>, row: Valuation)
    ensures AnyGroupHolds(groups, row) ==> OpsHold(MergeAll(groups), row)
    ensures (forall i :: 0 <= i < |groups| ==> NoOverwrite(groups[i])) ==>
      (AnyGroupHolds(groups, row) <==> OpsHold(MergeAll(groups), row))
  {
    if AnyGroupHolds(groups, row) {
      var i :| 0 <= i < |groups| && GroupHolds(groups[i], row);
      MergedIsWeaker(groups[i], row);
      assert ConjunctionHolds(MergeAll(groups)[i], row);
    }
    if OpsHold(MergeAll(groups), row) && forall i :: 0 <= i < |groups| ==> NoOverwrite(groups[i]) {
      var i :| 0 <= i < |groups| && ConjunctionHolds(MergeAll(groups)[i], row);
      MergedIsEqual(groups[i], row);
    }
  }

  /** The loop accepts the token sequences the reference grammar accepts, stops at the same
      token, never rejects a row the SQL condition admits, and agrees with it on every row
      when no AND chain repeats a (column, operator) pair with another value. */
  lemma WhereMeaning(tokens: seq<Token>, i: nat, row: Valuation)
    ensures
      var sql := ParseOr(tokens, i);
      var loop := WhereLoop(tokens, i, [], []);
      && loop.Ok? == sql.Ok?
      && (sql.Err? ==> loop.error == sql.error)
      && (sql.Ok? ==>
        && loop.value.next == sql.value.next
        && (Eval(sql.value.e, row) ==> OpsHold(loop.value.ops, row))
        && ((forall k :: 0 <= k < |Groups(sql.value.e)| ==> NoOverwrite(Groups(sql.value.e)[k])) ==>
          (Eval(sql.value.e, row) <==> OpsHold(loop.value.ops, row))))
  {
    LoopTakesOr(tokens, i, []);
    ParseOrShape(tokens, i);
    var sql := ParseOr(tokens, i);
    if sql.Ok? {
      GroupsMean(sql.value.e, row);
      OpsOf(Groups(sql.value.e), row);
      assert [] + MergeAll(Groups(sql.value.e)) == MergeAll(Groups(sql.value.e));
    }
  }

  // ---------- exactly when the meaning is kept ----------

  /** Everything `needed` asks for survives the merging of `group`. */
  predicate Implied(group: Group, needed: Group) {
    forall k :: 0 <= k < |needed| ==> LastOfPlace(group, needed[k])
  }

  predicate ImpliesSome(group: Group, groups: seq<Group>) {
    exists j :: 0 <= j < |groups| && Implied(group, groups[j])
  }

  /** Every merged group still asks for all the conditions of some group. */
  predicate Covered(groups: seq<Group>) {
    forall i :: 0 <= i < |groups| ==> ImpliesSome(groups[i], groups)
  }

  ghost predicate SameMeaning(e: Expr, ops: seq<Conjunction>) {
    forall row: Valuation :: Eval(e, row) <==> OpsHold(ops, row)
  }

  lemma ImpliedHolds(group: Group, needed: Group, row: Valuation)
    requires Implied(group, needed) && ConjunctionHolds(Merge(group), row)
    ensures GroupHolds(needed, row)
  {
    MergeKeeps(group);
  }

  lemma SomeMergedHolds(groups: seq<Group>, row: Valuation) returns (i: nat)
    requires OpsHold(MergeAll(groups), row)
    ensures i < |groups| && ConjunctionHolds(Merge(groups[i]), row)
  {
    i :| 0 <= i < |groups| && ConjunctionHolds(MergeAll(groups)[i], row);
  }

  lemma CoveredIsEnough(groups: seq<Group>, row: Valuation)
    requires Covered(groups) && OpsHold(MergeAll(groups), row)
    ensures AnyGroupHolds(groups, row)
  {
    var i := SomeMergedHolds(groups, row);
    var j :| 0 <= j < |groups| && Implied(groups[i], groups[j]);
    ImpliedHolds(groups[i], groups[j], row);
  }

  /** The row that satisfies only what survived of group `i` tells an uncovered clause apart. */
  lemma CoveredIsNeeded(groups: seq<Group>, i: nat)
    requires i < |groups|
    requires !ImpliesSome(groups[i], groups)
    ensures
      var row := (c: Condition) => LastOfPlace(groups[i], c);
      OpsHold(MergeAll(groups), row) && !AnyGroupHolds(groups, row)
  {
    var row := (c: Condition) => LastOfPlace(groups[i], c);
    MergeKeeps(groups[i]);
    assert ConjunctionHolds(MergeAll(groups)[i], row);
  }

  lemma CoveredKeepsMeaning(e: Expr, row: Valuation)
    requires Disjunctive(e) && Covered(Groups(e))
    ensures Eval(e, row) <==> OpsHold(MergeAll(Groups(e)), row)
  {
    GroupsMean(e, row);
    OpsOf(Groups(e), row);
    if OpsHold(MergeAll(Groups(e)), row) {
      CoveredIsEnough(Groups(e), row);
    }
  }

  lemma UncoveredChangesMeaning(e: Expr) returns (row: Valuation)
    requires Disjunctive(e) && !Covered(Groups(e))
    ensures OpsHold(MergeAll(Groups(e)), row) && !Eval(e, row)
  {
    var groups := Groups(e);
    var k :| 0 <= k < |groups| && !ImpliesSome(groups[k], groups);
    CoveredIsNeeded(groups, k);
    row := (c: Condition) => LastOfPlace(groups[k], c);
    GroupsMean(e, row);
  }

  /** The `$ops` mean what the SQL condition means, on every row, exactly for covered clauses. */
  lemma MeaningKeptExactly(tokens: seq<Token>, i: nat)
    requires ParseOr(tokens, i).Ok?
    ensures
      var e := ParseOr(tokens, i).value.e;
      var loop := WhereLoop(tokens, i, [], []);
      loop.Ok? && (SameMeaning(e, loop.value.ops) <==> Covered(Groups(e)))
  {
    var e := ParseOr(tokens, i).value.e;
    LoopTakesOr(tokens, i, []);
    ParseOrShape(tokens, i);
    var ops := MergeAll(Groups(e));
    assert [] + ops == ops;
    if Covered(Groups(e)) {
      forall row: Valuation
        ensures Eval(e, row) <==> OpsHold(ops, row)
      {
        CoveredKeepsMeaning(e, row);
      }
    } else {
      var row := UncoveredChangesMeaning(e);
    }
  }

  /** Without OR the condition is the absence of overwriting. */
  lemma OneChainKeptExactly(group: Group)
    ensures Covered([group]) <==> NoOverwrite(group)
  {
    if NoOverwrite(group) {
      forall k | 0 <= k < |group|
        ensures LastOfPlace(group, group[k])
      {
        LastExists(group, k);
      }
      assert Implied([group][0], [group][0]);
    }
    if Covered([group]) {
      assert Implied([group][0], [group][0]);
      forall i, j | 0 <= i < j < |group| && SamePlace(group[i], group[j])
        ensures group[i] == group[j]
      {
        assert LastOfPlace(group, group[i]) && LastOfPlace(group, group[j]);
      }
    }
  }
}
