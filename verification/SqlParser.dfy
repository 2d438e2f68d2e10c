/** The SELECT part of the recursive-descent parser. */
module SqlParser {
  import opened Common
  import opened SqlLexer
  import Decimal

  datatype Literal = Text(s: string) | Number(text: string) | Boolean(b: bool) | Null

  datatype Operator = Eq | Ne | Gt | Lt | Gte | Lte | Like

  datatype Condition = Condition(column: string, operator: Operator, value: Literal)

  /** The operators of one column, in insertion order. */
  datatype Entry = Entry(column: string, operand: seq<(Operator, Literal)>)

  /** One `$ops` entry: columns in insertion order. */
  type Conjunction = seq<Entry>

  /** Compared numbers stay the text that was lexed; `select` is absent for `*`. */
  datatype Query = Query(
    collection: string,
    select: Option<seq<string>>,
    onlyIds: bool,
    ops: Option<seq<Conjunction>>,
    groupBy: Option<string>,
    limit: Option<nat>)

  datatype ParseError = InvalidSyntax | UnexpectedValue | UnknownOperator | JoinQuery | Unsupported

  function OperatorOf(kind: Kind): Option<Operator> {
    match kind
    case EQUALS => Some(Eq)
    case NOT_EQUALS => Some(Ne)
    case GREATER_THAN => Some(Gt)
    case LESS_THAN => Some(Lt)
    case GREATER_EQUAL => Some(Gte)
    case LESS_EQUAL => Some(Lte)
    case LIKE => Some(Like)
    case _ => None
  }

  function LiteralOf(token: Token): Option<Literal> {
    match token.kind
    case STRING => Some(Text(token.value))
    case NUMBER => Some(Number(token.value))
    case BOOLEAN => Some(Boolean(Upper(token.value) == "TRUE"))
    case NULL => Some(Null)
    case _ => None
  }

  /** `operand[operator] = value` */
  function PutOperator(operand: seq<(Operator, Literal)>, operator: Operator, value: Literal)
    : seq<(Operator, Literal)>
  {
    if operand == [] then [(operator, value)]
    else if operand[0].0 == operator then [(operator, value)] + operand[1..]
    else [operand[0]] + PutOperator(operand[1..], operator, value)
  }

  /** `conjunction[column][operator] = value`: a repeated pair overwrites. */
  function Put(conjunction: Conjunction, c: Condition): Conjunction {
    if conjunction == [] then [Entry(c.column, [(c.operator, c.value)])]
    else if conjunction[0].column == c.column then
      [Entry(c.column, PutOperator(conjunction[0].operand, c.operator, c.value))] + conjunction[1..]
    else [conjunction[0]] + Put(conjunction[1..], c)
  }

  /** The token at `i`, EOF past the end. */
  function Peek(tokens: seq<Token>, i: nat): Token {
    if i < |tokens| then tokens[i] else Token(EOF, "")
  }

  function ParseCondition(tokens: seq<Token>, i: nat): Result<Condition, ParseError> {
    if Peek(tokens, i).kind != IDENTIFIER then Err(InvalidSyntax)
    else if OperatorOf(Peek(tokens, i + 1).kind).None? then Err(UnknownOperator)
    else if LiteralOf(Peek(tokens, i + 2)).None? then Err(UnexpectedValue)
    else
      Ok(Condition(Peek(tokens, i).value, OperatorOf(Peek(tokens, i + 1).kind).value,
                   LiteralOf(Peek(tokens, i + 2)).value))
  }

  datatype Where = Where(ops: seq<Conjunction>, next: nat)

  /** The WHERE loop with the conjunctions finished so far and the one being filled. */
  function WhereLoop(tokens: seq<Token>, i: nat, conditions: seq<Conjunction>, conjunction: Conjunction)
    : Result<Where, ParseError>
    decreases |tokens| - i
  {
    var condition := ParseCondition(tokens, i);
    if condition.Err? then Err(condition.error)
    else
      var filled := Put(conjunction, condition.value);
      var after := Peek(tokens, i + 3).kind;
      if after == AND then WhereLoop(tokens, i + 4, conditions, filled)
      else if after == OR then WhereLoop(tokens, i + 4, conditions + [filled], [])
      else Ok(Where(conditions + [filled], i + 3))
  }

  function ParseWhere(tokens: seq<Token>, i: nat): Result<Where, ParseError> {
    if Peek(tokens, i).kind != WHERE then Err(InvalidSyntax) else WhereLoop(tokens, i + 1, [], [])
  }

  datatype Columns = Columns(names: seq<string>, next: nat)

  function ColumnLoop(tokens: seq<Token>, i: nat, names: seq<string>): Result<Columns, ParseError>
    decreases |tokens| - i
  {
    if Peek(tokens, i).kind != IDENTIFIER then Err(InvalidSyntax)
    else if Peek(tokens, i + 1).kind == COMMA then ColumnLoop(tokens, i + 2, names + [tokens[i].value])
    else Ok(Columns(names + [tokens[i].value], i + 1))
  }

  function ParseColumns(tokens: seq<Token>, i: nat): Result<Columns, ParseError> {
    if Peek(tokens, i).kind != SELECT then Err(InvalidSyntax)
    else if Peek(tokens, i + 1).kind == ASTERISK then Ok(Columns(["*"], i + 2))
    else ColumnLoop(tokens, i + 1, [])
  }

  /** `GROUP BY` and `LIMIT` after the optional WHERE clause. */
  function ParseTail(tokens: seq<Token>, i: nat, query: Query): Result<Query, ParseError> {
    if Peek(tokens, i).kind == GROUP then
      if Peek(tokens, i + 1).kind != BY || Peek(tokens, i + 2).kind != IDENTIFIER then Err(InvalidSyntax)
      else ParseLimit(tokens, i + 3, query.(groupBy := Some(Peek(tokens, i + 2).value)))
    else ParseLimit(tokens, i, query)
  }

  /** `parseInt` of a number token: the value of its leading digits. */
  function ParseInt(text: string): nat {
    Decimal.Value(text[..RunEnd(text, 0, Digit)])
  }

  function ParseLimit(tokens: seq<Token>, i: nat, query: Query): Result<Query, ParseError> {
    if Peek(tokens, i).kind == LIMIT then
      if Peek(tokens, i + 1).kind != NUMBER then Err(InvalidSyntax)
      else Ok(query.(limit := Some(ParseInt(Peek(tokens, i + 1).value))))
    else Ok(query)
  }

  predicate StartsJoin(kind: Kind) {
    kind == JOIN || kind == INNER || kind == LEFT || kind == RIGHT || kind == OUTER
  }

  function ParseSelect(tokens: seq<Token>): Result<Query, ParseError> {
    var columns := ParseColumns(tokens, 0);
    if columns.Err? then Err(columns.error)
    else
      var i := columns.value.next;
      if Peek(tokens, i).kind != FROM || Peek(tokens, i + 1).kind != IDENTIFIER then Err(InvalidSyntax)
      else if StartsJoin(Peek(tokens, i + 2).kind) then Err(JoinQuery)
      else
        var names := columns.value.names;
        var query := Query(Peek(tokens, i + 1).value, if "*" in names then None else Some(names),
                           "_id" in names, None, None, None);
        if Peek(tokens, i + 2).kind == WHERE then
          var where := ParseWhere(tokens, i + 2);
          if where.Err? then Err(where.error)
          else ParseTail(tokens, where.value.next, query.(ops := Some(where.value.ops)))
        else ParseTail(tokens, i + 2, query)
  }

  /** `Parser.parse` on a SELECT statement. */
  function Parse(sql: string): Result<Query, ParseError> {
    var tokens := Lex(Trim(sql), 0);
    if Peek(tokens, 0).value != "SELECT" then Err(Unsupported) else ParseSelect(tokens)
  }

  class SQLParser {
    const tokens: seq<Token>
    var position: nat

    constructor (tokens: seq<Token>)
      ensures this.tokens == tokens && position == 0
    {
      this.tokens := tokens;
      position := 0;
    }

    function Current(): Token reads this {
      Peek(tokens, position)
    }

    method Advance()
      modifies this
      ensures position == old(position) + 1
    {
      position := position + 1;
    }

    method Expect(kind: Kind) returns (token: Result<Token, ParseError>)
      modifies this
      ensures token == if old(Current()).kind == kind then Ok(old(Current())) else Err(InvalidSyntax)
      ensures position == if token.Ok? then old(position) + 1 else old(position)
    {
      if Current().kind != kind {
        return Err(InvalidSyntax);
      }
      token := Ok(Current());
      Advance();
    }

    method ParseNextCondition() returns (condition: Result<Condition, ParseError>)
      modifies this
      ensures condition == ParseCondition(tokens, old(position))
      ensures condition.Ok? ==> position == old(position) + 3
    {
      var column := Expect(IDENTIFIER);
      if column.Err? {
        return Err(column.error);
      }
      var operator := OperatorOf(Current().kind);
      if operator.None? {
        return Err(UnknownOperator);
      }
      Advance();
      var value := LiteralOf(Current());
      if value.None? {
        return Err(UnexpectedValue);
      }
      Advance();
      return Ok(Condition(column.value.value, operator.value, value.value));
    }

    method ParseWhereClause() returns (clause: Result<seq<Conjunction>, ParseError>)
      modifies this
      ensures
        var spec := ParseWhere(tokens, old(position));
        if spec.Ok? then clause == Ok(spec.value.ops) && position == spec.value.next
        else clause == Err(spec.error)
    {
      var where := Expect(WHERE);
      if where.Err? {
        return Err(where.error);
      }
      var conditions: seq<Conjunction> := [];
      var conjunction: Conjunction := [];
      while true
        invariant ParseWhere(tokens, old(position)) == WhereLoop(tokens, position, conditions, conjunction)
        decreases |tokens| - position
      {
        ghost var start := position;
        var condition := ParseNextCondition();
        if condition.Err? {
          return Err(condition.error);
        }
        conjunction := Put(conjunction, condition.value);
        if Current().kind == AND {
          Advance();
          continue;
        }
        if Current().kind == OR {
          conditions := conditions + [conjunction];
          conjunction := [];
          Advance();
          continue;
        }
        return Ok(conditions + [conjunction]);
      }
    }

    method ParseSelectClause() returns (clause: Result<seq<string>, ParseError>)
      modifies this
      ensures
        var spec := ParseColumns(tokens, old(position));
        if spec.Ok? then clause == Ok(spec.value.names) && position == spec.value.next
        else clause == Err(spec.error)
    {
      var select := Expect(SELECT);
      if select.Err? {
        return Err(select.error);
      }
      if Current().kind == ASTERISK {
        Advance();
        return Ok(["*"]);
      }
      var columns: seq<string> := [];
      while true
        invariant ParseColumns(tokens, old(position)) == ColumnLoop(tokens, position, columns)
        decreases |tokens| - position
      {
        var column := Expect(IDENTIFIER);
        if column.Err? {
          return Err(column.error);
        }
        columns := columns + [column.value.value];
        if Current().kind == COMMA {
          Advance();
        } else {
          return Ok(columns);
        }
      }
    }

    method ParseSelectStatement() returns (result: Result<Query, ParseError>)
      requires position == 0
      modifies this
      ensures result == ParseSelect(tokens)
    {
      var select := ParseSelectClause();
      if select.Err? {
        return Err(select.error);
      }
      var from := Expect(FROM);
      if from.Err? {
        return Err(from.error);
      }
      var collection := Expect(IDENTIFIER);
      if collection.Err? {
        return Err(collection.error);
      }
      if StartsJoin(Current().kind) {
        return Err(JoinQuery);
      }
      var query := Query(collection.value.value, if "*" in select.value then None else Some(select.value),
                         "_id" in select.value, None, None, None);
      if Current().kind == WHERE {
        var ops := ParseWhereClause();
        if ops.Err? {
          return Err(ops.error);
        }
        query := query.(ops := Some(ops.value));
      }
      result := ParseClauses(query);
    }

    method ParseClauses(head: Query) returns (result: Result<Query, ParseError>)
      modifies this
      ensures result == ParseTail(tokens, old(position), head)
    {
      var query := head;
      if Current().kind == GROUP {
        Advance();
        var byWord := Expect(BY);
        if byWord.Err? {
          return Err(byWord.error);
        }
        var column := Expect(IDENTIFIER);
        if column.Err? {
          return Err(column.error);
        }
        query := query.(groupBy := Some(column.value.value));
      }
      if Current().kind == LIMIT {
        Advance();
        var count := Expect(NUMBER);
        if count.Err? {
          return Err(count.error);
        }
        query := query.(limit := Some(ParseInt(count.value.value)));
      }
      return Ok(query);
    }
  }
}
