/** Query cursors of a machine session: a sorted snapshot held per token and delivered in
    pages that fit the response frame, over any interleaving of requests. */
module Pages {
  import opened Common
  import opened Ordering
  import Decimal
  import Uri

  const DEFAULT_QUERY_PAGE_ITEMS: nat := 256
  const MAX_QUERY_PAGE_ITEMS: nat := 4096
  const QUERY_CURSOR_TTL_MS: nat := 15 * 60 * 1000
  const MAX_QUERY_SNAPSHOT_BYTES: nat := 1024 * 1024 * 1024
  const U64_RANGE: nat := 0x1_0000_0000_0000_0000

  /** A result row: its identifier and the JSON text of its document. */
  datatype Row = Row(id: string, document: string)

  /** A cursor's snapshot and how much of it has been delivered. */
  datatype Cursor = Cursor(scope: string, rows: seq<Row>, position: nat, expiresAt: nat)

  /** The `page` object of a request; a limit that is not an unsigned integer is ignored. */
  datatype PageFields = PageFields(limit: Option<nat>, cursor: Option<string>)

  datatype Request = Request(scope: string, onlyIds: bool, page: Option<PageFields>)

  datatype Error =
    | LoopRequired
    | BadRequest
    | InvalidCursor
    | SnapshotTooLarge
    | ItemTooLarge(id: string)

  datatype Page = Page(items: seq<Row>, nextCursor: Option<string>, limit: nat)

  // ---------- the encoded page ----------

  function Quoted(text: string): string {
    "\"" + text + "\""
  }

  function Entry(row: Row, onlyIds: bool): string {
    if onlyIds then Quoted(row.id) else Quoted(row.id) + ":" + row.document
  }

  function Entries(rows: seq<Row>, onlyIds: bool): string {
    if rows == [] then ""
    else if |rows| == 1 then Entry(rows[0], onlyIds)
    else Entries(rows[..|rows| - 1], onlyIds) + "," + Entry(rows[|rows| - 1], onlyIds)
  }

  function Items(rows: seq<Row>, onlyIds: bool): string {
    if onlyIds then "[" + Entries(rows, onlyIds) + "]" else "{" + Entries(rows, onlyIds) + "}"
  }

  /** The JSON text of a page; `cursor` is the text of its `nextCursor` member. */
  function Render(rows: seq<Row>, onlyIds: bool, cursor: string, limit: nat): string {
    "{\"items\":" + Items(rows, onlyIds) + ",\"nextCursor\":" + cursor
    + ",\"page\":{\"count\":" + Decimal.Text(|rows|) + ",\"limit\":" + Decimal.Text(limit) + "}}"
  }

  function CursorText(cursor: Option<string>): string {
    if cursor.Some? then Quoted(cursor.value) else "null"
  }

  /** What one page request fixes: token, limit, shape and byte budget. */
  datatype Shape = Shape(token: string, limit: nat, onlyIds: bool, budget: nat)

  predicate Fits(rows: seq<Row>, shape: Shape) {
    Uri.ByteLength(Render(rows, shape.onlyIds, Quoted(shape.token), shape.limit)) <= shape.budget
  }

  /** How many rows from `position` on make up the page: the longest run that fits. */
  function PageLength(rows: seq<Row>, position: nat, count: nat, shape: Shape): (n: nat)
    requires position + count <= |rows|
    ensures count <= n && position + n <= |rows| && (count <= shape.limit ==> n <= shape.limit)
    decreases |rows| - count
  {
    if count < shape.limit && position + count < |rows| && Fits(rows[position..position + count + 1], shape)
    then PageLength(rows, position, count + 1, shape)
    else count
  }

  lemma {:induction false} PageLengthIsLongest(rows: seq<Row>, position: nat, count: nat, shape: Shape)
    requires position + count <= |rows| && count <= shape.limit
    ensures
      var n := PageLength(rows, position, count, shape);
      && (count < n ==> Fits(rows[position..position + n], shape))
      && (n < shape.limit && position + n < |rows| ==> !Fits(rows[position..position + n + 1], shape))
    decreases |rows| - count
  {
    hide Fits;
    if count < shape.limit && position + count < |rows| && Fits(rows[position..position + count + 1], shape) {
      PageLengthIsLongest(rows, position, count + 1, shape);
    }
  }

  lemma DecimalBytes(n: nat)
    ensures Uri.ByteLength(Decimal.Text(n)) == |Decimal.Text(n)|
  {
    Decimal.RoundTrip(n);
    Uri.AsciiByteLength(Decimal.Text(n));
  }

  lemma SixBytes(a: string, b: string, c: string, d: string, e: string, f: string)
    ensures Uri.ByteLength(a + b + c + d + e + f)
         == Uri.ByteLength(a) + Uri.ByteLength(b) + Uri.ByteLength(c) + Uri.ByteLength(d)
            + Uri.ByteLength(e) + Uri.ByteLength(f)
  {
    hide Uri.ByteLength;
    Uri.ByteLengthAppend(a + b + c + d + e, f);
    Uri.ByteLengthAppend(a + b + c + d, e);
    Uri.ByteLengthAppend(a + b + c, d);
    Uri.ByteLengthAppend(a + b, c);
    Uri.ByteLengthAppend(a, b);
  }

  /** The bytes of a page, member by member. */
  lemma RenderBytes(rows: seq<Row>, onlyIds: bool, cursor: string, limit: nat)
    ensures Uri.ByteLength(Render(rows, onlyIds, cursor, limit))
         == Uri.ByteLength(Items(rows, onlyIds)) + Uri.ByteLength(cursor)
            + |Decimal.Text(|rows|)| + |Decimal.Text(limit)| + 51
  {
    hide Items, Decimal.Text, Uri.ByteLength;
    var items, page := "{\"items\":" + Items(rows, onlyIds), ",\"page\":{\"count\":";
    var next, bound := ",\"nextCursor\":", ",\"limit\":";
    var count, most := Decimal.Text(|rows|), Decimal.Text(limit);
    SixBytes(items, next, cursor, page + count, bound + most, "}}");
    Regroup(items + next + cursor, page, count, bound, most, "}}");
    Uri.ByteLengthAppend("{\"items\":", Items(rows, onlyIds));
    Uri.ByteLengthAppend(page, count);
    Uri.ByteLengthAppend(bound, most);
    DecimalBytes(|rows|);
    DecimalBytes(limit);
    FixedBytes();
  }

  lemma Regroup(head: string, page: string, count: string, bound: string, most: string, end: string)
    ensures head + (page + count) + (bound + most) + end == head + page + count + bound + most + end
  {
  }

  lemma FixedBytes()
    ensures Uri.ByteLength("{\"items\":") == 9 && Uri.ByteLength(",\"nextCursor\":") == 14
    ensures Uri.ByteLength(",\"page\":{\"count\":") == 17 && Uri.ByteLength(",\"limit\":") == 9
    ensures Uri.ByteLength("}}") == 2
  {
    hide Uri.ByteLength;
    OpeningBytes();
    MiddleBytes();
    Uri.AsciiByteLength("}}");
  }

  lemma OpeningBytes()
    ensures Uri.ByteLength("{\"items\":") == 9 && Uri.ByteLength(",\"nextCursor\":") == 14
  {
    hide Uri.ByteLength;
    Uri.AsciiByteLength("{\"items\":");
    Uri.AsciiByteLength(",\"nextCursor\":");
  }

  lemma MiddleBytes()
    ensures Uri.ByteLength(",\"page\":{\"count\":") == 17 && Uri.ByteLength(",\"limit\":") == 9
  {
    hide Uri.ByteLength;
    Uri.AsciiByteLength(",\"page\":{\"count\":");
    Uri.AsciiByteLength(",\"limit\":");
  }

  lemma ItemsBytes(rows: seq<Row>, onlyIds: bool)
    ensures Uri.ByteLength(Items(rows, onlyIds)) == Uri.ByteLength(Entries(rows, onlyIds)) + 2
  {
    hide Entries;
    var open, close := if onlyIds then "[" else "{", if onlyIds then "]" else "}";
    Uri.ByteLengthAppend(open + Entries(rows, onlyIds), close);
    Uri.ByteLengthAppend(open, Entries(rows, onlyIds));
    Uri.AsciiByteLength(open);
    Uri.AsciiByteLength(close);
  }

  lemma EntriesGrow(rows: seq<Row>, row: Row, onlyIds: bool)
    ensures Uri.ByteLength(Entries(rows, onlyIds)) <= Uri.ByteLength(Entries(rows + [row], onlyIds))
  {
    assert (rows + [row])[..|rows|] == rows;
    if rows == [] {
      assert Entries(rows, onlyIds) == "";
    } else {
      var front := Entries(rows, onlyIds);
      assert Entries(rows + [row], onlyIds) == front + "," + Entry(row, onlyIds);
      Uri.ByteLengthAppend(front + ",", Entry(row, onlyIds));
      Uri.ByteLengthAppend(front, ",");
    }
  }

  /** A longer page is a longer text. */
  lemma RenderGrows(rows: seq<Row>, row: Row, onlyIds: bool, cursor: string, limit: nat)
    ensures Uri.ByteLength(Render(rows, onlyIds, cursor, limit))
         <= Uri.ByteLength(Render(rows + [row], onlyIds, cursor, limit))
  {
    hide Render, Items, Entries, Decimal.Text;
    RenderBytes(rows, onlyIds, cursor, limit);
    RenderBytes(rows + [row], onlyIds, cursor, limit);
    ItemsBytes(rows, onlyIds);
    ItemsBytes(rows + [row], onlyIds);
    EntriesGrow(rows, row, onlyIds);
    Decimal.LengthGrows(|rows|, |rows| + 1);
  }

  lemma {:induction false} FitsShorter(rows: seq<Row>, m: nat, shape: Shape)
    requires m <= |rows| && Fits(rows, shape)
    ensures Fits(rows[..m], shape)
    decreases |rows|
  {
    hide Render;
    if m < |rows| {
      var shorter := rows[..|rows| - 1];
      RenderGrows(shorter, rows[|rows| - 1], shape.onlyIds, Quoted(shape.token), shape.limit);
      assert shorter + [rows[|rows| - 1]] == rows;
      FitsShorter(shorter, m, shape);
      assert shorter[..m] == rows[..m];
    } else {
      assert rows[..m] == rows;
    }
  }

  /** Fill a page, re-encoding it per row so that the frame never crosses the budget. */
  method FillPage(cursor: Cursor, shape: Shape)
    returns (items: seq<Row>, position: nat, oversized: Option<string>)
    requires cursor.position <= |cursor.rows|
    ensures
      var n := PageLength(cursor.rows, cursor.position, 0, shape);
      && position == cursor.position + n && items == cursor.rows[cursor.position..position]
      && oversized == if n == 0 < shape.limit && position < |cursor.rows|
                      then Some(cursor.rows[position].id) else None
  {
    hide Render, Uri.ByteLength, Quoted;
    items, position, oversized := [], cursor.position, None;
    while |items| < shape.limit && position < |cursor.rows|
      invariant cursor.position <= position <= |cursor.rows|
      invariant items == cursor.rows[cursor.position..position]
      invariant PageLength(cursor.rows, cursor.position, 0, shape)
             == PageLength(cursor.rows, cursor.position, |items|, shape)
      decreases |cursor.rows| - position
    {
      var row := cursor.rows[position];
      items := items + [row];
      assert items == cursor.rows[cursor.position..position + 1];
      var encoded := Render(items, shape.onlyIds, Quoted(shape.token), shape.limit);
      if Uri.ByteLength(encoded) > shape.budget {
        items := items[..|items| - 1];
        assert items == cursor.rows[cursor.position..position];
        if items == [] {
          oversized := Some(row.id);
        }
        break;
      }
      position := position + 1;
    }
  }

  // ---------- snapshots ----------

  function InsertRow(row: Row, sorted: seq<Row>): seq<Row> {
    if sorted == [] || !LexLess(sorted[0].id, row.id) then [row] + sorted
    else [sorted[0]] + InsertRow(row, sorted[1..])
  }

  /** The stable sort by identifier. */
  function SortRows(rows: seq<Row>): seq<Row> {
    if rows == [] then [] else InsertRow(rows[0], SortRows(rows[1..]))
  }

  predicate SortedById(rows: seq<Row>) {
    forall i, j :: 0 <= i < j < |rows| ==> !LexLess(rows[j].id, rows[i].id)
  }

  lemma {:induction false} InsertRowSorted(row: Row, sorted: seq<Row>)
    requires SortedById(sorted)
    ensures SortedById(InsertRow(row, sorted))
    ensures multiset(InsertRow(row, sorted)) == multiset([row]) + multiset(sorted)
  {
    if sorted == [] || !LexLess(sorted[0].id, row.id) {
      forall j | 0 <= j < |sorted|
        ensures !LexLess(sorted[j].id, row.id)
      {
        if LexLess(sorted[j].id, row.id) {
          LexTotal(sorted[0].id, sorted[j].id);
          LexTransitive(sorted[0].id, sorted[j].id, row.id);
        }
      }
    } else {
      var rest := InsertRow(row, sorted[1..]);
      InsertRowSorted(row, sorted[1..]);
      assert sorted == [sorted[0]] + sorted[1..];
      forall j | 0 <= j < |rest|
        ensures !LexLess(rest[j].id, sorted[0].id)
      {
        assert rest[j] in multiset(rest);
        assert rest[j] == row || rest[j] in sorted[1..];
        if rest[j] == row && LexLess(row.id, sorted[0].id) {
          LexTransitive(sorted[0].id, row.id, sorted[0].id);
          LexIrreflexive(sorted[0].id);
        }
      }
    }
  }

  /** The snapshot is the rows in identifier order. */
  lemma {:induction false} SortRowsSorts(rows: seq<Row>)
    ensures SortedById(SortRows(rows)) && multiset(SortRows(rows)) == multiset(rows)
  {
    if rows != [] {
      SortRowsSorts(rows[1..]);
      InsertRowSorted(rows[0], SortRows(rows[1..]));
      assert rows == [rows[0]] + rows[1..];
    }
  }

  function SnapshotEntries(rows: seq<Row>): string {
    if rows == [] then ""
    else
      (if |rows| == 1 then "" else SnapshotEntries(rows[..|rows| - 1]) + ",")
      + "[" + Quoted(rows[|rows| - 1].id) + "," + rows[|rows| - 1].document + "]"
  }

  function SnapshotBytes(rows: seq<Row>): nat {
    Uri.ByteLength(SnapshotEntries(rows)) + 2
  }

  // ---------- one request ----------

  datatype Settings = Settings(persistent: bool, pid: nat, maxResponseBytes: nat)

  datatype State = State(cursors: map<string, Cursor>, sequence: nat)

  function Token(pid: nat, sequence: nat): string {
    "fqc1." + Decimal.Text(pid) + "." + Decimal.Text(sequence)
  }

  function Budget(settings: Settings): nat {
    if settings.maxResponseBytes < 768 + 256 then 256 else settings.maxResponseBytes - 768
  }

  /** `now.saturating_add(QUERY_CURSOR_TTL_MS)` */
  function ExpiresAt(now: nat): nat {
    if now + QUERY_CURSOR_TTL_MS < U64_RANGE then now + QUERY_CURSOR_TTL_MS else U64_RANGE - 1
  }

  function PageLimit(page: PageFields): Option<nat> {
    if page.limit.None? then Some(DEFAULT_QUERY_PAGE_ITEMS)
    else if 1 <= page.limit.value <= MAX_QUERY_PAGE_ITEMS then page.limit
    else None
  }

  function Live(cursors: map<string, Cursor>, now: nat): map<string, Cursor> {
    map token | token in cursors && cursors[token].expiresAt > now :: cursors[token]
  }

  /** Where a valid request finds or makes its cursor. */
  function Locate(settings: Settings, state: State, request: Request, rows: seq<Row>, now: nat)
    : (State, Result<string, Error>)
    requires request.page.Some?
  {
    var live := state.(cursors := Live(state.cursors, now));
    match request.page.value.cursor
    case Some(token) =>
      if token !in live.cursors || live.cursors[token].scope != request.scope then (live, Err(InvalidCursor))
      else (live, Ok(token))
    case None =>
      var next := live.(sequence := (live.sequence + 1) % U64_RANGE);
      var token := Token(settings.pid, next.sequence);
      var sorted := SortRows(rows);
      if SnapshotBytes(sorted) > MAX_QUERY_SNAPSHOT_BYTES then (next, Err(SnapshotTooLarge))
      else
        (next.(cursors := next.cursors[token := Cursor(request.scope, sorted, 0, ExpiresAt(now))]),
         Ok(token))
  }

  /** Deliver one page from the cursor under `shape.token`. */
  function Deliver(state: State, shape: Shape): (State, Result<Page, Error>)
    requires shape.token in state.cursors
    requires state.cursors[shape.token].position <= |state.cursors[shape.token].rows|
  {
    var cursor := state.cursors[shape.token];
    var n := PageLength(cursor.rows, cursor.position, 0, shape);
    var position := cursor.position + n;
    var without := state.(cursors := state.cursors - {shape.token});
    if n == 0 < shape.limit && position < |cursor.rows| then
      (without, Err(ItemTooLarge(cursor.rows[position].id)))
    else if position < |cursor.rows| then
      (state.(cursors := state.cursors[shape.token := cursor.(position := position)]),
       Ok(Page(cursor.rows[cursor.position..position], Some(shape.token), shape.limit)))
    else
      (without, Ok(Page(cursor.rows[cursor.position..position], None, shape.limit)))
  }

  predicate Bounded(state: State) {
    forall token :: token in state.cursors ==>
      state.cursors[token].position <= |state.cursors[token].rows|
  }

  function Answer(settings: Settings, state: State, request: Request, rows: seq<Row>, now: nat)
    : (State, Result<Page, Error>)
    requires Bounded(state)
  {
    if !settings.persistent then (state, Err(LoopRequired))
    else if request.page.None? then (state, Err(BadRequest))
    else
      var limit := PageLimit(request.page.value);
      if limit.None? then (state, Err(BadRequest))
      else
        var (found, token) := Locate(settings, state, request, rows, now);
        if token.Err? then (found, Err(token.error))
        else Deliver(found, Shape(token.value, limit.value, request.onlyIds, Budget(settings)))
  }

  class Session {
    const settings: Settings
    var cursors: map<string, Cursor>
    var sequence: nat

    ghost function View(): State reads this {
      State(cursors, sequence)
    }

    constructor (settings: Settings)
      ensures this.settings == settings && cursors == map[] && sequence == 0
    {
      this.settings := settings;
      cursors, sequence := map[], 0;
    }

    method Paginate(request: Request, rows: seq<Row>, now: nat) returns (reply: Result<Page, Error>)
      requires Bounded(View())
      modifies this
      ensures (View(), reply) == Answer(settings, old(View()), request, rows, now)
      ensures Bounded(View())
    {
      if !settings.persistent {
        return Err(LoopRequired);
      }
      if request.page.None? {
        return Err(BadRequest);
      }
      var page := request.page.value;
      var limit := PageLimit(page);
      if limit.None? {
        return Err(BadRequest);
      }
      var token := FindCursor(request, rows, now);
      if token.Err? {
        return Err(token.error);
      }
      reply := DeliverPage(Shape(token.value, limit.value, request.onlyIds, Budget(settings)));
    }

    method FindCursor(request: Request, rows: seq<Row>, now: nat) returns (token: Result<string, Error>)
      requires request.page.Some? && Bounded(View())
      modifies this
      ensures (View(), token) == Locate(settings, old(View()), request, rows, now)
      ensures Bounded(View()) && (token.Ok? ==> token.value in cursors)
    {
      cursors := Live(cursors, now);
      match request.page.value.cursor {
        case Some(given) =>
          if given !in cursors {
            return Err(InvalidCursor);
          }
          if cursors[given].scope != request.scope {
            return Err(InvalidCursor);
          }
          return Ok(given);
        case None =>
          sequence := (sequence + 1) % U64_RANGE;
          var made := Token(settings.pid, sequence);
          var sorted := SortRows(rows);
          if SnapshotBytes(sorted) > MAX_QUERY_SNAPSHOT_BYTES {
            return Err(SnapshotTooLarge);
          }
          cursors := cursors[made := Cursor(request.scope, sorted, 0, ExpiresAt(now))];
          return Ok(made);
      }
    }

    method DeliverPage(shape: Shape) returns (reply: Result<Page, Error>)
      requires Bounded(View()) && shape.token in cursors
      modifies this
      ensures (View(), reply) == Deliver(old(View()), shape)
      ensures Bounded(View())
    {
      var cursor := cursors[shape.token];
      var items, position, oversized := FillPage(cursor, shape);
      if oversized.Some? {
        cursors := cursors - {shape.token};
        return Err(ItemTooLarge(oversized.value));
      }
      ghost var before := cursors;
      cursors := cursors[shape.token := cursor.(position := position)];
      var hasMore := position < |cursor.rows|;
      if !hasMore {
        cursors := cursors - {shape.token};
        assert cursors == before - {shape.token};
      }
      return Ok(Page(items, if hasMore then Some(shape.token) else None, shape.limit));
    }
  }
}
