/** Whole sessions of interleaved page requests: what following one cursor delivers. */
module PageRuns {
  import opened Common
  import opened Pages
  import Decimal
  import Uri

  datatype Input = Input(request: Request, rows: seq<Row>, now: nat)

  /** How a cursor ended: everything delivered, or stopped before a row that does not fit
      the frame of the request that reached it. */
  datatype Ending = Complete | Blocked(shape: Shape)

  /** What a client that follows every cursor has seen. */
  datatype Log = Log(
    snapshots: map<string, seq<Row>>,
    delivered: map<string, seq<Row>>,
    endings: map<string, Ending>)

  function Served(settings: Settings, state: State, input: Input): Option<Shape> {
    if !settings.persistent || input.request.page.None? then None
    else
      var limit := PageLimit(input.request.page.value);
      var token := Locate(settings, state, input.request, input.rows, input.now).1;
      if limit.None? || token.Err? then None
      else Some(Shape(token.value, limit.value, input.request.onlyIds, Budget(settings)))
  }

  /** The log after a request served under `shape` was answered by `reply`. */
  function Noted(log: Log, input: Input, shape: Shape, reply: Result<Page, Error>): Log
    requires input.request.page.Some?
  {
    var t := shape.token;
    var begun :=
      if input.request.page.value.cursor.Some? then log
      else log.(snapshots := log.snapshots[t := SortRows(input.rows)], delivered := log.delivered[t := []]);
    match reply
    case Ok(page) =>
      var seen := if t in begun.delivered then begun.delivered[t] else [];
      begun.(
        delivered := begun.delivered[t := seen + page.items],
        endings := if page.nextCursor.None? then begun.endings[t := Complete] else begun.endings)
    case Err(_) => begun.(endings := begun.endings[t := Blocked(shape)])
  }

  function Next(settings: Settings, state: State, log: Log, input: Input): (State, Log)
    requires Bounded(state)
  {
    var (state', reply) := Answer(settings, state, input.request, input.rows, input.now);
    var shape := Served(settings, state, input);
    (state', if shape.Some? then Noted(log, input, shape.value, reply) else log)
  }

  predicate Issued(settings: Settings, sequence: nat, token: string) {
    exists n: nat :: 1 <= n <= sequence && token == Token(settings.pid, n)
  }

  /** A live cursor holds its snapshot and has delivered exactly the rows before its
      position. */
  predicate CursorFaithful(cursor: Cursor, log: Log, t: string) {
    && t in log.snapshots && t in log.delivered && t !in log.endings
    && cursor.rows == log.snapshots[t] && cursor.position < |cursor.rows|
    && log.delivered[t] == cursor.rows[..cursor.position]
  }

  /** An ended cursor delivered its whole snapshot, or all the rows before one that does
      not fit a page on its own. */
  predicate EndingFaithful(log: Log, t: string) {
    && t in log.snapshots && t in log.delivered && t in log.endings
    && match log.endings[t]
       case Complete => log.delivered[t] == log.snapshots[t]
       case Blocked(shape) =>
         log.delivered[t] < log.snapshots[t] && !Fits([log.snapshots[t][|log.delivered[t]|]], shape)
  }

  /** Whatever happened to a cursor, its client has seen a prefix of its snapshot. */
  ghost predicate SnapshotFaithful(settings: Settings, sequence: nat, log: Log, t: string) {
    t in log.snapshots && t in log.delivered && log.delivered[t] <= log.snapshots[t]
    && Issued(settings, sequence, t)
  }

  ghost predicate Faithful(settings: Settings, state: State, log: Log) {
    && (forall t :: t in state.cursors ==> CursorFaithful(state.cursors[t], log, t))
    && (forall t :: t in log.endings ==> EndingFaithful(log, t))
    && (forall t :: t in log.snapshots ==> SnapshotFaithful(settings, state.sequence, log, t))
  }

  lemma TokenInjective(pid: nat, m: nat, n: nat)
    requires Token(pid, m) == Token(pid, n)
    ensures m == n
  {
    var head := "fqc1." + Decimal.Text(pid) + ".";
    assert Token(pid, m)[|head|..] == Decimal.Text(m);
    assert Token(pid, n)[|head|..] == Decimal.Text(n);
    Decimal.Injective(m, n);
  }

  /** The cursor a request is served from: an existing one, or a new one under a token
      that was never issued before. */
  lemma LocatedCursor(settings: Settings, state: State, log: Log, input: Input)
    requires Faithful(settings, state, log) && Bounded(state) && state.sequence + 1 < U64_RANGE
    requires input.request.page.Some?
    ensures
      var (found, token) := Locate(settings, state, input.request, input.rows, input.now);
      && Bounded(found)
      && state.sequence <= found.sequence <= state.sequence + 1
      && (forall t :: t in found.cursors && (token.Err? || t != token.value) ==>
            t in state.cursors && found.cursors[t] == state.cursors[t])
      && (token.Ok? && input.request.page.value.cursor.Some? ==>
            token.value in state.cursors && found.cursors[token.value] == state.cursors[token.value])
      && (token.Ok? && input.request.page.value.cursor.None? ==>
            && token.value !in log.snapshots && Issued(settings, found.sequence, token.value)
            && found.cursors[token.value].rows == SortRows(input.rows)
            && found.cursors[token.value].position == 0)
  {
    var (found, token) := Locate(settings, state, input.request, input.rows, input.now);
    if token.Ok? && input.request.page.value.cursor.None? && token.value in log.snapshots {
      assert SnapshotFaithful(settings, state.sequence, log, token.value);
      var n: nat :| 1 <= n <= state.sequence && token.value == Token(settings.pid, n);
      TokenInjective(settings.pid, n, found.sequence);
    }
  }

  lemma IssuedLater(settings: Settings, m: nat, n: nat, token: string)
    requires m <= n && Issued(settings, m, token)
    ensures Issued(settings, n, token)
  {
  }

  /** One delivery from a cursor whose delivered rows are those before its position. */
  lemma DeliverKeeps(state: State, shape: Shape, snapshot: seq<Row>, delivered: seq<Row>)
    requires shape.token in state.cursors && 1 <= shape.limit
    requires
      var cursor := state.cursors[shape.token];
      cursor.rows == snapshot && cursor.position <= |snapshot| && delivered == snapshot[..cursor.position]
    ensures
      var (state', reply) := Deliver(state, shape);
      match reply
      case Ok(page) =>
        && delivered + page.items <= snapshot
        && (page.nextCursor.None? ==> delivered + page.items == snapshot && shape.token !in state'.cursors)
        && (page.nextCursor.Some? ==>
              && page.items != [] && shape.token in state'.cursors
              && state'.cursors[shape.token].rows == snapshot
              && |delivered + page.items| == state'.cursors[shape.token].position < |snapshot|)
      case Err(_) =>
        && shape.token !in state'.cursors
        && delivered < snapshot && !Fits([snapshot[|delivered|]], shape)
  {
    hide Fits;
    var cursor := state.cursors[shape.token];
    PageLengthIsLongest(cursor.rows, cursor.position, 0, shape);
    var n := PageLength(cursor.rows, cursor.position, 0, shape);
    Joined(snapshot, cursor.position, n);
    if n == 0 && cursor.position < |snapshot| {
      OneRow(snapshot, cursor.position);
    }
  }

  lemma Joined<T>(list: seq<T>, i: nat, n: nat)
    requires i + n <= |list|
    ensures list[..i] + list[i..i + n] == list[..i + n]
  {
  }

  lemma OneRow<T>(list: seq<T>, i: nat)
    requires i < |list|
    ensures list[i..i + 1] == [list[i]]
  {
  }

  /** A delivery changes the cursor and the log of its own token only. */
  lemma DeliveryIsLocal(found: State, log: Log, input: Input, shape: Shape, u: string)
    requires shape.token in found.cursors && u != shape.token && input.request.page.Some?
    requires found.cursors[shape.token].position <= |found.cursors[shape.token].rows|
    ensures
      var (state', reply) := Deliver(found, shape);
      var log' := Noted(log, input, shape, reply);
      && state'.sequence == found.sequence
      && (u in state'.cursors <==> u in found.cursors)
      && (u in state'.cursors ==> state'.cursors[u] == found.cursors[u])
      && (u in log'.snapshots <==> u in log.snapshots) && (u in log'.endings <==> u in log.endings)
      && (u in log.snapshots ==> log'.snapshots[u] == log.snapshots[u])
      && (u in log'.delivered <==> u in log.delivered)
      && (u in log.delivered ==> log'.delivered[u] == log.delivered[u])
      && (u in log.endings ==> log'.endings[u] == log.endings[u])
  {
  }

  /** The token served: its cursor is faithful again, or it ended faithfully. */
  lemma ServedToken(
    settings: Settings, found: State, log: Log, input: Input, shape: Shape, snapshot: seq<Row>, delivered: seq<Row>)
    requires shape.token in found.cursors && 1 <= shape.limit && input.request.page.Some?
    requires shape.token !in log.endings && Issued(settings, found.sequence, shape.token)
    requires
      var cursor := found.cursors[shape.token];
      cursor.rows == snapshot && cursor.position <= |snapshot| && delivered == snapshot[..cursor.position]
    requires
      if input.request.page.value.cursor.None? then snapshot == SortRows(input.rows) && delivered == []
      else shape.token in log.snapshots && shape.token in log.delivered
           && log.snapshots[shape.token] == snapshot && log.delivered[shape.token] == delivered
    ensures
      var t := shape.token;
      var (state', reply) := Deliver(found, shape);
      var log' := Noted(log, input, shape, reply);
      && SnapshotFaithful(settings, state'.sequence, log', t)
      && (t in state'.cursors ==> CursorFaithful(state'.cursors[t], log', t))
      && (t in log'.endings ==> EndingFaithful(log', t))
  {
    DeliverKeeps(found, shape, snapshot, delivered);
    var (state', reply) := Deliver(found, shape);
    assert state'.sequence == found.sequence;
    if reply.Ok? {
      var all := delivered + reply.value.items;
      assert Noted(log, input, shape, reply).delivered[shape.token] == all;
      if reply.value.nextCursor.Some? {
        assert all == snapshot[..|all|];
      }
    }
  }

  /** Every request keeps the session faithful. */
  lemma FaithfulPreserved(settings: Settings, state: State, log: Log, input: Input)
    requires Faithful(settings, state, log) && Bounded(state) && state.sequence + 1 < U64_RANGE
    ensures
      var (state', log') := Next(settings, state, log, input);
      Faithful(settings, state', log') && Bounded(state')
      && state.sequence <= state'.sequence <= state.sequence + 1
  {
    hide PageLength, SortRows, Fits, Live, Token;
    var (state', log') := Next(settings, state, log, input);
    if settings.persistent && input.request.page.Some? && PageLimit(input.request.page.value).Some? {
      var (found, token) := Locate(settings, state, input.request, input.rows, input.now);
      LocatedCursor(settings, state, log, input);
      forall u | u in log.snapshots
        ensures SnapshotFaithful(settings, found.sequence, log, u)
      {
        assert SnapshotFaithful(settings, state.sequence, log, u);
        IssuedLater(settings, state.sequence, found.sequence, u);
      }
      if token.Ok? {
        ServedKeepsFaithful(settings, state, found, log, input, Served(settings, state, input).value);
      }
    }
  }

  lemma ServedKeepsFaithful(
    settings: Settings, state: State, found: State, log: Log, input: Input, shape: Shape)
    requires Faithful(settings, state, log) && Bounded(state) && state.sequence + 1 < U64_RANGE
    requires input.request.page.Some? && Served(settings, state, input) == Some(shape)
    requires found == Locate(settings, state, input.request, input.rows, input.now).0
    requires forall u :: u in log.snapshots ==> SnapshotFaithful(settings, found.sequence, log, u)
    requires Bounded(found)
    ensures
      var (state', reply) := Deliver(found, shape);
      Faithful(settings, state', Noted(log, input, shape, reply)) && Bounded(state')
  {
    LocatedCursor(settings, state, log, input);
    var t := shape.token;
    var isNew := input.request.page.value.cursor.None?;
    if !isNew {
      assert CursorFaithful(state.cursors[t], log, t) && SnapshotFaithful(settings, found.sequence, log, t);
    }
    assert t !in log.endings by {
      assert t in log.endings ==> EndingFaithful(log, t);
    }
    ServedToken(settings, found, log, input, shape,
      if isNew then SortRows(input.rows) else log.snapshots[t], if isNew then [] else log.delivered[t]);
    var (state', reply) := Deliver(found, shape);
    var log' := Noted(log, input, shape, reply);
    forall u
      ensures u in state'.cursors ==> CursorFaithful(state'.cursors[u], log', u)
      ensures u in log'.endings ==> EndingFaithful(log', u)
      ensures u in log'.snapshots ==> SnapshotFaithful(settings, state'.sequence, log', u)
    {
      if u != t {
        DeliveryIsLocal(found, log, input, shape, u);
        assert u in state.cursors ==> CursorFaithful(state.cursors[u], log, u);
        assert u in log.endings ==> EndingFaithful(log, u);
      }
    }
  }

  // ---------- whole sessions ----------

  /** The state and the log after a sequence of requests to a new session. */
  function Play(settings: Settings, inputs: seq<Input>): (r: (State, Log))
    ensures Bounded(r.0)
  {
    if inputs == [] then (State(map[], 0), Log(map[], map[], map[]))
    else
      var (state, log) := Play(settings, inputs[..|inputs| - 1]);
      NextBounded(settings, state, log, inputs[|inputs| - 1]);
      Next(settings, state, log, inputs[|inputs| - 1])
  }

  lemma NextBounded(settings: Settings, state: State, log: Log, input: Input)
    requires Bounded(state)
    ensures Bounded(Next(settings, state, log, input).0)
  {
    hide SortRows, PageLength, Fits;
    if input.request.page.Some? {
      var (found, token) := Locate(settings, state, input.request, input.rows, input.now);
      assert Bounded(found);
    }
  }

  /** However requests of many clients interleave, every cursor that is still live has
      delivered exactly the rows of its snapshot before its position, one that ended has
      delivered the whole snapshot or stopped just before a row that cannot fit alone, and
      an expired one a prefix: no gap, no repeat. */
  lemma {:induction false} CursorsDeliverSnapshots(settings: Settings, inputs: seq<Input>)
    requires |inputs| < U64_RANGE - 1
    ensures
      var (state, log) := Play(settings, inputs);
      Faithful(settings, state, log) && state.sequence <= |inputs|
    decreases |inputs|
  {
    if inputs != [] {
      CursorsDeliverSnapshots(settings, inputs[..|inputs| - 1]);
      var (state, log) := Play(settings, inputs[..|inputs| - 1]);
      FaithfulPreserved(settings, state, log, inputs[|inputs| - 1]);
    }
  }

  /** A snapshot never changes once taken, delivered rows only grow, and an ending is final. */
  predicate Grows(log: Log, log': Log, u: string) {
    && (u in log.snapshots ==> u in log'.snapshots && log'.snapshots[u] == log.snapshots[u])
    && (u in log.delivered && u in log.snapshots ==> u in log'.delivered && log.delivered[u] <= log'.delivered[u])
    && (u in log.endings ==> u in log'.endings && log'.endings[u] == log.endings[u])
  }

  lemma LogGrows(settings: Settings, state: State, log: Log, input: Input, u: string)
    requires Faithful(settings, state, log) && Bounded(state) && state.sequence + 1 < U64_RANGE
    ensures Grows(log, Next(settings, state, log, input).1, u)
  {
    var shape := Served(settings, state, input);
    if shape.Some? {
      LocatedCursor(settings, state, log, input);
      var found := Locate(settings, state, input.request, input.rows, input.now).0;
      var t := shape.value.token;
      assert t in log.endings ==> EndingFaithful(log, t);
      if t != u {
        DeliveryIsLocal(found, log, input, shape.value, u);
      } else if input.request.page.value.cursor.Some? {
        assert CursorFaithful(state.cursors[t], log, t);
      }
    }
  }

  lemma DeliveredPageFits(found: State, shape: Shape)
    requires shape.token in found.cursors && |shape.token| >= 2
    requires found.cursors[shape.token].position <= |found.cursors[shape.token].rows|
    requires 1 <= shape.limit <= MAX_QUERY_PAGE_ITEMS && shape.budget >= 256
    ensures
      var reply := Deliver(found, shape).1;
      reply.Ok? ==>
        && Uri.ByteLength(Render(reply.value.items, shape.onlyIds, CursorText(reply.value.nextCursor), shape.limit))
           <= shape.budget
        && reply.value.limit == shape.limit && |reply.value.items| <= shape.limit
        && (reply.value.nextCursor.Some? ==> reply.value.items != [])
  {
    var reply := Deliver(found, shape).1;
    if reply.Ok? {
      DeliveredItems(found, shape);
      var items, cursor := reply.value.items, CursorText(reply.value.nextCursor);
      if items == [] {
        EmptyPageFits(shape.onlyIds, shape.limit);
      } else {
        RenderShorter(items, shape.onlyIds, cursor, Quoted(shape.token), shape.limit);
      }
    }
  }

  lemma DeliveredItems(found: State, shape: Shape)
    requires shape.token in found.cursors && |shape.token| >= 2 && 1 <= shape.limit
    requires found.cursors[shape.token].position <= |found.cursors[shape.token].rows|
    requires Deliver(found, shape).1.Ok?
    ensures
      var page := Deliver(found, shape).1.value;
      && page.limit == shape.limit && |page.items| <= shape.limit
      && (page.items != [] ==> Fits(page.items, shape))
      && (page.items == [] ==> page.nextCursor.None?)
      && Uri.ByteLength(CursorText(page.nextCursor)) <= Uri.ByteLength(Quoted(shape.token))
  {
    hide Fits, Uri.ByteLength, CursorText, Quoted;
    var cursor := found.cursors[shape.token];
    PageLengthIsLongest(cursor.rows, cursor.position, 0, shape);
    CursorBytes(Deliver(found, shape).1.value.nextCursor, shape.token);
  }

  lemma RenderShorter(items: seq<Row>, onlyIds: bool, cursor: string, longer: string, limit: nat)
    requires Uri.ByteLength(cursor) <= Uri.ByteLength(longer)
    ensures Uri.ByteLength(Render(items, onlyIds, cursor, limit)) <= Uri.ByteLength(Render(items, onlyIds, longer, limit))
  {
    RenderBytes(items, onlyIds, cursor, limit);
    RenderBytes(items, onlyIds, longer, limit);
  }

  /** `null` is no longer than the token in quotes. */
  lemma CursorBytes(cursor: Option<string>, token: string)
    requires |token| >= 2 && (cursor.Some? ==> cursor.value == token)
    ensures Uri.ByteLength(CursorText(cursor)) <= Uri.ByteLength(Quoted(token))
  {
    Uri.AsciiByteLength("null");
    Uri.Utf8AtLeast(Quoted(token));
  }

  /** Every page fits the response budget, and a page that is not the last has a row. */
  lemma PagesFitAndAdvance(settings: Settings, state: State, log: Log, input: Input)
    requires Faithful(settings, state, log) && Bounded(state) && state.sequence + 1 < U64_RANGE
    ensures
      var reply := Answer(settings, state, input.request, input.rows, input.now).1;
      reply.Ok? ==>
        && Uri.ByteLength(Render(reply.value.items, input.request.onlyIds, CursorText(reply.value.nextCursor),
                                 reply.value.limit))
           <= Budget(settings)
        && |reply.value.items| <= reply.value.limit <= MAX_QUERY_PAGE_ITEMS
        && (reply.value.nextCursor.Some? ==> reply.value.items != [])
  {
    var shape := Served(settings, state, input);
    if shape.Some? {
      LocatedCursor(settings, state, log, input);
      var found := Locate(settings, state, input.request, input.rows, input.now).0;
      var t := shape.value.token;
      if input.request.page.value.cursor.Some? {
        assert CursorFaithful(state.cursors[t], log, t);
        assert SnapshotFaithful(settings, state.sequence, log, t);
      }
      DeliveredPageFits(found, shape.value);
    }
  }

  lemma EmptyPageFits(onlyIds: bool, limit: nat)
    requires limit <= MAX_QUERY_PAGE_ITEMS
    ensures Uri.ByteLength(Render([], onlyIds, "null", limit)) <= 256
  {
    RenderBytes([], onlyIds, "null", limit);
    ItemsBytes([], onlyIds);
    Uri.AsciiByteLength("null");
    Decimal.LengthGrows(limit, MAX_QUERY_PAGE_ITEMS);
    assert |Decimal.Text(MAX_QUERY_PAGE_ITEMS)| == 4;
  }
}
