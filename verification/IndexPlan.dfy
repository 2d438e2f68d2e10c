/** Structured queries answered through the equality planner, against the scan over every
    document that the planner replaces. */
module IndexPlan {
  import opened Common
  import opened Documents
  import opened Ordering
  import opened IndexKeys
  import SortKeys
  import Uri

  // ---------- the predicate ----------

  datatype FieldValue = Missing | Present(value: Value)

  /** What a text reads as when it is compared with a number or a Boolean. */
  datatype Numeral = NotANumber | Nan | Infinite(negative: bool) | Finite(n: Number)

  /** The indexer's host, and the matcher's reading of a text as a number. */
  datatype Engine<!E> = Engine(host: Host<E>, numeral: string -> Numeral)

  /** `f64` options compare equal as in Rust: NaN never, a missing number to a missing one. */
  predicate SameNumeral(a: Numeral, b: Numeral) {
    a == b && !a.Nan?
  }

  function NumeralOf<E>(engine: Engine<E>, value: Value): Numeral {
    match value
    case Bool(b) => Finite(if b then ONE else 0)
    case Num(n) => Finite(n)
    case Str(s) => engine.numeral(s)
    case _ => NotANumber
  }

  predicate LooseEqual<E>(engine: Engine<E>, actual: FieldValue, expected: Value) {
    match actual
    case Missing => expected.Null?
    case Present(value) =>
      match value
      case Null => expected.Null?
      case Str(text) =>
        if expected.Str? then text == expected.s
        else (expected.Num? || expected.Bool?) && SameNumeral(NumeralOf(engine, value), NumeralOf(engine, expected))
      case Num(n) =>
        if expected.Num? then n == expected.n
        else (expected.Str? || expected.Bool?) && SameNumeral(NumeralOf(engine, value), NumeralOf(engine, expected))
      case Bool(b) =>
        if expected.Bool? then b == expected.b
        else (expected.Str? || expected.Num?) && SameNumeral(NumeralOf(engine, value), NumeralOf(engine, expected))
      case _ => false
  }

  /** A path split at `.` and `/`, empty segments dropped. */
  function PathSegments(path: string): seq<string> {
    NonEmpty(Segments(Slashed(path)))
  }

  /** `replace('.', "/")`. */
  function Slashed(path: string): string {
    if path == "" then ""
    else [if path[0] == '.' then '/' else path[0]] + Slashed(path[1..])
  }

  function NonEmpty(segments: seq<string>): seq<string> {
    if segments == [] then []
    else (if segments[0] == "" then [] else [segments[0]]) + NonEmpty(segments[1..])
  }

  function FieldNamed(fields: seq<Field>, name: string): FieldValue {
    if fields == [] then Missing
    else if fields[0].name == name then Present(fields[0].value)
    else FieldNamed(fields[1..], name)
  }

  function ValueAt(fields: seq<Field>, segments: seq<string>): FieldValue
    decreases |segments|
  {
    if segments == [] then Missing
    else
      var here := FieldNamed(fields, segments[0]);
      if |segments| == 1 then here
      else if here.Present? && here.value.Obj? then ValueAt(here.value.fields, segments[1..])
      else Missing
  }

  /** `$eq` is the operator the planner knows; the others are just tests here. */
  datatype Operator = Eq(expected: Value) | Test(accepts: FieldValue -> bool)

  datatype Operand = NotAnObject | Operators(operators: seq<Operator>)

  datatype Condition = Condition(field: string, operand: Operand)

  type Operation = seq<Condition>

  datatype Query = Query(operations: seq<Operation>, inTime: (nat, nat) -> bool, limit: Option<nat>)

  predicate Accepts<E>(engine: Engine<E>, operator: Operator, actual: FieldValue) {
    match operator
    case Eq(expected) => LooseEqual(engine, actual, expected)
    case Test(accepts) => accepts(actual)
  }

  predicate Holds<E>(engine: Engine<E>, condition: Condition, fields: seq<Field>) {
    condition.operand.Operators?
    && var actual := ValueAt(fields, PathSegments(condition.field));
       forall i :: 0 <= i < |condition.operand.operators| ==>
         Accepts(engine, condition.operand.operators[i], actual)
  }

  predicate OperationHolds<E>(engine: Engine<E>, operation: Operation, fields: seq<Field>) {
    forall i :: 0 <= i < |operation| ==> Holds(engine, operation[i], fields)
  }

  predicate QueryMatches<E>(engine: Engine<E>, query: Query, fields: seq<Field>, created: nat, updated: nat) {
    query.inTime(created, updated)
    && (query.operations == []
        || exists i :: 0 <= i < |query.operations| && OperationHolds(engine, query.operations[i], fields))
  }

  // ---------- the collection ----------

  datatype Stored<A> = Stored(fields: seq<Field>, access: A, created: nat, updated: nat)

  /** Live documents, their identifiers in ascending order and the keys of the index. */
  datatype Collection<A> = Collection(documents: map<string, Stored<A>>, ids: seq<string>, keys: set<string>)

  predicate DocumentIndexed<E, A>(engine: Engine<E>, document: Stored<A>) {
    ValidFields(document.fields) && AllLookedUp(engine.host, Leaves(document.fields, None))
  }

  /** The index holds exactly the derived keys of all live documents. */
  ghost predicate Indexed<E, A>(engine: Engine<E>, c: Collection<A>) {
    && Ascending(c.ids) && (forall id :: id in c.ids <==> id in c.documents)
    && (forall id :: id in c.documents ==>
          id != "" && Uri.IdentifierText(id) && DocumentIndexed(engine, c.documents[id]))
    && (forall key :: key in c.keys <==>
          exists id :: id in c.documents
            && key in KeysOf(engine.host, Leaves(c.documents[id].fields, None), id))
  }

  /** Fields that are not declared encrypted are indexed under their own stored text. */
  ghost predicate PlainLookups<E(!new)>(engine: Engine<E>, encrypted: seq<string>) {
    forall path, text :: !EncryptedField(path, encrypted) ==>
      engine.host.lookup(path, text) == Ok(IndexLookup(text, false))
  }

  /** The document identifier of a key: what follows its last separator. */
  function KeyDocument(key: string): string {
    if '/' !in key then key else AfterLastSlash(key)
  }

  function AfterLastSlash(key: string): string {
    if key == "" then ""
    else if '/' in key[1..] then AfterLastSlash(key[1..])
    else if key[0] == '/' then key[1..]
    else key
  }

  /** A prefix scan: the identifiers of all keys with the prefix. */
  function Scan(keys: set<string>, prefix: string): set<string> {
    set key | key in keys && prefix <= key && '/' in key && KeyDocument(key) != "" :: KeyDocument(key)
  }

  // ---------- the planner ----------

  function EqualityPrefix<E>(host: Host<E>, path: string, value: Value): Option<string> {
    if !value.Scalar() then None
    else Some(EncodeFieldPath(path) + "/eq/" + LookupToken(host, IndexKeys.Stored(host, value)) + "/")
  }

  function PlanCondition<E>(engine: Engine<E>, encrypted: seq<string>, condition: Condition): Option<string> {
    if condition.operand.NotAnObject? then None
    else if |condition.operand.operators| != 1 || !condition.operand.operators[0].Eq? then None
    else
      var path := Slashed(condition.field);
      if EncryptedField(path, encrypted) then None
      else EqualityPrefix(engine.host, path, condition.operand.operators[0].expected)
  }

  predicate Plannable<E>(engine: Engine<E>, encrypted: seq<string>, query: Query) {
    && query.operations != []
    && forall i :: 0 <= i < |query.operations| ==>
         query.operations[i] != []
         && forall j :: 0 <= j < |query.operations[i]| ==>
              PlanCondition(engine, encrypted, query.operations[i][j]).Some?
  }

  /** Identifiers selected by every prefix of one operation. */
  predicate Selected(keys: set<string>, prefixes: seq<string>, id: string) {
    prefixes != [] && forall j :: 0 <= j < |prefixes| ==> id in Scan(keys, prefixes[j])
  }

  method PlanEqualityCandidates<E>(
    engine: Engine<E>, encrypted: seq<string>, keys: set<string>, query: Query)
    returns (plan: Option<seq<string>>)
    ensures plan.Some? <==> Plannable(engine, encrypted, query)
    ensures plan.Some? ==>
      && Ascending(plan.value)
      && forall id :: id in plan.value <==> Candidate(engine, encrypted, keys, query, id)
  {
    var prefixes := PlanPrefixes(engine, encrypted, query);
    if prefixes.None? {
      return None;
    }
    assert forall k :: 0 <= k < |prefixes.value| ==> prefixes.value[k] != [] by {
      forall k | 0 <= k < |prefixes.value|
        ensures prefixes.value[k] != []
      {
        assert Planned(engine, encrypted, query.operations[k], prefixes.value[k]);
      }
    }
    var union := UnionOf(keys, prefixes.value);
    var list := SortedList(union);
    forall id
      ensures id in list <==> Candidate(engine, encrypted, keys, query, id)
    {
      PlannedCandidates(engine, encrypted, keys, query, prefixes.value, id);
    }
    return Some(list);
  }

  predicate AnySelected(keys: set<string>, prefixes: seq<seq<string>>, id: string) {
    exists k :: 0 <= k < |prefixes| && Selected(keys, prefixes[k], id)
  }

  method UnionOf(keys: set<string>, prefixes: seq<seq<string>>) returns (union: set<string>)
    requires forall k :: 0 <= k < |prefixes| ==> prefixes[k] != []
    ensures forall id :: id in union <==> AnySelected(keys, prefixes, id)
  {
    union := {};
    for i := 0 to |prefixes|
      invariant forall id :: id in union <==> AnySelected(keys, prefixes[..i], id)
    {
      var candidates := Intersect(keys, prefixes[i]);
      forall id
        ensures AnySelected(keys, prefixes[..i + 1], id)
           <==> AnySelected(keys, prefixes[..i], id) || id in candidates
      {
        AnySelectedStep(keys, prefixes, i, id);
      }
      union := union + candidates;
    }
    assert prefixes[..|prefixes|] == prefixes;
  }

  lemma AnySelectedStep(keys: set<string>, prefixes: seq<seq<string>>, i: nat, id: string)
    requires i < |prefixes|
    ensures AnySelected(keys, prefixes[..i + 1], id)
       <==> AnySelected(keys, prefixes[..i], id) || Selected(keys, prefixes[i], id)
  {
    var longer, shorter := prefixes[..i + 1], prefixes[..i];
    if AnySelected(keys, shorter, id) {
      var k :| 0 <= k < i && Selected(keys, shorter[k], id);
      assert longer[k] == shorter[k];
    }
    if Selected(keys, prefixes[i], id) {
      assert longer[i] == prefixes[i];
    }
    if AnySelected(keys, longer, id) {
      var k :| 0 <= k <= i && Selected(keys, longer[k], id);
      if k < i {
        assert longer[k] == shorter[k];
      }
    }
  }

  /** The key prefixes of every operation, unless one of them cannot be planned. */
  method PlanPrefixes<E>(engine: Engine<E>, encrypted: seq<string>, query: Query)
    returns (plan: Option<seq<seq<string>>>)
    ensures plan.Some? <==> Plannable(engine, encrypted, query)
    ensures plan.Some? ==> PlannedAll(engine, encrypted, query, plan.value)
  {
    if query.operations == [] {
      return None;
    }
    var prefixes: seq<seq<string>> := [];
    for i := 0 to |query.operations|
      invariant |prefixes| == i
      invariant forall k :: 0 <= k < i ==> Planned(engine, encrypted, query.operations[k], prefixes[k])
    {
      var operands := PlanOperation(engine, encrypted, query.operations[i]);
      if operands.None? {
        return None;
      }
      prefixes := prefixes + [operands.value];
    }
    forall i | 0 <= i < |query.operations|
      ensures query.operations[i] != []
      ensures forall j :: 0 <= j < |query.operations[i]| ==>
                PlanCondition(engine, encrypted, query.operations[i][j]).Some?
    {
      assert Planned(engine, encrypted, query.operations[i], prefixes[i]);
    }
    return Some(prefixes);
  }

  method PlanOperation<E>(engine: Engine<E>, encrypted: seq<string>, operation: Operation)
    returns (plan: Option<seq<string>>)
    ensures plan.Some? <==> operation != [] && forall j :: 0 <= j < |operation| ==>
              PlanCondition(engine, encrypted, operation[j]).Some?
    ensures plan.Some? ==> Planned(engine, encrypted, operation, plan.value)
  {
    var operands: seq<string> := [];
    for j := 0 to |operation|
      invariant |operands| == j
      invariant forall k :: 0 <= k < j ==>
        PlanCondition(engine, encrypted, operation[k]) == Some(operands[k])
    {
      var prefix := PlanCondition(engine, encrypted, operation[j]);
      if prefix.None? {
        return None;
      }
      operands := operands + [prefix.value];
    }
    if operands == [] {
      return None;
    }
    return Some(operands);
  }

  ghost predicate PlannedAll<E>(
    engine: Engine<E>, encrypted: seq<string>, query: Query, prefixes: seq<seq<string>>)
  {
    && |prefixes| == |query.operations|
    && forall k :: 0 <= k < |prefixes| ==> Planned(engine, encrypted, query.operations[k], prefixes[k])
  }

  lemma PlannedCandidates<E>(
    engine: Engine<E>, encrypted: seq<string>, keys: set<string>, query: Query,
    prefixes: seq<seq<string>>, id: string)
    requires PlannedAll(engine, encrypted, query, prefixes)
    ensures AnySelected(keys, prefixes, id) <==> Candidate(engine, encrypted, keys, query, id)
  {
    forall k | 0 <= k < |prefixes|
      ensures Selected(keys, prefixes[k], id)
         <==> OperationSelects(engine, encrypted, keys, query.operations[k], id)
    {
      PlannedSelects(engine, encrypted, keys, query.operations[k], prefixes[k], id);
    }
  }

  lemma PlannedSelects<E>(
    engine: Engine<E>, encrypted: seq<string>, keys: set<string>, operation: Operation,
    prefixes: seq<string>, id: string)
    requires Planned(engine, encrypted, operation, prefixes)
    ensures Selected(keys, prefixes, id) <==> OperationSelects(engine, encrypted, keys, operation, id)
  {
    if OperationSelects(engine, encrypted, keys, operation, id) {
      forall j | 0 <= j < |prefixes|
        ensures id in Scan(keys, prefixes[j])
      {
        assert PlanCondition(engine, encrypted, operation[j]) == Some(prefixes[j]);
      }
    }
  }

  predicate Planned<E>(engine: Engine<E>, encrypted: seq<string>, operation: Operation, prefixes: seq<string>) {
    && operation != [] && |prefixes| == |operation|
    && forall j :: 0 <= j < |operation| ==> PlanCondition(engine, encrypted, operation[j]) == Some(prefixes[j])
  }

  predicate OperationSelects<E>(
    engine: Engine<E>, encrypted: seq<string>, keys: set<string>, operation: Operation, id: string)
  {
    operation != [] && forall j :: 0 <= j < |operation| ==>
      var prefix := PlanCondition(engine, encrypted, operation[j]);
      prefix.Some? && id in Scan(keys, prefix.value)
  }

  predicate Candidate<E>(
    engine: Engine<E>, encrypted: seq<string>, keys: set<string>, query: Query, id: string)
  {
    exists k :: 0 <= k < |query.operations|
      && OperationSelects(engine, encrypted, keys, query.operations[k], id)
  }

  method Intersect(keys: set<string>, prefixes: seq<string>) returns (candidates: set<string>)
    requires prefixes != []
    ensures forall id :: id in candidates <==> Selected(keys, prefixes, id)
  {
    candidates := Scan(keys, prefixes[0]);
    for j := 1 to |prefixes|
      invariant forall id :: id in candidates <==>
        forall k :: 0 <= k < j ==> id in Scan(keys, prefixes[k])
    {
      candidates := candidates * Scan(keys, prefixes[j]);
    }
  }

  method SortedList(s: set<string>) returns (list: seq<string>)
    ensures Ascending(list) && forall x :: x in list <==> x in s
  {
    list := [];
    var rest := s;
    while rest != {}
      invariant rest <= s && Ascending(list)
      invariant forall x :: x in list <==> x in s && x !in rest
      decreases rest
    {
      var x :| x in rest;
      list := Insert(list, x);
      rest := rest - {x};
    }
  }

  // ---------- find ----------

  function Keep(ids: seq<string>, keep: string -> bool): seq<string> {
    if ids == [] then []
    else Keep(ids[..|ids| - 1], keep) + (if keep(ids[|ids| - 1]) then [ids[|ids| - 1]] else [])
  }

  /** A limit of zero, like no limit, keeps everything. */
  function Limited(limit: Option<nat>, ids: seq<string>): seq<string> {
    if limit.Some? && 0 < limit.value < |ids| then ids[..limit.value] else ids
  }

  predicate Returned<E, A>(
    engine: Engine<E>, c: Collection<A>, query: Query, allowed: A -> bool, id: string)
  {
    id in c.documents
    && var stored := c.documents[id];
       allowed(stored.access)
       && QueryMatches(engine, query, stored.fields, stored.created, stored.updated)
  }

  /** What reading every document gives. */
  function ScanResult<E, A>(engine: Engine<E>, c: Collection<A>, query: Query, allowed: A -> bool): seq<string> {
    Limited(query.limit, Keep(c.ids, id => Returned(engine, c, query, allowed, id)))
  }

  /** What reading only the planned candidates gives. */
  function PlannedResult<E, A>(
    engine: Engine<E>, encrypted: seq<string>, c: Collection<A>, query: Query, allowed: A -> bool): seq<string>
  {
    Limited(query.limit,
      Keep(c.ids, id => Candidate(engine, encrypted, c.keys, query, id)
                        && Returned(engine, c, query, allowed, id)))
  }

  datatype Record<A> = Record(id: string, document: Stored<A>)

  ghost predicate RecordsFor<A>(c: Collection<A>, ids: seq<string>, records: seq<Record<A>>) {
    |records| == |ids|
    && forall i :: 0 <= i < |ids| ==>
         ids[i] in c.documents && records[i] == Record(ids[i], c.documents[ids[i]])
  }

  method FindWithAccess<E, A>(
    engine: Engine<E>, encrypted: seq<string>, c: Collection<A>, query: Query, allowed: A -> bool)
    returns (records: seq<Record<A>>)
    requires Indexed(engine, c)
    ensures !Plannable(engine, encrypted, query) ==>
      RecordsFor(c, ScanResult(engine, c, query, allowed), records)
    ensures Plannable(engine, encrypted, query) ==>
      RecordsFor(c, PlannedResult(engine, encrypted, c, query, allowed), records)
  {
    var plan := PlanEqualityCandidates(engine, encrypted, c.keys, query);
    match plan {
      case Some(candidates) =>
        PlanIsKept(engine, encrypted, c, query, candidates);
        records := ReadMatching(engine, c, query, allowed, candidates);
        KeepTwice(c.ids, id => Candidate(engine, encrypted, c.keys, query, id),
          id => Returned(engine, c, query, allowed, id),
          id => Candidate(engine, encrypted, c.keys, query, id) && Returned(engine, c, query, allowed, id));
      case None =>
        records := ReadMatching(engine, c, query, allowed, c.ids);
    }
  }

  /** Read the given documents in order and keep the ones the query returns. */
  method ReadMatching<E, A>(
    engine: Engine<E>, c: Collection<A>, query: Query, allowed: A -> bool, identifiers: seq<string>)
    returns (records: seq<Record<A>>)
    requires forall id :: id in identifiers ==> id in c.documents
    ensures RecordsFor(c,
      Limited(query.limit, Keep(identifiers, id => Returned(engine, c, query, allowed, id))), records)
  {
    ghost var keep := id => Returned(engine, c, query, allowed, id);
    records := [];
    ghost var kept: seq<string> := [];
    var i := 0;
    while i < |identifiers|
      invariant 0 <= i <= |identifiers|
      invariant kept == Keep(identifiers[..i], keep) && RecordsFor(c, kept, records)
      invariant query.limit.Some? && query.limit.value > 0 ==> |kept| < query.limit.value
    {
      var identifier := identifiers[i];
      assert identifier in identifiers;
      assert identifiers[..i + 1][..i] == identifiers[..i];
      i := i + 1;
      var stored := c.documents[identifier];
      if !allowed(stored.access) {
        continue;
      }
      if !QueryMatches(engine, query, stored.fields, stored.created, stored.updated) {
        continue;
      }
      records := records + [Record(identifier, stored)];
      kept := kept + [identifier];
      if query.limit.Some? && query.limit.value > 0 && |records| >= query.limit.value {
        break;
      }
    }
    KeepPrefix(identifiers, keep, i);
    assert identifiers[..|identifiers|] == identifiers;
    assert kept == Limited(query.limit, Keep(identifiers, keep));
  }

  lemma {:induction false} KeepPrefix(ids: seq<string>, keep: string -> bool, n: nat)
    requires n <= |ids|
    ensures Keep(ids[..n], keep) <= Keep(ids, keep)
    decreases |ids|
  {
    if n < |ids| {
      KeepPrefix(ids[..|ids| - 1], keep, n);
      assert ids[..|ids| - 1][..n] == ids[..n];
    } else {
      assert ids[..n] == ids;
    }
  }

  lemma {:induction false} KeepMembers(ids: seq<string>, keep: string -> bool, id: string)
    ensures id in Keep(ids, keep) <==> id in ids && keep(id)
    decreases |ids|
  {
    if ids != [] {
      KeepMembers(ids[..|ids| - 1], keep, id);
      assert ids == ids[..|ids| - 1] + [ids[|ids| - 1]];
    }
  }

  lemma {:induction false} KeepAscending(ids: seq<string>, keep: string -> bool)
    requires Ascending(ids)
    ensures Ascending(Keep(ids, keep))
    decreases |ids|
  {
    if ids != [] {
      var front, last := ids[..|ids| - 1], ids[|ids| - 1];
      KeepAscending(front, keep);
      forall i | 0 <= i < |Keep(front, keep)|
        ensures LexLess(Keep(front, keep)[i], last)
      {
        KeepMembers(front, keep, Keep(front, keep)[i]);
      }
    }
  }

  lemma {:induction false} KeepTwice(
    ids: seq<string>, first: string -> bool, second: string -> bool, both: string -> bool)
    requires forall id :: both(id) <==> first(id) && second(id)
    ensures Keep(Keep(ids, first), second) == Keep(ids, both)
    decreases |ids|
  {
    if ids != [] {
      var front, last := ids[..|ids| - 1], ids[|ids| - 1];
      KeepTwice(front, first, second, both);
      var kept := Keep(ids, first);
      if first(last) {
        assert kept == Keep(front, first) + [last];
        assert kept[..|kept| - 1] == Keep(front, first) && kept[|kept| - 1] == last;
      } else {
        assert kept == Keep(front, first);
      }
    }
  }

  lemma {:induction false} KeepSame(ids: seq<string>, first: string -> bool, second: string -> bool)
    requires forall id :: id in ids ==> first(id) == second(id)
    ensures Keep(ids, first) == Keep(ids, second)
    decreases |ids|
  {
    if ids != [] {
      assert ids[|ids| - 1] in ids;
      KeepSame(ids[..|ids| - 1], first, second);
    }
  }

  // ---------- keys and identifiers ----------

  lemma {:induction false} AfterLastSlashOf(head: string, tail: string)
    requires '/' !in tail
    ensures AfterLastSlash(head + ("/" + tail)) == tail
  {
    var key := head + ("/" + tail);
    if head == "" {
      assert key == "/" + tail && key[1..] == tail;
    } else {
      assert key[1..] == head[1..] + ("/" + tail);
      assert key[1..][|head| - 1] == '/';
      AfterLastSlashOf(head[1..], tail);
    }
  }

  lemma IndexKeyDocument(path: string, kind: string, value: string, id: string)
    requires Uri.IdentifierText(id)
    ensures
      var key := IndexKey(path, kind, value, id);
      '/' in key && KeyDocument(key) == id
  {
    Uri.IdentifierEncodesToItself(id);
    Uri.EncodeAlphabet(id);
    var head := EncodeFieldPath(path) + "/" + kind + "/" + value;
    assert IndexKey(path, kind, value, id) == head + ("/" + id);
    assert IndexKey(path, kind, value, id)[|head|] == '/';
    AfterLastSlashOf(head, id);
  }

  lemma LeafKeyDocument<E>(host: Host<E>, leaf: Leaf, found: IndexLookup, id: string, key: string)
    requires Uri.IdentifierText(id) && key in LeafKeys(host, leaf, found, id)
    ensures '/' in key && KeyDocument(key) == id
  {
    if key in NumberKeys(host, leaf, id) {
      var sortable := SortKeys.SortableFloat64(NumericBits(host, leaf.value).value);
      IndexKeyDocument(leaf.path, "n", sortable, id);
      IndexKeyDocument(leaf.path, "nr", SortKeys.ReverseSortable(sortable), id);
    } else if leaf.value.Str? && !found.encrypted && key in TextKeys(leaf, found.value, id) {
      IndexKeyDocument(leaf.path, "f", Uri.Encode(found.value), id);
      IndexKeyDocument(leaf.path, "r", Uri.Encode(Reverse(found.value)), id);
      if key in GramKeys(leaf.path, Grams(Capped(found.value)), id) {
        var gram :| gram in Grams(Capped(found.value)) && key == IndexKey(leaf.path, "g3", Uri.Encode(gram), id);
        IndexKeyDocument(leaf.path, "g3", Uri.Encode(gram), id);
      }
    } else {
      IndexKeyDocument(leaf.path, "eq", LookupToken(host, found.value), id);
    }
  }

  lemma {:induction false} KeysDocument<E>(host: Host<E>, leaves: seq<Leaf>, id: string, key: string)
    requires Uri.IdentifierText(id) && key in KeysOf(host, leaves, id)
    ensures '/' in key && KeyDocument(key) == id
  {
    if key in FoundKeys(host, leaves[0], id) {
      LeafKeyDocument(host, leaves[0], host.lookup(leaves[0].path, IndexKeys.Stored(host, leaves[0].value)).value, id, key);
    } else {
      KeysDocument(host, leaves[1..], id, key);
    }
  }

  /** A scan only ever names live documents. */
  lemma ScannedIsLive<E, A>(engine: Engine<E>, c: Collection<A>, prefix: string, id: string)
    requires Indexed(engine, c) && id in Scan(c.keys, prefix)
    ensures id in c.documents
  {
    var key :| key in c.keys && KeyDocument(key) == id;
    var owner :| owner in c.documents && key in KeysOf(engine.host, Leaves(c.documents[owner].fields, None), owner);
    KeysDocument(engine.host, Leaves(c.documents[owner].fields, None), owner, key);
  }

  lemma CandidateIsLive<E, A>(
    engine: Engine<E>, encrypted: seq<string>, c: Collection<A>, query: Query, id: string)
    requires Indexed(engine, c) && Candidate(engine, encrypted, c.keys, query, id)
    ensures id in c.documents
  {
    var k :| 0 <= k < |query.operations|
      && OperationSelects(engine, encrypted, c.keys, query.operations[k], id);
    var prefix := PlanCondition(engine, encrypted, query.operations[k][0]);
    ScannedIsLive(engine, c, prefix.value, id);
  }

  /** The planned list is the ascending list of all identifiers with the rest left out. */
  lemma PlanIsKept<E, A>(
    engine: Engine<E>, encrypted: seq<string>, c: Collection<A>, query: Query, plan: seq<string>)
    requires Indexed(engine, c) && Ascending(plan)
    requires forall id :: id in plan <==> Candidate(engine, encrypted, c.keys, query, id)
    ensures plan == Keep(c.ids, id => Candidate(engine, encrypted, c.keys, query, id))
    ensures forall id :: id in plan ==> id in c.documents
  {
    var keep := id => Candidate(engine, encrypted, c.keys, query, id);
    KeepAscending(c.ids, keep);
    forall id
      ensures id in plan ==> id in c.documents
      ensures id in plan <==> id in Keep(c.ids, keep)
    {
      KeepMembers(c.ids, keep, id);
      if id in plan {
        CandidateIsLive(engine, encrypted, c, query, id);
      }
    }
    AscendingUnique(plan, Keep(c.ids, keep));
  }
}
