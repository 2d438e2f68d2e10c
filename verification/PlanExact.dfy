/** Exactly which equality operands the planner answers as the scan does.  The planner's
    claim is that the index can only over-match; it under-matches wherever the predicate
    calls two values equal whose stored texts differ. */
module PlanExact {
  import opened Common
  import opened Documents
  import opened Ordering
  import opened IndexKeys
  import opened IndexPlan
  import opened PlanCollections
  import Decimal
  import Uri

  predicate NumeralText(text: string) {
    0 < |text| <= 40 && forall c :: c in text ==> '0' <= c <= '9' || c == '+' || c == '-' || c == '.' || c == 'e'
  }

  /** What number text and its reading satisfy: every number has a short decimal text that
      reads back as it, also after a blank, which the reader trims; the words for the
      Booleans are not numbers; digests hold no separator. */
  ghost predicate NumberLaws<E>(engine: Engine<E>) {
    && (forall n :: NumeralText(engine.host.format(n)) && engine.numeral(engine.host.format(n)) == Finite(n))
    && (forall n :: engine.numeral(" " + engine.host.format(n)) == Finite(n))
    && engine.numeral("true") == NotANumber && engine.numeral("false") == NotANumber
    && SafeDigests(engine)
  }

  /** Texts that no number and no Boolean is loosely equal to, except the number whose own
      text they are. */
  predicate ExactOperand<E>(engine: Engine<E>, expected: Value) {
    expected.Str?
    && match engine.numeral(expected.s)
       case Finite(n) => engine.host.format(n) == expected.s && n != 0 && n != ONE
       case _ => true
  }

  /** A path whose segments are all non-empty once dots are read as separators. */
  predicate CleanPath(field: string) {
    forall segment :: segment in Segments(Slashed(field)) ==> segment != ""
  }

  predicate ExactCondition<E>(engine: Engine<E>, condition: Condition) {
    CleanPath(condition.field) && condition.operand.Operators?
    && |condition.operand.operators| == 1 && condition.operand.operators[0].Eq?
    && ExactOperand(engine, condition.operand.operators[0].expected)
  }

  predicate ExactQuery<E>(engine: Engine<E>, query: Query) {
    forall i, j :: 0 <= i < |query.operations| && 0 <= j < |query.operations[i]| ==>
      ExactCondition(engine, query.operations[i][j])
  }

  // ---------- exact operands lose nothing ----------

  lemma LooseEqualMeansStored<E>(engine: Engine<E>, actual: FieldValue, expected: Value)
    requires NumberLaws(engine) && ExactOperand(engine, expected) && LooseEqual(engine, actual, expected)
    ensures actual.Present? && actual.value.Scalar()
    ensures IndexKeys.Stored(engine.host, actual.value) == IndexKeys.Stored(engine.host, expected)
  {
  }

  /** A document holding an exact condition has a leaf at the planned path with the
      operand's stored text. */
  lemma HoldingHasLeaf<E(!new)>(engine: Engine<E>, condition: Condition, fields: seq<Field>)
    requires NumberLaws(engine) && ExactCondition(engine, condition) && Holds(engine, condition, fields)
    ensures HoldsStored(engine, condition, fields)
  {
    var path := Slashed(condition.field);
    NonEmptyKeepsAll(Segments(path));
    SegmentsJoin(path);
    var actual := ValueAt(fields, Segments(path));
    assert Accepts(engine, condition.operand.operators[0], actual);
    LooseEqualMeansStored(engine, actual, condition.operand.operators[0].expected);
    ValueAtIsLeaf(fields, Segments(path), None);
    assert Leaf(path, actual.value).path == path;
  }

  lemma HoldingIsScanned<E(!new), A>(
    engine: Engine<E>, encrypted: seq<string>, c: Collection<A>, condition: Condition, id: string)
    requires NumberLaws(engine) && PlainLookups(engine, encrypted) && Indexed(engine, c)
    requires ExactCondition(engine, condition) && PlanCondition(engine, encrypted, condition).Some?
    requires id in c.documents && Holds(engine, condition, c.documents[id].fields)
    ensures id in Scan(c.keys, PlanCondition(engine, encrypted, condition).value)
  {
    hide PlainLookups, Indexed, ExactCondition, PlanCondition, Holds, HoldsStored, Reached;
    HoldingHasLeaf(engine, condition, c.documents[id].fields);
    StoredIsReached(engine, encrypted, condition, c.documents[id].fields);
    ConditionScanned(engine, encrypted, c, condition, id);
  }

  /** With exact operands, answering from the planned candidates returns the same records
      in the same order as reading every document, for every collection, actor and limit. */
  lemma ExactQueriesLoseNothing<E(!new), A>(
    engine: Engine<E>, encrypted: seq<string>, c: Collection<A>, query: Query, allowed: A -> bool)
    requires NumberLaws(engine) && PlainLookups(engine, encrypted) && Indexed(engine, c)
    requires Plannable(engine, encrypted, query) && ExactQuery(engine, query)
    ensures PlannedResult(engine, encrypted, c, query, allowed) == ScanResult(engine, c, query, allowed)
  {
    hide PlainLookups, Indexed, Plannable, Holds, HoldsStored, ExactCondition;
    forall id, i, j |
      id in c.documents && 0 <= i < |query.operations| && 0 <= j < |query.operations[i]|
      && Holds(engine, query.operations[i][j], c.documents[id].fields)
      ensures HoldsStored(engine, query.operations[i][j], c.documents[id].fields)
    {
      HoldingHasLeaf(engine, query.operations[i][j], c.documents[id].fields);
    }
    StoredTextSuffices(engine, encrypted, c, query, allowed);
  }

  // ---------- every other operand loses a document ----------

  /** A field value that is loosely equal to an inexact operand and stored differently. */
  function Confused<E>(engine: Engine<E>, expected: Value): FieldValue {
    match expected
    case Bool(b) => Present(Num(if b then ONE else 0))
    case Num(n) => Present(Str(" " + engine.host.format(n)))
    case Str(s) =>
      (match engine.numeral(s)
       case Finite(n) => if engine.host.format(n) == s then Present(Bool(n == ONE)) else Present(Num(n))
       case _ => Missing)
    case _ => Missing
  }

  lemma ConfusedIsLooselyEqual<E>(engine: Engine<E>, expected: Value)
    requires NumberLaws(engine) && expected.Scalar() && !ExactOperand(engine, expected)
    ensures LooseEqual(engine, Confused(engine, expected), expected)
    ensures Confused(engine, expected).Missing? ==> expected.Null?
  {
  }

  /** Short ASCII text without the separator or its escape. */
  predicate PlainText(text: string) {
    0 < |text| <= 50 && '/' !in text && '%' !in text && Uri.Ascii(text) && text[0] != 'h'
  }

  lemma NumeralTextIsPlain(text: string)
    requires NumeralText(text)
    ensures PlainText(text) && PlainText(" " + text) && ' ' !in text && text[0] != 't' && text[0] != 'f'
  {
    assert text[0] in text;
    assert forall c :: c in " " + text ==> c == ' ' || c in text;
  }

  lemma {:induction false} EscapedSlash(text: string)
    requires '/' in text
    ensures '%' in Escape(text)
  {
    if text[0] != '/' {
      EscapedSlash(text[1..]);
    } else {
      assert Escape(text)[0] == '%';
    }
  }

  lemma EscapeDiffers(plain: string, text: string)
    requires PlainText(plain) && plain != text
    ensures Escape(text) != plain
  {
    if '/' in text {
      EscapedSlash(text);
    } else {
      EscapeKeeps(text);
    }
  }

  lemma ConfusedText<E>(engine: Engine<E>, expected: Value)
    requires NumberLaws(engine) && expected.Scalar() && !ExactOperand(engine, expected) && !expected.Null?
    ensures Confused(engine, expected).Present? && Confused(engine, expected).value.Scalar()
    ensures
      var text := ScalarText(engine.host, Confused(engine, expected).value);
      PlainText(text) && text != ScalarText(engine.host, expected)
  {
    match expected
    case Bool(b) => NumeralTextIsPlain(engine.host.format(if b then ONE else 0));
    case Num(n) =>
      var text := engine.host.format(n);
      NumeralTextIsPlain(text);
      assert (" " + text)[0] != text[0] by { assert text[0] in text; }
    case Str(s) =>
      var n := engine.numeral(s).n;
      NumeralTextIsPlain(engine.host.format(n));
    case Null =>
  }

  lemma TokensDiffer<E>(host: Host<E>, plain: string, text: string)
    requires PlainText(plain) && plain != text
    ensures LookupToken(host, plain) != LookupToken(host, text)
  {
    Uri.EncodeAsciiAtMost(plain);
    Uri.EncodeInjective(plain, text);
    assert Uri.EncodeByte(plain[0] as int)[0] != 'h' by { assert plain[0] in plain; }
    assert plain[0] in plain;
    assert Uri.Utf8(plain)[0] == plain[0] as int;
    assert Uri.Encode(plain)[0] == Uri.EncodeByte(plain[0] as int)[0];
  }

  predicate SimpleName(field: string) {
    field != "" && '.' !in field && '/' !in field
  }

  // ---------- an operation on several fields ----------

  /** `field: { $eq: expected }` */
  datatype Equality = Equality(field: string, expected: Value)

  function OperationOf(equalities: seq<Equality>): Operation {
    seq(|equalities|, i requires 0 <= i < |equalities| =>
      Condition(equalities[i].field, Operators([Eq(equalities[i].expected)])))
  }

  /** Scalar operands at different fields whose names hold no separator. */
  predicate SimpleEqualities(equalities: seq<Equality>) {
    && (forall i :: 0 <= i < |equalities| ==> SimpleName(equalities[i].field) && equalities[i].expected.Scalar())
    && (forall i, j :: 0 <= i < j < |equalities| ==> equalities[i].field != equalities[j].field)
  }

  /** `{ $ops: [{ field: { $eq: expected }, ... }] }` */
  function EqualityQuery(equalities: seq<Equality>, limit: Option<nat>): Query {
    Query([OperationOf(equalities)], (created, updated) => true, limit)
  }

  lemma {:induction false} SimpleSegments(field: string)
    requires '.' !in field && '/' !in field
    ensures Slashed(field) == field && Segments(field) == [field]
  {
    if field != "" {
      SimpleSegments(field[1..]);
    }
  }

  lemma OperationPlanned<E(!new)>(engine: Engine<E>, equalities: seq<Equality>, k: nat)
    requires SimpleEqualities(equalities) && k < |equalities|
    ensures PlanCondition(engine, [], OperationOf(equalities)[k])
         == EqualityPrefix(engine.host, equalities[k].field, equalities[k].expected)
    ensures PlanCondition(engine, [], OperationOf(equalities)[k]).Some?
  {
    SimpleSegments(equalities[k].field);
    assert OperationOf(equalities)[k].operand.operators[0] == Eq(equalities[k].expected);
  }

  lemma EqualityQueryIsPlanned<E(!new)>(engine: Engine<E>, equalities: seq<Equality>, limit: Option<nat>)
    requires SimpleEqualities(equalities) && equalities != []
    ensures Plannable(engine, [], EqualityQuery(equalities, limit))
  {
    hide PlanCondition;
    forall k | 0 <= k < |equalities|
      ensures PlanCondition(engine, [], OperationOf(equalities)[k]).Some?
    {
      OperationPlanned(engine, equalities, k);
    }
  }

  /** An exact operand itself, and for every other one a value confused with it. */
  function Chosen<E>(engine: Engine<E>, expected: Value): FieldValue {
    if ExactOperand(engine, expected) then Present(expected) else Confused(engine, expected)
  }

  function ChosenFields<E>(engine: Engine<E>, equalities: seq<Equality>): seq<Field> {
    if equalities == [] then []
    else
      var value := Chosen(engine, equalities[0].expected);
      (if value.Present? then [Field(equalities[0].field, value.value)] else [])
      + ChosenFields(engine, equalities[1..])
  }

  lemma ChosenIsAccepted<E>(engine: Engine<E>, expected: Value)
    requires NumberLaws(engine) && expected.Scalar()
    ensures LooseEqual(engine, Chosen(engine, expected), expected)
    ensures Chosen(engine, expected).Present? ==> Chosen(engine, expected).value.Scalar()
  {
    hide NumberLaws;
    if !ExactOperand(engine, expected) {
      ConfusedIsLooselyEqual(engine, expected);
      if !expected.Null? {
        ConfusedText(engine, expected);
      }
    }
  }

  /** The fields chosen are scalars at the names of the equalities they were chosen for. */
  lemma {:induction false} ChosenFieldsAre<E>(engine: Engine<E>, equalities: seq<Equality>, n: nat)
    requires NumberLaws(engine) && SimpleEqualities(equalities) && n < |ChosenFields(engine, equalities)|
    ensures
      var f := ChosenFields(engine, equalities)[n];
      f.value.Scalar()
      && exists k :: 0 <= k < |equalities| && f.name == equalities[k].field
           && Chosen(engine, equalities[k].expected) == Present(f.value)
    decreases |equalities|
  {
    hide NumberLaws, Chosen;
    var value, rest := Chosen(engine, equalities[0].expected), equalities[1..];
    ChosenIsAccepted(engine, equalities[0].expected);
    var own := if value.Present? then 1 else 0;
    if n >= own {
      assert ChosenFields(engine, equalities)[n] == ChosenFields(engine, rest)[n - own];
      ChosenFieldsAre(engine, rest, n - own);
      var k :| 0 <= k < |rest| && ChosenFields(engine, rest)[n - own].name == rest[k].field
        && Chosen(engine, rest[k].expected) == Present(ChosenFields(engine, rest)[n - own].value);
      assert rest[k] == equalities[k + 1];
    }
  }

  lemma {:induction false} ChosenFieldNamed<E>(engine: Engine<E>, equalities: seq<Equality>, k: nat)
    requires NumberLaws(engine) && SimpleEqualities(equalities) && k < |equalities|
    ensures FieldNamed(ChosenFields(engine, equalities), equalities[k].field) == Chosen(engine, equalities[k].expected)
    decreases |equalities|
  {
    hide NumberLaws, Chosen;
    var value, rest := Chosen(engine, equalities[0].expected), equalities[1..];
    var fields, more := ChosenFields(engine, equalities), ChosenFields(engine, rest);
    if value.Present? {
      assert fields == [Field(equalities[0].field, value.value)] + more && fields[1..] == more;
    } else {
      assert fields == more;
    }
    if k > 0 {
      ChosenFieldNamed(engine, rest, k - 1);
    } else if value.Missing? {
      NotChosen(engine, rest, equalities[0].field);
    }
  }

  lemma {:induction false} NotChosen<E>(engine: Engine<E>, equalities: seq<Equality>, name: string)
    requires forall k :: 0 <= k < |equalities| ==> equalities[k].field != name
    ensures FieldNamed(ChosenFields(engine, equalities), name).Missing?
    ensures forall f :: f in ChosenFields(engine, equalities) ==> f.name != name
    decreases |equalities|
  {
    hide Chosen;
    if equalities != [] {
      var value, more := Chosen(engine, equalities[0].expected), ChosenFields(engine, equalities[1..]);
      NotChosen(engine, equalities[1..], name);
      assert equalities[0].field != name;
      var own := if value.Present? then [Field(equalities[0].field, value.value)] else [];
      assert ChosenFields(engine, equalities) == own + more;
      if value.Present? {
        assert (own + more)[1..] == more;
      } else {
        assert own + more == more;
      }
    }
  }

  predicate DistinctNames(fields: seq<Field>) {
    forall i, j :: 0 <= i < j < |fields| ==> fields[i].name != fields[j].name
  }

  lemma {:induction false} ChosenNamesDistinct<E>(engine: Engine<E>, equalities: seq<Equality>)
    requires SimpleEqualities(equalities)
    ensures DistinctNames(ChosenFields(engine, equalities))
    decreases |equalities|
  {
    hide Chosen;
    if equalities != [] {
      ChosenNamesDistinct(engine, equalities[1..]);
      NotChosen(engine, equalities[1..], equalities[0].field);
    }
  }

  predicate ScalarFields(fields: seq<Field>) {
    forall i :: 0 <= i < |fields| ==> fields[i].value.Scalar()
  }

  lemma ChosenScalar<E>(engine: Engine<E>, equalities: seq<Equality>)
    requires NumberLaws(engine) && SimpleEqualities(equalities)
    ensures ScalarFields(ChosenFields(engine, equalities))
  {
    hide NumberLaws, SimpleEqualities;
    forall n | 0 <= n < |ChosenFields(engine, equalities)|
      ensures ChosenFields(engine, equalities)[n].value.Scalar()
    {
      ChosenFieldsAre(engine, equalities, n);
    }
  }

  lemma {:induction false} ScalarLeaves(fields: seq<Field>, leaf: Leaf)
    requires ScalarFields(fields) && leaf in Leaves(fields, None)
    ensures exists n :: 0 <= n < |fields| && leaf == Leaf(fields[n].name, fields[n].value)
    decreases |fields|
  {
    if leaf !in FieldLeaves(fields[0], None) {
      ScalarLeaves(fields[1..], leaf);
      var n :| 0 <= n < |fields[1..]| && leaf == Leaf(fields[1..][n].name, fields[1..][n].value);
      assert leaf == Leaf(fields[n + 1].name, fields[n + 1].value);
    } else {
      assert leaf == Leaf(fields[0].name, fields[0].value);
    }
  }

  // ---------- a collection of one document ----------

  ghost function OneDocument<E>(engine: Engine<E>, fields: seq<Field>): Collection<()> {
    Collection(map["A1" := IndexPlan.Stored(fields, (), 0, 0)], ["A1"], KeysOf(engine.host, Leaves(fields, None), "A1"))
  }

  lemma ScalarsLookedUp<E(!new)>(engine: Engine<E>, fields: seq<Field>)
    requires PlainLookups(engine, []) && ScalarFields(fields)
    ensures AllLookedUp(engine.host, Leaves(fields, None))
  {
    forall leaf | leaf in Leaves(fields, None)
      ensures LookedUp(engine.host, leaf)
    {
      ScalarLeaves(fields, leaf);
      var text := IndexKeys.Stored(engine.host, leaf.value);
      assert engine.host.lookup(leaf.path, text) == Ok(IndexLookup(text, false));
    }
  }

  lemma OneDocumentIsIndexed<E(!new)>(engine: Engine<E>, fields: seq<Field>)
    requires PlainLookups(engine, []) && ScalarFields(fields) && DistinctNames(fields)
    ensures Indexed(engine, OneDocument(engine, fields))
  {
    hide PlainLookups, LookedUp, AllLookedUp, KeysOf, Leaves;
    var c := OneDocument(engine, fields);
    ScalarsLookedUp(engine, fields);
    assert Uri.IdentifierText("A1");
    assert ValidFields(fields);
    forall id | id in c.documents
      ensures id != "" && Uri.IdentifierText(id) && DocumentIndexed(engine, c.documents[id])
    {
      assert id == "A1";
      assert c.documents[id].fields == fields;
    }
    forall key
      ensures key in c.keys <==>
        exists id :: id in c.documents && key in KeysOf(engine.host, Leaves(c.documents[id].fields, None), id)
    {
      assert "A1" in c.documents;
    }
  }

  lemma OneDocumentResults<E>(engine: Engine<E>, fields: seq<Field>, query: Query)
    ensures
      var c := OneDocument(engine, fields);
      var returned := Returned(engine, c, query, access => true, "A1");
      && ScanResult(engine, c, query, access => true) == (if returned then ["A1"] else [])
      && PlannedResult(engine, [], c, query, access => true)
         == if returned && Candidate(engine, [], c.keys, query, "A1") then ["A1"] else []
  {
    hide Candidate, Returned;
    var c := OneDocument(engine, fields);
    KeepOne("A1", id => Returned(engine, c, query, access => true, id));
    KeepOne("A1", id => Candidate(engine, [], c.keys, query, id) && Returned(engine, c, query, access => true, id));
  }

  lemma KeepOne(id: string, keep: string -> bool)
    ensures Keep([id], keep) == if keep(id) then [id] else []
  {
    assert [id][..0] == [];
  }

  // ---------- the chosen document is lost ----------

  lemma SafeNumberLaws<E>(engine: Engine<E>)
    requires NumberLaws(engine)
    ensures SafeDigests(engine)
  {
  }

  lemma ConfusedLeaf<E(!new)>(engine: Engine<E>, field: string, expected: Value)
    requires NumberLaws(engine) && PlainLookups(engine, []) && SimpleName(field)
    requires expected.Scalar() && !ExactOperand(engine, expected) && Confused(engine, expected).Present?
    ensures Confused(engine, expected).value.Scalar()
    ensures
      var leaf := Leaf(field, Confused(engine, expected).value);
      LookedUp(engine.host, leaf)
      && !LeafReaches(engine.host, field, Token(engine, expected), leaf, Found(engine.host, leaf))
  {
    ConfusedText(engine, expected);
    var leaf := Leaf(field, Confused(engine, expected).value);
    var stored := IndexKeys.Stored(engine.host, leaf.value);
    assert engine.host.lookup(field, stored) == Ok(IndexLookup(stored, false));
    EscapeKeeps(ScalarText(engine.host, leaf.value));
    EscapeDiffers(stored, ScalarText(engine.host, expected));
    TokensDiffer(engine.host, stored, IndexKeys.Stored(engine.host, expected));
    SimpleSegments(field);
  }

  lemma OtherFieldNotReached<E>(engine: Engine<E>, field: string, token: string, leaf: Leaf)
    requires SimpleName(field) && SimpleName(leaf.path) && leaf.path != field && LookedUp(engine.host, leaf)
    ensures !LeafReaches(engine.host, field, token, leaf, Found(engine.host, leaf))
  {
    SimpleSegments(field);
    SimpleSegments(leaf.path);
  }

  lemma ChosenIsNotReached<E(!new)>(engine: Engine<E>, equalities: seq<Equality>, k: nat)
    requires NumberLaws(engine) && PlainLookups(engine, []) && SimpleEqualities(equalities)
    requires k < |equalities| && !ExactOperand(engine, equalities[k].expected)
    ensures !DocumentReaches(engine, ChosenFields(engine, equalities), equalities[k].field,
                             Token(engine, equalities[k].expected))
  {
    hide NumberLaws, PlainLookups, ExactOperand, LeafReaches, LookedUp, LookupToken, Confused;
    var fields, e := ChosenFields(engine, equalities), equalities[k];
    ChosenScalar(engine, equalities);
    forall leaf | leaf in Leaves(fields, None) && LookedUp(engine.host, leaf)
      ensures !LeafReaches(engine.host, e.field, Token(engine, e.expected), leaf, Found(engine.host, leaf))
    {
      ScalarLeaves(fields, leaf);
      var n :| 0 <= n < |fields| && leaf == Leaf(fields[n].name, fields[n].value);
      ChosenFieldsAre(engine, equalities, n);
      var m :| 0 <= m < |equalities| && fields[n].name == equalities[m].field
        && Chosen(engine, equalities[m].expected) == Present(fields[n].value);
      if m == k {
        ConfusedLeaf(engine, e.field, e.expected);
      } else {
        OtherFieldNotReached(engine, e.field, Token(engine, e.expected), leaf);
      }
    }
  }

  lemma ChosenIsReturned<E(!new)>(engine: Engine<E>, equalities: seq<Equality>, limit: Option<nat>)
    requires NumberLaws(engine) && SimpleEqualities(equalities)
    ensures Returned(engine, OneDocument(engine, ChosenFields(engine, equalities)),
                     EqualityQuery(equalities, limit), access => true, "A1")
  {
    hide NumberLaws, Chosen, LooseEqual;
    var fields, operation := ChosenFields(engine, equalities), OperationOf(equalities);
    forall k | 0 <= k < |operation|
      ensures Holds(engine, operation[k], fields)
    {
      var e := equalities[k];
      SimpleSegments(e.field);
      NonEmptyKeepsAll([e.field]);
      ChosenFieldNamed(engine, equalities, k);
      ChosenIsAccepted(engine, e.expected);
      assert ValueAt(fields, [e.field]) == Chosen(engine, e.expected);
    }
    assert EqualityQuery(equalities, limit).operations[0] == operation;
  }

  lemma ChosenIsNoCandidate<E(!new)>(engine: Engine<E>, equalities: seq<Equality>, limit: Option<nat>, k: nat)
    requires NumberLaws(engine) && PlainLookups(engine, []) && SimpleEqualities(equalities)
    requires k < |equalities| && !ExactOperand(engine, equalities[k].expected)
    ensures !Candidate(engine, [], OneDocument(engine, ChosenFields(engine, equalities)).keys,
                       EqualityQuery(equalities, limit), "A1")
  {
    hide Indexed, Scan, EqualityPrefix, DocumentReaches, NumberLaws, PlainLookups, ExactOperand, PlanCondition, ChosenFields;
    var fields, e := ChosenFields(engine, equalities), equalities[k];
    ChosenScalar(engine, equalities);
    ChosenNamesDistinct(engine, equalities);
    OneDocumentIsIndexed(engine, fields);
    SafeNumberLaws(engine);
    OperationPlanned(engine, equalities, k);
    ScannedExactly(engine, OneDocument(engine, fields), e.field, e.expected, "A1");
    ChosenIsNotReached(engine, equalities, k);
  }

  /** An inexact operand anywhere in an operation loses a document, whatever the limit: the
      scan returns it, the planned query does not. */
  lemma InexactOperandLoses<E(!new)>(engine: Engine<E>, equalities: seq<Equality>, limit: Option<nat>, k: nat)
    requires NumberLaws(engine) && PlainLookups(engine, []) && SimpleEqualities(equalities)
    requires k < |equalities| && !ExactOperand(engine, equalities[k].expected)
    ensures
      var c, query := OneDocument(engine, ChosenFields(engine, equalities)), EqualityQuery(equalities, limit);
      && Indexed(engine, c)
      && ScanResult(engine, c, query, access => true) == ["A1"]
      && PlannedResult(engine, [], c, query, access => true) == []
  {
    hide NumberLaws, PlainLookups, ChosenFields, ExactOperand, Candidate, Returned, Indexed, PlannedResult, ScanResult;
    var fields := ChosenFields(engine, equalities);
    ChosenScalar(engine, equalities);
    ChosenNamesDistinct(engine, equalities);
    OneDocumentIsIndexed(engine, fields);
    ChosenIsReturned(engine, equalities, limit);
    ChosenIsNoCandidate(engine, equalities, limit, k);
    OneDocumentResults(engine, fields, EqualityQuery(equalities, limit));
  }

  /** The planner answers an operation of equalities as the scan does, on every collection,
      exactly when all its operands are exact; for every limit. */
  lemma PlannedEqualityExactly<E(!new)>(engine: Engine<E>, equalities: seq<Equality>, limit: Option<nat>)
    requires NumberLaws(engine) && PlainLookups(engine, []) && SimpleEqualities(equalities) && equalities != []
    ensures
      (forall c: Collection<()> :: Indexed(engine, c) ==>
         PlannedResult(engine, [], c, EqualityQuery(equalities, limit), access => true)
         == ScanResult(engine, c, EqualityQuery(equalities, limit), access => true))
      <==> forall k :: 0 <= k < |equalities| ==> ExactOperand(engine, equalities[k].expected)
  {
    hide NumberLaws, PlainLookups, Indexed, PlannedResult, ScanResult, ExactOperand, Plannable;
    var query := EqualityQuery(equalities, limit);
    if forall k :: 0 <= k < |equalities| ==> ExactOperand(engine, equalities[k].expected) {
      EqualityQueryIsPlanned(engine, equalities, limit);
      ExactEqualities(engine, equalities, limit);
      forall c: Collection<()> | Indexed(engine, c)
        ensures PlannedResult(engine, [], c, query, access => true) == ScanResult(engine, c, query, access => true)
      {
        ExactQueriesLoseNothing(engine, [], c, query, access => true);
      }
    } else {
      var k :| 0 <= k < |equalities| && !ExactOperand(engine, equalities[k].expected);
      InexactOperandLoses(engine, equalities, limit, k);
    }
  }

  lemma ExactEqualities<E>(engine: Engine<E>, equalities: seq<Equality>, limit: Option<nat>)
    requires SimpleEqualities(equalities)
    requires forall k :: 0 <= k < |equalities| ==> ExactOperand(engine, equalities[k].expected)
    ensures ExactQuery(engine, EqualityQuery(equalities, limit))
  {
    hide ExactOperand;
    forall j | 0 <= j < |equalities|
      ensures ExactCondition(engine, OperationOf(equalities)[j])
    {
      SimpleSegments(equalities[j].field);
    }
  }

  // ---------- an engine as assumed ----------

  /** A number written as the decimal text of its name. */
  function NameText(n: Number): string {
    Decimal.SignedText(n)
  }

  /** Reads what `NameText` writes, after trimming blanks in front. */
  function NameValue(text: string): Numeral {
    if text != "" && text[0] == ' ' then NameValue(text[1..])
    else
      var n := Decimal.SignedValue(text);
      if n.Some? && -MAX_MAGNITUDE <= n.value <= MAX_MAGNITUDE then Finite(n.value) else NotANumber
  }

  function PlainEngine(): Engine<()> {
    Engine(Host(NameText, text => None, text => "0", (path, text) => Ok(IndexLookup(text, false))), NameValue)
  }

  lemma NameLaws(n: Number)
    ensures NumeralText(NameText(n))
    ensures NameValue(NameText(n)) == Finite(n) && NameValue(" " + NameText(n)) == Finite(n)
  {
    var text := NameText(n);
    Decimal.SignedRoundTrip(n);
    var m: nat := if n < 0 then -n else n;
    assert Decimal.Ten(5) == 100_000;
    assert Decimal.Ten(10) == 10_000_000_000;
    assert Decimal.Ten(15) == 1_000_000_000_000_000;
    assert Decimal.Ten(19) == 10_000_000_000_000_000_000;
    Decimal.LengthAtMost(m, 19);
    assert text[0] in text;
    assert (" " + text)[1..] == text;
  }

  /** The assumptions of this module can be met together: by an engine, and by a collection
      of one document with any scalar in any field. */
  lemma AssumptionsCanBeMet(field: string, value: Value)
    requires value.Scalar()
    ensures NumberLaws(PlainEngine()) && PlainLookups(PlainEngine(), [])
    ensures Indexed(PlainEngine(), OneDocument(PlainEngine(), [Field(field, value)]))
  {
    forall n: Number
      ensures NumeralText(NameText(n))
      ensures NameValue(NameText(n)) == Finite(n) && NameValue(" " + NameText(n)) == Finite(n)
    {
      NameLaws(n);
    }
    assert "true"[0] == 't' && "false"[0] == 'f';
    OneDocumentIsIndexed(PlainEngine(), [Field(field, value)]);
  }
}
