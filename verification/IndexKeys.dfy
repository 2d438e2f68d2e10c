/** Derivation of every prefix-index key of one document. */
module IndexKeys {
  import opened Common
  import opened Documents
  import SortKeys
  import Uri

  const MAX_STRING_PREFIX_BYTES := 180
  const MAX_NGRAM_SOURCE_CHARS := 512
  const NGRAM_SIZE := 3

  /** The value a field is indexed under, or a keyed token when it is encrypted. */
  datatype IndexLookup = IndexLookup(value: string, encrypted: bool)

  /** The parts of the host the indexer relies on: number text, number coercion, SHA-256
      and the lookup of encrypted fields. */
  datatype Host<!E> = Host(
    format: Number -> string,
    coerce: string -> Option<SortKeys.U64>,
    sha256Hex: string -> string,
    lookup: (string, string) -> Result<IndexLookup, E>)

  /** One indexed scalar and the path it is indexed under. */
  datatype Leaf = Leaf(path: string, value: Value)

  function ChildPath(parent: Option<string>, name: string): string {
    if parent.Some? then parent.value + "/" + name else name
  }

  function FieldLeaves(field: Field, parent: Option<string>): seq<Leaf>
    decreases field
  {
    var path := ChildPath(parent, field.name);
    match field.value
    case Obj(children) => Leaves(children, Some(path))
    case Arr(items) => ItemLeaves(path, items)
    case _ => [Leaf(path, field.value)]
  }

  function Leaves(fields: seq<Field>, parent: Option<string>): seq<Leaf>
    decreases fields
  {
    if fields == [] then [] else FieldLeaves(fields[0], parent) + Leaves(fields[1..], parent)
  }

  function ScalarText<E>(host: Host<E>, value: Value): string
    requires value.Scalar()
  {
    match value
    case Null => "null"
    case Bool(b) => if b then "true" else "false"
    case Num(n) => host.format(n)
    case Str(s) => s
  }

  function Stored<E>(host: Host<E>, value: Value): string
    requires value.Scalar()
  {
    Escape(ScalarText(host, value))
  }

  function EncodeFieldPath(path: string): string {
    JoinEncoded(Segments(path))
  }

  /** `split('/')`. */
  function Segments(path: string): (segments: seq<string>)
    ensures segments != []
  {
    if path == "" then [""]
    else
      var rest := Segments(path[1..]);
      if path[0] == '/' then [""] + rest else [[path[0]] + rest[0]] + rest[1..]
  }

  function JoinEncoded(segments: seq<string>): string
    requires segments != []
  {
    if |segments| == 1 then Uri.Encode(segments[0])
    else Uri.Encode(segments[0]) + "/" + JoinEncoded(segments[1..])
  }

  function IndexKey(path: string, kind: string, value: string, documentId: string): string {
    EncodeFieldPath(path) + "/" + kind + "/" + value + "/" + Uri.Encode(documentId)
  }

  function LookupToken<E>(host: Host<E>, value: string): string {
    var encoded := Uri.Encode(value);
    if |encoded| <= MAX_STRING_PREFIX_BYTES then encoded else "h_" + host.sha256Hex(value)
  }

  /** The bits of a finite double. */
  function BitsOf(n: Number): SortKeys.U64 {
    if n >= 0 then n else SortKeys.SIGN_MASK - n
  }

  function NumericBits<E>(host: Host<E>, value: Value): Option<SortKeys.U64> {
    var bits :=
      match value
      case Null => Some(0)
      case Bool(b) => Some(BitsOf(if b then ONE else 0))
      case Num(n) => Some(BitsOf(n))
      case Str(s) => host.coerce(s)
      case _ => None;
    if bits.Some? && SortKeys.Finite(bits.value) then bits else None
  }

  function Reverse(text: string): string {
    if text == "" then "" else Reverse(text[1..]) + [text[0]]
  }

  function Gram(text: string, i: nat): string
    requires i + NGRAM_SIZE <= |text|
  {
    text[i..i + NGRAM_SIZE]
  }

  function Grams(text: string): set<string> {
    set i: nat | i <= |text| - NGRAM_SIZE :: Gram(text, i)
  }

  function Capped(text: string): string {
    if |text| <= MAX_NGRAM_SOURCE_CHARS then text else text[..MAX_NGRAM_SOURCE_CHARS]
  }

  function NumberKeys<E>(host: Host<E>, leaf: Leaf, documentId: string): set<string> {
    var bits := NumericBits(host, leaf.value);
    if bits.None? then {}
    else
      var sortable := SortKeys.SortableFloat64(bits.value);
      {IndexKey(leaf.path, "n", sortable, documentId),
       IndexKey(leaf.path, "nr", SortKeys.ReverseSortable(sortable), documentId)}
  }

  function TextKeys(leaf: Leaf, value: string, documentId: string): set<string> {
    if |Uri.Encode(value)| > MAX_STRING_PREFIX_BYTES then {}
    else
      {IndexKey(leaf.path, "f", Uri.Encode(value), documentId),
       IndexKey(leaf.path, "r", Uri.Encode(Reverse(value)), documentId)}
      + GramKeys(leaf.path, Grams(Capped(value)), documentId)
  }

  function GramKeys(path: string, grams: set<string>, documentId: string): set<string> {
    set gram | gram in grams :: IndexKey(path, "g3", Uri.Encode(gram), documentId)
  }

  /** Every key of one scalar, once its lookup value is known. */
  function LeafKeys<E>(host: Host<E>, leaf: Leaf, found: IndexLookup, documentId: string): set<string> {
    {IndexKey(leaf.path, "eq", LookupToken(host, found.value), documentId)}
    + NumberKeys(host, leaf, documentId)
    + (if leaf.value.Str? && !found.encrypted then TextKeys(leaf, found.value, documentId) else {})
  }

  predicate LookedUp<E>(host: Host<E>, leaf: Leaf) {
    leaf.value.Scalar() && host.lookup(leaf.path, Stored(host, leaf.value)).Ok?
  }

  predicate AllLookedUp<E>(host: Host<E>, leaves: seq<Leaf>) {
    forall leaf :: leaf in leaves ==> LookedUp(host, leaf)
  }

  function FoundKeys<E>(host: Host<E>, leaf: Leaf, documentId: string): set<string> {
    if LookedUp(host, leaf) then
      LeafKeys(host, leaf, host.lookup(leaf.path, Stored(host, leaf.value)).value, documentId)
    else {}
  }

  /** Every key of a document. */
  function KeysOf<E>(host: Host<E>, leaves: seq<Leaf>, documentId: string): set<string> {
    if leaves == [] then {}
    else FoundKeys(host, leaves[0], documentId) + KeysOf(host, leaves[1..], documentId)
  }

  function ItemLeaves(path: string, items: seq<Value>): seq<Leaf> {
    seq(|items|, i requires 0 <= i < |items| => Leaf(path, items[i]))
  }

  /** The traversal, inserting into one shared set. */
  class Indexer<!E> {
    const host: Host<E>
    const documentId: string
    var entries: set<string>

    constructor (host: Host<E>, documentId: string)
      ensures this.host == host && this.documentId == documentId && entries == {}
    {
      this.host := host;
      this.documentId := documentId;
      entries := {};
    }

    method WalkFields(fields: seq<Field>, parent: Option<string>) returns (outcome: Result<(), E>)
      requires ValidFields(fields)
      modifies this`entries
      ensures outcome.Ok? <==> AllLookedUp(host, Leaves(fields, parent))
      ensures outcome.Ok? ==> entries == old(entries) + KeysOf(host, Leaves(fields, parent), documentId)
      decreases fields, 0
    {
      for i := 0 to |fields|
        invariant AllLookedUp(host, Leaves(fields[..i], parent))
        invariant entries == old(entries) + KeysOf(host, Leaves(fields[..i], parent), documentId)
      {
        LeavesStep(host, fields, parent, i, documentId);
        var walked := WalkField(fields[i], parent);
        if walked.Err? {
          if AllLookedUp(host, Leaves(fields, parent)) {
            LeavesPrefix(host, fields, parent, i + 1);
          }
          return walked;
        }
      }
      assert fields[..|fields|] == fields;
      return Ok(());
    }

    method WalkField(field: Field, parent: Option<string>) returns (outcome: Result<(), E>)
      requires ValidValue(field.value)
      modifies this`entries
      ensures outcome.Ok? <==> AllLookedUp(host, FieldLeaves(field, parent))
      ensures outcome.Ok? ==> entries == old(entries) + KeysOf(host, FieldLeaves(field, parent), documentId)
      decreases field, 1
    {
      var path := ChildPath(parent, field.name);
      match field.value {
        case Obj(children) => outcome := WalkFields(children, Some(path));
        case Arr(items) => outcome := AddItems(path, items);
        case _ =>
          outcome := AddValue(path, field.value);
          KeysOfOne(host, Leaf(path, field.value), documentId);
      }
    }

    method AddItems(path: string, items: seq<Value>) returns (outcome: Result<(), E>)
      requires forall item :: item in items ==> item.Scalar()
      modifies this`entries
      ensures outcome.Ok? <==> AllLookedUp(host, ItemLeaves(path, items))
      ensures outcome.Ok? ==> entries == old(entries) + KeysOf(host, ItemLeaves(path, items), documentId)
    {
      hide FoundKeys, LookedUp;
      ghost var leaves := ItemLeaves(path, items);
      for i := 0 to |items|
        invariant AllLookedUp(host, leaves[..i])
        invariant entries == old(entries) + KeysOf(host, leaves[..i], documentId)
      {
        outcome := AddValue(path, items[i]);
        if outcome.Err? {
          assert leaves[i] == Leaf(path, items[i]) && leaves[i] in leaves;
          return;
        }
        KeysOfOne(host, leaves[i], documentId);
        KeysOfAppend(host, leaves[..i], [leaves[i]], documentId);
        assert leaves[..i + 1] == leaves[..i] + [leaves[i]];
      }
      assert leaves[..|items|] == leaves;
      return Ok(());
    }

    method AddValue(path: string, raw: Value) returns (outcome: Result<(), E>)
      requires raw.Scalar()
      modifies this`entries
      ensures outcome.Ok? <==> LookedUp(host, Leaf(path, raw))
      ensures outcome.Ok? ==> entries == old(entries) + FoundKeys(host, Leaf(path, raw), documentId)
    {
      var stored := Stored(host, raw);
      var looked := host.lookup(path, stored);
      if looked.Err? {
        return Err(looked.error);
      }
      var found := looked.value;
      entries := entries + {IndexKey(path, "eq", LookupToken(host, found.value), documentId)};
      AddNumber(path, raw);
      if raw.Str? && !found.encrypted {
        AddText(path, raw, found.value);
      }
      return Ok(());
    }

    method AddNumber(path: string, raw: Value)
      modifies this`entries
      ensures entries == old(entries) + NumberKeys(host, Leaf(path, raw), documentId)
    {
      var numeric := NumericBits(host, raw);
      if numeric.Some? {
        var sortable := SortKeys.SortableFloat64(numeric.value);
        entries := entries + {IndexKey(path, "n", sortable, documentId)};
        entries := entries + {IndexKey(path, "nr", SortKeys.ReverseSortable(sortable), documentId)};
      }
    }

    method AddText(path: string, raw: Value, value: string)
      modifies this`entries
      ensures entries == old(entries) + TextKeys(Leaf(path, raw), value, documentId)
    {
      var encoded := Uri.EncodeUriComponent(value);
      if |encoded| > MAX_STRING_PREFIX_BYTES {
        return;
      }
      entries := entries + {IndexKey(path, "f", encoded, documentId)};
      var reversed := Uri.EncodeUriComponent(Reverse(value));
      entries := entries + {IndexKey(path, "r", reversed, documentId)};
      var grams := Trigrams(value);
      entries := entries + GramKeys(path, grams, documentId);
    }
  }

  method Trigrams(value: string) returns (grams: set<string>)
    ensures grams == Grams(Capped(value))
  {
    var characters := Capped(value);
    grams := {};
    if |characters| < NGRAM_SIZE {
      return;
    }
    for i := 0 to |characters| - NGRAM_SIZE + 1
      invariant grams == set j: nat | j < i :: Gram(characters, j)
    {
      grams := grams + {Gram(characters, i)};
    }
  }

  lemma KeysOfOne<E>(host: Host<E>, leaf: Leaf, documentId: string)
    ensures KeysOf(host, [leaf], documentId) == FoundKeys(host, leaf, documentId)
    ensures AllLookedUp(host, [leaf]) <==> LookedUp(host, leaf)
  {
    assert [leaf][1..] == [];
    assert leaf in [leaf];
  }

  lemma {:induction false} KeysOfAppend<E>(host: Host<E>, a: seq<Leaf>, b: seq<Leaf>, documentId: string)
    ensures KeysOf(host, a + b, documentId) == KeysOf(host, a, documentId) + KeysOf(host, b, documentId)
  {
    if a == [] {
      assert a + b == b;
    } else {
      assert (a + b)[1..] == a[1..] + b;
      KeysOfAppend(host, a[1..], b, documentId);
    }
  }

  lemma {:induction false} LeavesAppend(a: seq<Field>, b: seq<Field>, parent: Option<string>)
    ensures Leaves(a + b, parent) == Leaves(a, parent) + Leaves(b, parent)
  {
    if a == [] {
      assert a + b == b;
    } else {
      assert (a + b)[1..] == a[1..] + b;
      LeavesAppend(a[1..], b, parent);
    }
  }

  lemma LeavesOne(field: Field, parent: Option<string>)
    ensures Leaves([field], parent) == FieldLeaves(field, parent)
  {
    assert [field][1..] == [];
    assert FieldLeaves(field, parent) + [] == FieldLeaves(field, parent);
  }

  lemma LeavesStep<E>(host: Host<E>, fields: seq<Field>, parent: Option<string>, i: nat, documentId: string)
    requires i < |fields|
    ensures
      var before, here, after :=
        Leaves(fields[..i], parent), FieldLeaves(fields[i], parent), Leaves(fields[..i + 1], parent);
      && after == before + here
      && KeysOf(host, after, documentId) == KeysOf(host, before, documentId) + KeysOf(host, here, documentId)
  {
    LeavesAppend(fields[..i], [fields[i]], parent);
    assert fields[..i + 1] == fields[..i] + [fields[i]];
    LeavesOne(fields[i], parent);
    KeysOfAppend(host, Leaves(fields[..i], parent), FieldLeaves(fields[i], parent), documentId);
  }

  lemma LeavesPrefix<E>(host: Host<E>, fields: seq<Field>, parent: Option<string>, i: nat)
    requires i <= |fields| && AllLookedUp(host, Leaves(fields, parent))
    ensures AllLookedUp(host, Leaves(fields[..i], parent))
  {
    LeavesAppend(fields[..i], fields[i..], parent);
    assert fields == fields[..i] + fields[i..];
  }
}
