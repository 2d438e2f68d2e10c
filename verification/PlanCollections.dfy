/** When a planned query and the scan agree on one collection, whatever its values and
    operands are: exactly when each record the scan returns is indexed where the plan looks. */
module PlanCollections {
  import opened Common
  import opened Documents
  import opened Ordering
  import opened IndexKeys
  import opened IndexPlan
  import SortKeys
  import Uri

  /** Digests hold no separator. */
  ghost predicate SafeDigests<E>(engine: Engine<E>) {
    forall text :: '/' !in engine.host.sha256Hex(text)
  }

  lemma TokenPlain<E>(engine: Engine<E>, text: string)
    requires SafeDigests(engine)
    ensures '/' !in LookupToken(engine.host, text)
  {
    Uri.EncodeAlphabet(text);
  }

  // ---------- paths and leaves ----------

  function JoinPath(segments: seq<string>): string
    requires segments != []
  {
    if |segments| == 1 then segments[0] else segments[0] + "/" + JoinPath(segments[1..])
  }

  lemma {:induction false} SegmentsJoin(path: string)
    ensures JoinPath(Segments(path)) == path
  {
    if path != "" {
      SegmentsJoin(path[1..]);
      var rest := Segments(path[1..]);
      if path[0] == '/' {
        assert ([""] + rest)[1..] == rest;
        assert path == "" + "/" + path[1..];
      } else {
        JoinLonger(path[0], rest);
        assert path == [path[0]] + path[1..];
      }
    }
  }

  lemma JoinLonger(c: char, segments: seq<string>)
    requires segments != []
    ensures JoinPath([[c] + segments[0]] + segments[1..]) == [c] + JoinPath(segments)
  {
    var longer := [[c] + segments[0]] + segments[1..];
    assert longer[1..] == segments[1..];
    if |segments| > 1 {
      assert [c] + (segments[0] + "/" + JoinPath(segments[1..])) == [c] + segments[0] + "/" + JoinPath(segments[1..]);
    }
  }

  lemma {:induction false} NonEmptyKeepsAll(segments: seq<string>)
    requires forall segment :: segment in segments ==> segment != ""
    ensures NonEmpty(segments) == segments
  {
    if segments != [] {
      assert segments[0] in segments;
      assert forall segment :: segment in segments[1..] ==> segment in segments;
      NonEmptyKeepsAll(segments[1..]);
    }
  }

  lemma {:induction false} NamedFieldIsLeaf(fields: seq<Field>, name: string, parent: Option<string>, leaf: Leaf)
    requires FieldNamed(fields, name).Present?
    requires leaf in FieldLeaves(Field(name, FieldNamed(fields, name).value), parent)
    ensures leaf in Leaves(fields, parent)
  {
    if fields[0].name != name {
      NamedFieldIsLeaf(fields[1..], name, parent, leaf);
    } else {
      assert fields[0] == Field(name, fields[0].value);
    }
  }

  /** The walk indexes the value a path selects under that very path. */
  lemma {:induction false} ValueAtIsLeaf(fields: seq<Field>, segments: seq<string>, parent: Option<string>)
    requires segments != [] && ValueAt(fields, segments).Present? && ValueAt(fields, segments).value.Scalar()
    ensures Leaf(ChildPath(parent, JoinPath(segments)), ValueAt(fields, segments).value) in Leaves(fields, parent)
    decreases |segments|
  {
    var here := FieldNamed(fields, segments[0]);
    var leaf := Leaf(ChildPath(parent, JoinPath(segments)), ValueAt(fields, segments).value);
    var path := ChildPath(parent, segments[0]);
    if |segments| > 1 {
      ValueAtIsLeaf(here.value.fields, segments[1..], Some(path));
      assert ChildPath(parent, JoinPath(segments)) == path + "/" + JoinPath(segments[1..]);
    }
    NamedFieldIsLeaf(fields, segments[0], parent, leaf);
  }

  lemma {:induction false} LeafKeysAreKeys<E>(host: Host<E>, leaves: seq<Leaf>, leaf: Leaf, id: string)
    requires leaf in leaves
    ensures FoundKeys(host, leaf, id) <= KeysOf(host, leaves, id)
  {
    if leaf != leaves[0] {
      assert leaves == [leaves[0]] + leaves[1..];
      LeafKeysAreKeys(host, leaves[1..], leaf, id);
    }
  }

  lemma TermsAgree(a: string, x: string, b: string, y: string)
    requires '/' !in a && '/' !in b && a + ("/" + x) <= b + ("/" + y)
    ensures a == b && x <= y
  {
    var l, r := a + ("/" + x), b + ("/" + y);
    assert l[|a|] == '/' && r[|b|] == '/';
    assert l == r[..|l|];
    assert forall i :: 0 <= i < |a| ==> l[i] != '/' by {
      assert forall i :: 0 <= i < |a| ==> a[i] in a;
    }
    assert forall i :: 0 <= i < |b| ==> r[i] != '/' by {
      assert forall i :: 0 <= i < |b| ==> b[i] in b;
    }
    assert a == l[..|a|] && b == r[..|a|];
    assert x == l[|a| + 1..] && y == r[|a| + 1..];
  }

  lemma TextKeyParts(leaf: Leaf, text: string, id: string, key: string) returns (kind: string, value: string)
    requires key in TextKeys(leaf, text, id)
    ensures key == IndexKey(leaf.path, kind, value, id) && '/' !in kind && '/' !in value
    ensures |Uri.Encode(text)| <= MAX_STRING_PREFIX_BYTES
    ensures kind in ["f", "r"] || (kind == "g3" && |Capped(text)| >= NGRAM_SIZE)
  {
    if key == IndexKey(leaf.path, "f", Uri.Encode(text), id) {
      Uri.EncodeAlphabet(text);
      kind, value := "f", Uri.Encode(text);
    } else if key == IndexKey(leaf.path, "r", Uri.Encode(Reverse(text)), id) {
      Uri.EncodeAlphabet(Reverse(text));
      kind, value := "r", Uri.Encode(Reverse(text));
    } else {
      var gram :| gram in Grams(Capped(text)) && key == IndexKey(leaf.path, "g3", Uri.Encode(gram), id);
      Uri.EncodeAlphabet(gram);
      kind, value := "g3", Uri.Encode(gram);
    }
  }

  // ---------- keys as lists of terms ----------

  predicate Plain(terms: seq<string>) {
    forall i :: 0 <= i < |terms| ==> '/' !in terms[i]
  }

  /** Every term closed by a separator. */
  function Closed(terms: seq<string>): string {
    if terms == [] then "" else terms[0] + ("/" + Closed(terms[1..]))
  }

  lemma {:induction false} ClosedAppend(a: seq<string>, b: seq<string>)
    ensures Closed(a + b) == Closed(a) + Closed(b)
    decreases |a|
  {
    if a == [] {
      assert a + b == b;
    } else {
      assert (a + b)[1..] == a[1..] + b;
      ClosedAppend(a[1..], b);
      assert a[0] + ("/" + (Closed(a[1..]) + Closed(b))) == a[0] + ("/" + Closed(a[1..])) + Closed(b);
    }
  }

  /** Closed terms are a prefix of a key exactly when they are a prefix of its terms. */
  lemma {:induction false} ClosedPrefix(a: seq<string>, b: seq<string>, last: string)
    requires Plain(a) && Plain(b) && '/' !in last
    ensures Closed(a) <= Closed(b) + last <==> a <= b
    decreases |a|
  {
    if a == [] {
    } else if b == [] {
      assert Closed(b) + last == last;
      assert Closed(a)[|a[0]|] == '/';
      assert forall i :: 0 <= i < |last| ==> last[i] != '/' by {
        assert forall i :: 0 <= i < |last| ==> last[i] in last;
      }
    } else {
      var x, y := Closed(a[1..]), Closed(b[1..]) + last;
      assert Closed(b) + last == b[0] + ("/" + y);
      assert Plain(a[1..]) && Plain(b[1..]);
      ClosedPrefix(a[1..], b[1..], last);
      if a[0] + ("/" + x) <= b[0] + ("/" + y) {
        TermsAgree(a[0], x, b[0], y);
        assert a == [a[0]] + a[1..];
      }
      if a <= b {
        assert a[0] == b[0] && a[1..] <= b[1..];
        assert (b[0] + ("/" + y))[..|a[0] + ("/" + x)|] == a[0] + ("/" + x);
      }
    }
  }

  function EncodedAll(segments: seq<string>): seq<string> {
    seq(|segments|, i requires 0 <= i < |segments| => Uri.Encode(segments[i]))
  }

  lemma EncodedPlain(segments: seq<string>)
    ensures Plain(EncodedAll(segments))
  {
    forall i | 0 <= i < |segments|
      ensures '/' !in EncodedAll(segments)[i]
    {
      Uri.EncodeAlphabet(segments[i]);
    }
  }

  lemma {:induction false} PathTerms(segments: seq<string>)
    requires segments != []
    ensures JoinEncoded(segments) + "/" == Closed(EncodedAll(segments))
    decreases |segments|
  {
    var terms := EncodedAll(segments);
    if |segments| == 1 {
      assert terms[1..] == [];
    } else {
      PathTerms(segments[1..]);
      assert terms[1..] == EncodedAll(segments[1..]);
      assert Uri.Encode(segments[0]) + "/" + JoinEncoded(segments[1..]) + "/"
          == Uri.Encode(segments[0]) + ("/" + (JoinEncoded(segments[1..]) + "/"));
    }
  }

  function KeyTerms(path: string, kind: string, value: string): seq<string> {
    EncodedAll(Segments(path)) + [kind, value]
  }

  lemma ClosedTwo(a: string, b: string)
    ensures Closed([a, b]) == a + ("/" + (b + "/"))
  {
    assert [a, b][1..] == [b] && [b][1..] == [];
    assert Closed([b]) == b + ("/" + "");
  }

  lemma KeyIsClosed(path: string, kind: string, value: string, id: string)
    ensures IndexKey(path, kind, value, id) == Closed(KeyTerms(path, kind, value)) + Uri.Encode(id)
  {
    hide Segments, EncodedAll, Closed, EncodeFieldPath;
    TermsClosed(path, kind, value);
    Regroup(EncodeFieldPath(path), kind, value);
  }

  lemma PrefixIsClosed(path: string, token: string)
    ensures EncodeFieldPath(path) + "/eq/" + token + "/" == Closed(KeyTerms(path, "eq", token))
  {
    hide Segments, EncodedAll, Closed, EncodeFieldPath, JoinEncoded;
    TermsClosed(path, "eq", token);
    Regroup(EncodeFieldPath(path), "eq", token);
    assert "/" + "eq" + "/" == "/eq/";
  }

  lemma Regroup(head: string, kind: string, token: string)
    ensures head + "/" + (kind + ("/" + (token + "/"))) == head + "/" + kind + "/" + token + "/"
    ensures head + ("/" + kind + "/") + token + "/" == head + "/" + kind + "/" + token + "/"
  {
  }

  lemma TermsClosed(path: string, kind: string, value: string)
    ensures Closed(KeyTerms(path, kind, value)) == EncodeFieldPath(path) + "/" + (kind + ("/" + (value + "/")))
  {
    hide Segments, EncodedAll, Closed;
    PathTerms(Segments(path));
    ClosedAppend(EncodedAll(Segments(path)), [kind, value]);
    ClosedTwo(kind, value);
  }

  /** When an equality prefix starts a key: term by term. */
  lemma PrefixSelects(path: string, token: string, other: string, kind: string, value: string, id: string)
    requires '/' !in token && '/' !in kind && '/' !in value
    ensures EncodeFieldPath(path) + "/eq/" + token + "/" <= IndexKey(other, kind, value, id)
       <==> KeyTerms(path, "eq", token) <= KeyTerms(other, kind, value)
  {
    PrefixIsClosed(path, token);
    KeyIsClosed(other, kind, value, id);
    EncodedPlain(Segments(path));
    EncodedPlain(Segments(other));
    Uri.EncodeAlphabet(id);
    ClosedPrefix(KeyTerms(path, "eq", token), KeyTerms(other, kind, value), Uri.Encode(id));
  }

  lemma EncodedEqual(a: seq<string>, b: seq<string>)
    requires EncodedAll(a) == EncodedAll(b)
    ensures a == b
  {
    assert |a| == |EncodedAll(a)| == |b|;
    forall i | 0 <= i < |a|
      ensures a[i] == b[i]
    {
      assert EncodedAll(a)[i] == EncodedAll(b)[i];
      Uri.EncodeInjective(a[i], b[i]);
    }
  }

  // ---------- what the scan for a condition selects ----------

  /** The segments of `other` continue those of `path` with `eq` and the looked-up token. */
  predicate Continues(path: seq<string>, token: string, other: seq<string>, kind: string) {
    && |path| < |other| && path <= other && other[|path|] == "eq"
    && (if |other| == |path| + 1 then kind == token else Uri.Encode(other[|path| + 1]) == token)
  }

  /** A leaf's key of some kind lies under the prefix: it is the equality key of a leaf at
      that very path with the same token, or the leaf lies below `path/eq/token`. */
  predicate Reaches(path: string, token: string, other: string, kind: string, value: string) {
    || (path == other && kind == "eq" && value == token)
    || Continues(Segments(path), token, Segments(other), kind)
  }

  lemma SegmentsEqual(a: string, b: string)
    requires Segments(a) == Segments(b)
    ensures a == b
  {
    SegmentsJoin(a);
    SegmentsJoin(b);
  }

  lemma EncodeEq()
    ensures Uri.Encode("eq") == "eq"
  {
    Uri.IdentifierEncodesToItself("eq");
  }

  lemma TermsReach(path: string, token: string, other: string, kind: string, value: string)
    ensures KeyTerms(path, "eq", token) <= KeyTerms(other, kind, value) <==> Reaches(path, token, other, kind, value)
  {
    hide Uri.Encode, Segments;
    var p, q := Segments(path), Segments(other);
    var a, b := KeyTerms(path, "eq", token), KeyTerms(other, kind, value);
    var n := |p|;
    EncodeEq();
    if a <= b {
      assert a[n] == "eq" && a[n + 1] == token && b[n] == "eq" && b[n + 1] == token;
      assert n <= |q|;
      assert EncodedAll(p) == EncodedAll(q[..n]) by {
        forall i | 0 <= i < n
          ensures EncodedAll(p)[i] == EncodedAll(q[..n])[i]
        {
          assert EncodedAll(p)[i] == a[i] == b[i] == EncodedAll(q)[i];
        }
      }
      EncodedEqual(p, q[..n]);
      if |q| == n {
        assert q[..n] == q;
        SegmentsEqual(path, other);
      } else {
        assert b[n] == Uri.Encode(q[n]);
        Uri.EncodeInjective(q[n], "eq");
      }
    }
    if Reaches(path, token, other, kind, value) {
      assert forall i :: 0 <= i < n ==> a[i] == b[i];
      assert a[n] == b[n] && a[n + 1] == b[n + 1];
    }
  }

  predicate Kinds<E>(host: Host<E>, leaf: Leaf, found: IndexLookup, kind: string) {
    || kind == "eq"
    || (kind in ["n", "nr"] && NumericBits(host, leaf.value).Some?)
    || (leaf.value.Str? && !found.encrypted && |Uri.Encode(found.value)| <= MAX_STRING_PREFIX_BYTES
        && (kind in ["f", "r"] || (kind == "g3" && |Capped(found.value)| >= NGRAM_SIZE)))
  }

  /** Some key of the leaf lies under the prefix. */
  predicate LeafReaches<E>(host: Host<E>, path: string, token: string, leaf: Leaf, found: IndexLookup) {
    || (leaf.path == path && LookupToken(host, found.value) == token)
    || Continues(Segments(path), token, Segments(leaf.path), "eq")
    || (|Segments(leaf.path)| == |Segments(path)| + 1
        && Continues(Segments(path), token, Segments(leaf.path), token) && Kinds(host, leaf, found, token))
  }

  /** The kind and the value of a key, and that the leaf has keys of that kind. */
  lemma KeyOfKind<E>(engine: Engine<E>, leaf: Leaf, found: IndexLookup, id: string, key: string)
    returns (kind: string, value: string)
    requires SafeDigests(engine) && key in LeafKeys(engine.host, leaf, found, id)
    ensures key == IndexKey(leaf.path, kind, value, id) && '/' !in kind && '/' !in value
    ensures kind == "eq" ==> value == LookupToken(engine.host, found.value)
    ensures Kinds(engine.host, leaf, found, kind)
  {
    if key == IndexKey(leaf.path, "eq", LookupToken(engine.host, found.value), id) {
      TokenPlain(engine, found.value);
      kind, value := "eq", LookupToken(engine.host, found.value);
    } else if key in NumberKeys(engine.host, leaf, id) {
      var sortable := SortKeys.SortableFloat64(NumericBits(engine.host, leaf.value).value);
      SortKeys.KeyAlphabet(sortable);
      if key == IndexKey(leaf.path, "n", sortable, id) {
        kind, value := "n", sortable;
      } else {
        kind, value := "nr", SortKeys.ReverseSortable(sortable);
      }
    } else {
      kind, value := TextKeyParts(leaf, found.value, id, key);
    }
  }

  lemma KindHasKey<E>(engine: Engine<E>, leaf: Leaf, found: IndexLookup, id: string, kind: string)
    returns (value: string)
    requires SafeDigests(engine) && Kinds(engine.host, leaf, found, kind)
    ensures IndexKey(leaf.path, kind, value, id) in LeafKeys(engine.host, leaf, found, id)
    ensures '/' !in kind && '/' !in value
    ensures kind == "eq" ==> value == LookupToken(engine.host, found.value)
  {
    if kind == "eq" {
      TokenPlain(engine, found.value);
      value := LookupToken(engine.host, found.value);
    } else if kind in ["n", "nr"] {
      var sortable := SortKeys.SortableFloat64(NumericBits(engine.host, leaf.value).value);
      SortKeys.KeyAlphabet(sortable);
      value := if kind == "n" then sortable else SortKeys.ReverseSortable(sortable);
    } else {
      value := TextKindHasKey(leaf, found.value, id, kind);
    }
  }

  lemma TextKindHasKey(leaf: Leaf, text: string, id: string, kind: string) returns (value: string)
    requires |Uri.Encode(text)| <= MAX_STRING_PREFIX_BYTES
    requires kind in ["f", "r"] || (kind == "g3" && |Capped(text)| >= NGRAM_SIZE)
    ensures IndexKey(leaf.path, kind, value, id) in TextKeys(leaf, text, id)
    ensures '/' !in kind && '/' !in value
  {
    if kind == "f" {
      Uri.EncodeAlphabet(text);
      value := Uri.Encode(text);
    } else if kind == "r" {
      Uri.EncodeAlphabet(Reverse(text));
      value := Uri.Encode(Reverse(text));
    } else {
      var gram := Gram(Capped(text), 0);
      assert gram in Grams(Capped(text));
      Uri.EncodeAlphabet(gram);
      value := Uri.Encode(gram);
    }
  }

  function KeyPrefix(path: string, token: string): string {
    EncodeFieldPath(path) + "/eq/" + token + "/"
  }

  lemma LeafScanned<E>(engine: Engine<E>, path: string, token: string, leaf: Leaf, found: IndexLookup, id: string)
    requires SafeDigests(engine) && '/' !in token
    ensures LeafReaches(engine.host, path, token, leaf, found)
       <==> exists key :: key in LeafKeys(engine.host, leaf, found, id) && KeyPrefix(path, token) <= key
  {
    hide IndexKey, Segments, EncodeFieldPath, LeafKeys, LookupToken;
    if key :| key in LeafKeys(engine.host, leaf, found, id) && KeyPrefix(path, token) <= key {
      var kind, value := KeyOfKind(engine, leaf, found, id, key);
      PrefixSelects(path, token, leaf.path, kind, value, id);
      TermsReach(path, token, leaf.path, kind, value);
    }
    if LeafReaches(engine.host, path, token, leaf, found) {
      var p, q := Segments(path), Segments(leaf.path);
      var kind := if Continues(p, token, q, token) && |q| == |p| + 1
                     && Kinds(engine.host, leaf, found, token) then token else "eq";
      var value := KindHasKey(engine, leaf, found, id, kind);
      PrefixSelects(path, token, leaf.path, kind, value, id);
      TermsReach(path, token, leaf.path, kind, value);
    }
  }

  /** What a leaf is indexed under. */
  function Found<E>(host: Host<E>, leaf: Leaf): IndexLookup
    requires LookedUp(host, leaf)
  {
    host.lookup(leaf.path, IndexKeys.Stored(host, leaf.value)).value
  }

  // ---------- documents ----------

  lemma {:induction false} KeysFromLeaf<E>(host: Host<E>, leaves: seq<Leaf>, id: string, key: string)
    ensures key in KeysOf(host, leaves, id) <==> exists leaf :: leaf in leaves && key in FoundKeys(host, leaf, id)
  {
    hide FoundKeys;
    if leaves != [] {
      KeysFromLeaf(host, leaves[1..], id, key);
      assert leaves == [leaves[0]] + leaves[1..];
    }
  }

  /** What an operand is looked up under. */
  function Token<E>(engine: Engine<E>, expected: Value): string
    requires expected.Scalar()
  {
    LookupToken(engine.host, IndexKeys.Stored(engine.host, expected))
  }

  predicate DocumentReaches<E>(engine: Engine<E>, fields: seq<Field>, path: string, token: string) {
    exists leaf :: leaf in Leaves(fields, None) && LookedUp(engine.host, leaf)
      && LeafReaches(engine.host, path, token, leaf, Found(engine.host, leaf))
  }

  predicate HasPrefixed(keys: set<string>, prefix: string) {
    exists key :: key in keys && prefix <= key
  }

  lemma KeysScanned<E>(engine: Engine<E>, path: string, token: string, fields: seq<Field>, id: string)
    requires SafeDigests(engine) && '/' !in token
    ensures DocumentReaches(engine, fields, path, token)
       <==> HasPrefixed(KeysOf(engine.host, Leaves(fields, None), id), KeyPrefix(path, token))
  {
    var leaves := Leaves(fields, None);
    if HasPrefixed(KeysOf(engine.host, leaves, id), KeyPrefix(path, token)) {
      PrefixedIsReached(engine, path, token, fields, id);
    }
    if DocumentReaches(engine, fields, path, token) {
      ReachedIsPrefixed(engine, path, token, fields, id);
    }
  }

  lemma PrefixedIsReached<E>(engine: Engine<E>, path: string, token: string, fields: seq<Field>, id: string)
    requires SafeDigests(engine) && '/' !in token
    requires HasPrefixed(KeysOf(engine.host, Leaves(fields, None), id), KeyPrefix(path, token))
    ensures DocumentReaches(engine, fields, path, token)
  {
    hide LeafReaches, LeafKeys, KeyPrefix, KeysOf, LookedUp;
    var leaves := Leaves(fields, None);
    var key :| key in KeysOf(engine.host, leaves, id) && KeyPrefix(path, token) <= key;
    KeysFromLeaf(engine.host, leaves, id, key);
    var leaf :| leaf in leaves && key in FoundKeys(engine.host, leaf, id);
    LeafScanned(engine, path, token, leaf, Found(engine.host, leaf), id);
  }

  lemma ReachedIsPrefixed<E>(engine: Engine<E>, path: string, token: string, fields: seq<Field>, id: string)
    requires SafeDigests(engine) && '/' !in token && DocumentReaches(engine, fields, path, token)
    ensures HasPrefixed(KeysOf(engine.host, Leaves(fields, None), id), KeyPrefix(path, token))
  {
    hide LeafReaches, LeafKeys, KeyPrefix, KeysOf, LookedUp;
    var leaves := Leaves(fields, None);
    var leaf :| leaf in leaves && LookedUp(engine.host, leaf)
                && LeafReaches(engine.host, path, token, leaf, Found(engine.host, leaf));
    LeafScanned(engine, path, token, leaf, Found(engine.host, leaf), id);
    var key :| key in LeafKeys(engine.host, leaf, Found(engine.host, leaf), id) && KeyPrefix(path, token) <= key;
    KeysFromLeaf(engine.host, leaves, id, key);
  }

  /** A live document is named by a scan through its own keys only. */
  lemma ScannedThroughOwnKeys<E, A>(engine: Engine<E>, c: Collection<A>, prefix: string, id: string)
    requires Indexed(engine, c) && id in c.documents
    ensures id in Scan(c.keys, prefix)
       <==> HasPrefixed(KeysOf(engine.host, Leaves(c.documents[id].fields, None), id), prefix)
  {
    hide KeysOf, DocumentIndexed, Ascending, KeyDocument, Uri.IdentifierText;
    var own := KeysOf(engine.host, Leaves(c.documents[id].fields, None), id);
    if id in Scan(c.keys, prefix) {
      var key :| key in c.keys && prefix <= key && KeyDocument(key) == id;
      var owner :| owner in c.documents && key in KeysOf(engine.host, Leaves(c.documents[owner].fields, None), owner);
      KeysDocument(engine.host, Leaves(c.documents[owner].fields, None), owner, key);
      assert key in own && prefix <= key;
    }
    if HasPrefixed(own, prefix) {
      var key :| key in own && prefix <= key;
      KeysDocument(engine.host, Leaves(c.documents[id].fields, None), id, key);
      assert key in c.keys;
    }
  }

  /** The scan for an equality names a live document exactly when a leaf of it is indexed
      under the operand's token at the path, or lies below what the prefix spells. */
  lemma ScannedExactly<E, A>(engine: Engine<E>, c: Collection<A>, path: string, expected: Value, id: string)
    requires SafeDigests(engine) && Indexed(engine, c) && expected.Scalar() && id in c.documents
    ensures id in Scan(c.keys, EqualityPrefix(engine.host, path, expected).value)
       <==> DocumentReaches(engine, c.documents[id].fields, path, Token(engine, expected))
  {
    hide DocumentReaches, KeysOf, Leaves, LookupToken, DocumentIndexed, EncodeFieldPath, Indexed, Scan;
    TokenPlain(engine, IndexKeys.Stored(engine.host, expected));
    KeysScanned(engine, path, Token(engine, expected), c.documents[id].fields, id);
    ScannedThroughOwnKeys(engine, c, KeyPrefix(path, Token(engine, expected)), id);
    assert EqualityPrefix(engine.host, path, expected).value == KeyPrefix(path, Token(engine, expected));
  }

  // ---------- results ----------

  lemma {:induction false} KeepAppend(a: seq<string>, b: seq<string>, keep: string -> bool)
    ensures Keep(a + b, keep) == Keep(a, keep) + Keep(b, keep)
    decreases |b|
  {
    if b == [] {
      assert a + b == a;
    } else {
      var front, last := b[..|b| - 1], b[|b| - 1];
      assert a + b == (a + front) + [last];
      assert (a + b)[..|a + b| - 1] == a + front;
      KeepAppend(a, front, keep);
    }
  }

  lemma {:induction false} KeepLength(ids: seq<string>, keep: string -> bool)
    ensures |Keep(ids, keep)| <= |ids|
    ensures Keep(ids, keep) == ids <==> forall id :: id in ids ==> keep(id)
    ensures |Keep(ids, keep)| == |ids| ==> Keep(ids, keep) == ids
    decreases |ids|
  {
    if ids != [] {
      var front, last := ids[..|ids| - 1], ids[|ids| - 1];
      KeepLength(front, keep);
      assert ids == front + [last];
    }
  }

  /** Filtering before the limit changes the limited list exactly when it drops one of its members. */
  lemma LimitedSame(limit: Option<nat>, ids: seq<string>, keep: string -> bool)
    ensures Limited(limit, Keep(ids, keep)) == Limited(limit, ids) <==> forall id :: id in Limited(limit, ids) ==> keep(id)
  {
    hide Keep;
    var head := Limited(limit, ids);
    var tail := ids[|head|..];
    assert ids == head + tail;
    KeepAppend(head, tail, keep);
    KeepLength(head, keep);
    KeepLength(tail, keep);
    if id :| id in head && !keep(id) {
      KeepMembers(ids, keep, id);
      LimitedMembers(limit, Keep(ids, keep), id);
    } else {
      LimitedHead(limit, head, tail, Keep(tail, keep));
    }
  }

  lemma LimitedMembers(limit: Option<nat>, ids: seq<string>, id: string)
    ensures id in Limited(limit, ids) ==> id in ids
  {
  }

  /** What follows a list the limit leaves whole does not matter as long as there is no more of it. */
  lemma LimitedHead(limit: Option<nat>, head: seq<string>, tail: seq<string>, less: seq<string>)
    requires head == Limited(limit, head + tail) && |less| <= |tail|
    ensures Limited(limit, head + less) == head
  {
    if tail == [] {
      assert head + less == head;
    } else {
      assert (head + less)[..|head|] == head;
    }
  }

  /** The document's leaves reach the prefix planned for the condition. */
  predicate Reached<E>(engine: Engine<E>, encrypted: seq<string>, condition: Condition, fields: seq<Field>) {
    PlanCondition(engine, encrypted, condition).Some?
    && DocumentReaches(engine, fields, Slashed(condition.field),
                       Token(engine, condition.operand.operators[0].expected))
  }

  predicate OperationReached<E>(engine: Engine<E>, encrypted: seq<string>, operation: Operation, fields: seq<Field>) {
    forall j :: 0 <= j < |operation| ==> Reached(engine, encrypted, operation[j], fields)
  }

  /** Some operation of the query has all its conditions reached. */
  predicate QueryReached<E>(engine: Engine<E>, encrypted: seq<string>, query: Query, fields: seq<Field>) {
    exists k :: 0 <= k < |query.operations| && OperationReached(engine, encrypted, query.operations[k], fields)
  }

  lemma ConditionScanned<E, A>(engine: Engine<E>, encrypted: seq<string>, c: Collection<A>, condition: Condition, id: string)
    requires SafeDigests(engine) && Indexed(engine, c) && id in c.documents
    requires PlanCondition(engine, encrypted, condition).Some?
    ensures id in Scan(c.keys, PlanCondition(engine, encrypted, condition).value)
       <==> Reached(engine, encrypted, condition, c.documents[id].fields)
  {
    hide DocumentReaches, Indexed, Scan, EqualityPrefix, EncryptedField;
    var expected := condition.operand.operators[0].expected;
    assert PlanCondition(engine, encrypted, condition)
        == EqualityPrefix(engine.host, Slashed(condition.field), expected);
    assert expected.Scalar() by { ScalarPlanned(engine.host, Slashed(condition.field), expected); }
    ScannedExactly(engine, c, Slashed(condition.field), expected, id);
  }

  lemma ScalarPlanned<E>(host: Host<E>, path: string, value: Value)
    ensures EqualityPrefix(host, path, value).Some? <==> value.Scalar()
  {
  }

  lemma CandidateExactly<E, A>(engine: Engine<E>, encrypted: seq<string>, c: Collection<A>, query: Query, id: string)
    requires SafeDigests(engine) && Indexed(engine, c) && id in c.documents && Plannable(engine, encrypted, query)
    ensures Candidate(engine, encrypted, c.keys, query, id)
       <==> QueryReached(engine, encrypted, query, c.documents[id].fields)
  {
    hide Reached, Indexed, Scan, PlanCondition;
    forall k | 0 <= k < |query.operations|
      ensures OperationSelects(engine, encrypted, c.keys, query.operations[k], id)
         <==> OperationReached(engine, encrypted, query.operations[k], c.documents[id].fields)
    {
      forall j | 0 <= j < |query.operations[k]|
        ensures id in Scan(c.keys, PlanCondition(engine, encrypted, query.operations[k][j]).value)
           <==> Reached(engine, encrypted, query.operations[k][j], c.documents[id].fields)
      {
        ConditionScanned(engine, encrypted, c, query.operations[k][j], id);
      }
    }
  }

  /** For one collection, query, limit and actor: answering from the planned candidates
      gives what reading every document gives exactly when each record the scan returns is
      reached by some operation of the query. */
  lemma PlannedEqualsScanExactly<E, A>(
    engine: Engine<E>, encrypted: seq<string>, c: Collection<A>, query: Query, allowed: A -> bool)
    requires SafeDigests(engine) && Indexed(engine, c) && Plannable(engine, encrypted, query)
    ensures PlannedResult(engine, encrypted, c, query, allowed) == ScanResult(engine, c, query, allowed)
       <==> forall id :: id in ScanResult(engine, c, query, allowed) ==>
              id in c.documents && QueryReached(engine, encrypted, query, c.documents[id].fields)
  {
    hide Indexed, Candidate, Returned, Plannable, QueryReached, SafeDigests;
    var returned := id => Returned(engine, c, query, allowed, id);
    var candidate := id => Candidate(engine, encrypted, c.keys, query, id);
    var both := id => Candidate(engine, encrypted, c.keys, query, id) && Returned(engine, c, query, allowed, id);
    KeepTwice(c.ids, returned, candidate, both);
    LimitedSame(query.limit, Keep(c.ids, returned), candidate);
    forall id | id in ScanResult(engine, c, query, allowed)
      ensures id in c.documents
      ensures candidate(id) <==> QueryReached(engine, encrypted, query, c.documents[id].fields)
    {
      KeepMembers(c.ids, returned, id);
      ReturnedIsLive(engine, c, query, allowed, id);
      CandidateExactly(engine, encrypted, c, query, id);
    }
  }

  lemma ReturnedIsLive<E, A>(engine: Engine<E>, c: Collection<A>, query: Query, allowed: A -> bool, id: string)
    requires Returned(engine, c, query, allowed, id)
    ensures id in c.documents
  {
  }

  // ---------- stored texts ----------

  /** The document holds, at the condition's path, a scalar of the operand's stored text. */
  predicate HoldsStored<E>(engine: Engine<E>, condition: Condition, fields: seq<Field>) {
    && condition.operand.Operators? && |condition.operand.operators| == 1 && condition.operand.operators[0].Eq?
    && condition.operand.operators[0].expected.Scalar()
    && exists leaf :: leaf in Leaves(fields, None) && leaf.path == Slashed(condition.field) && leaf.value.Scalar()
         && IndexKeys.Stored(engine.host, leaf.value)
            == IndexKeys.Stored(engine.host, condition.operand.operators[0].expected)
  }

  /** Every document of the collection that meets a condition of the query holds the
      operand's stored text at its path. */
  predicate StoredWhereHeld<E, A>(engine: Engine<E>, c: Collection<A>, query: Query) {
    forall id, i, j ::
      id in c.documents && 0 <= i < |query.operations| && 0 <= j < |query.operations[i]|
      && Holds(engine, query.operations[i][j], c.documents[id].fields)
      ==> HoldsStored(engine, query.operations[i][j], c.documents[id].fields)
  }

  lemma StoredIsReached<E(!new)>(engine: Engine<E>, encrypted: seq<string>, condition: Condition, fields: seq<Field>)
    requires PlainLookups(engine, encrypted) && PlanCondition(engine, encrypted, condition).Some?
    requires HoldsStored(engine, condition, fields)
    ensures Reached(engine, encrypted, condition, fields)
  {
    hide LookupToken, Leaves, Kinds, Continues;
    var expected := condition.operand.operators[0].expected;
    var path := Slashed(condition.field);
    var leaf :| leaf in Leaves(fields, None) && leaf.path == path && leaf.value.Scalar()
                && IndexKeys.Stored(engine.host, leaf.value) == IndexKeys.Stored(engine.host, expected);
    var stored := IndexKeys.Stored(engine.host, leaf.value);
    assert engine.host.lookup(path, stored) == Ok(IndexLookup(stored, false));
    assert LeafReaches(engine.host, path, Token(engine, expected), leaf, Found(engine.host, leaf));
  }

  /** Where every document that meets a condition holds the operand's stored text at its
      path, the planned answer is the scan's for every query, limit and actor, whatever
      the operands are. */
  lemma StoredTextSuffices<E(!new), A>(
    engine: Engine<E>, encrypted: seq<string>, c: Collection<A>, query: Query, allowed: A -> bool)
    requires SafeDigests(engine) && PlainLookups(engine, encrypted) && Indexed(engine, c)
    requires Plannable(engine, encrypted, query) && StoredWhereHeld(engine, c, query)
    ensures PlannedResult(engine, encrypted, c, query, allowed) == ScanResult(engine, c, query, allowed)
  {
    hide SafeDigests, Indexed, PlainLookups, PlanCondition, Holds, HoldsStored, Reached;
    forall id | id in ScanResult(engine, c, query, allowed)
      ensures id in c.documents && QueryReached(engine, encrypted, query, c.documents[id].fields)
    {
      KeepMembers(c.ids, id => Returned(engine, c, query, allowed, id), id);
      var fields := c.documents[id].fields;
      var i :| 0 <= i < |query.operations| && OperationHolds(engine, query.operations[i], fields);
      forall j | 0 <= j < |query.operations[i]|
        ensures Reached(engine, encrypted, query.operations[i][j], fields)
      {
        StoredIsReached(engine, encrypted, query.operations[i][j], fields);
      }
      assert OperationReached(engine, encrypted, query.operations[i], fields);
    }
    PlannedEqualsScanExactly(engine, encrypted, c, query, allowed);
  }
}
