/** Field encryption: the tree rewriting that seals and opens the fields a schema declares.
    The cipher and the JSON text of scalars are collaborators known by their laws only. */
module Encryption {
  import opened Common
  import opened Documents
  import Decimal

  /** `seal` takes the nonce drawn for the call; `random(k)` is the k-th draw, or a failure. */
  datatype Env = Env(
    seal: (nat, string) -> string,
    unseal: string -> Option<string>,
    random: nat -> Option<nat>,
    render: Value -> string,
    parse: string -> Option<Value>,
    declared: seq<string>)

  datatype CipherError = NoRandomness | NotCiphertext

  /** What sealing gives is longer than the plaintext and unseals to it. */
  ghost predicate CipherLaws(env: Env) {
    forall nonce, text ::
      env.unseal(env.seal(nonce, text)) == Some(text) && |env.seal(nonce, text)| > |text|
  }

  /** Rendered scalars parse back and hold neither `/` nor `%`; a JSON string is longer
      than its contents. */
  ghost predicate JsonLaws(env: Env) {
    && (forall v: Value :: v.Scalar() && !v.Str? ==>
          env.parse(env.render(v)) == Some(v) && '/' !in env.render(v) && '%' !in env.render(v))
    && (forall text, s :: env.parse(text) == Some(Str(s)) ==> |text| > |s|)
  }

  // ---------- declared fields ----------

  /** The text before the first `/`. */
  function FirstSegment(path: string): (segment: string)
    ensures segment <= path && (|segment| < |path| ==> path[|segment|] == '/')
  {
    if path == "" || path[0] == '/' then "" else [path[0]] + FirstSegment(path[1..])
  }

  /** `validate_field_path`: no segment is empty, `.` or `..`. */
  predicate ValidFieldPath(path: string) {
    var segment := FirstSegment(path);
    && segment != "" && segment != "." && segment != ".."
    && (|segment| == |path| || ValidFieldPath(path[|segment| + 1..]))
  }

  ghost predicate ValidDeclarations(env: Env) {
    forall i :: 0 <= i < |env.declared| ==> ValidFieldPath(env.declared[i])
  }

  lemma ValidStart(path: string)
    requires ValidFieldPath(path)
    ensures path != "" && path[0] != '/'
  {
  }

  /** A path with an empty first segment is never declared. */
  lemma SlashNotEncrypted(env: Env, field: string)
    requires ValidDeclarations(env) && (field == "" || field[0] == '/')
    ensures !EncryptedField(field, env.declared)
  {
    forall i | 0 <= i < |env.declared|
      ensures field != env.declared[i] && !(env.declared[i] + "/" <= field)
    {
      ValidStart(env.declared[i]);
      assert (env.declared[i] + "/")[0] == env.declared[i][0];
    }
  }

  function ChildPath(parent: string, child: string): string {
    if parent == "" then child else parent + "/" + child
  }

  // ---------- stored text ----------

  /** `stringify_stored_value` */
  function StoredText(env: Env, value: Value): string {
    Escape(if value.Str? then value.s else env.render(value))
  }

  /** `replace("%2F", "/")` */
  function Unescape(text: string): string {
    if text == "" then ""
    else if "%2F" <= text then "/" + Unescape(text[3..])
    else [text[0]] + Unescape(text[1..])
  }

  predicate HasEscape(text: string) {
    exists i :: 0 <= i <= |text| && "%2F" <= text[i..]
  }

  lemma HasEscapeLater(text: string)
    requires text != ""
    ensures HasEscape(text) <==> "%2F" <= text || HasEscape(text[1..])
  {
    if HasEscape(text) && !("%2F" <= text) {
      var i :| 0 <= i <= |text| && "%2F" <= text[i..];
      assert i > 0 by { assert text[0..] == text; }
      assert text[1..][i - 1..] == text[i..];
    }
    if HasEscape(text[1..]) {
      var i :| 0 <= i <= |text| - 1 && "%2F" <= text[1..][i..];
      assert text[1..][i..] == text[i + 1..];
    }
    if "%2F" <= text {
      assert text[0..] == text;
    }
  }

  lemma EscapeFirst(text: string, c: char)
    requires c != '%' && Escape(text) != "" && Escape(text)[0] == c
    ensures text != "" && text[0] == c && Escape(text)[1..] == Escape(text[1..])
  {
  }

  /** An escape in the escaped text comes from a slash or was there before. */
  lemma EscapeAligned(text: string)
    requires text != "" && text[0] != '/' && "%2F" <= Escape(text)
    ensures "%2F" <= text
  {
    var one := text[1..];
    assert Escape(text)[1..] == Escape(one);
    EscapeFirst(one, '2');
    var two := one[1..];
    EscapeFirst(two, 'F');
    assert text[0] == '%' && text[1] == one[0] && text[2] == two[0];
  }

  lemma UnescapePercent(text: string)
    ensures Unescape("%2F" + text) == "/" + Unescape(text)
  {
    assert ("%2F" + text)[3..] == text;
    assert "%2F" <= "%2F" + text;
  }

  lemma UnescapeOther(c: char, text: string)
    requires !("%2F" <= [c] + text)
    ensures Unescape([c] + text) == [c] + Unescape(text)
  {
    assert ([c] + text)[1..] == text;
  }

  lemma EscapeLiteral(text: string)
    requires "%2F" <= text
    ensures Escape(text) == "%2F" + Escape(text[3..])
  {
    assert text == "%2F" + text[3..];
    EscapeAppend("%2F", text[3..]);
    EscapeKeeps("%2F");
  }

  /** Unescaping undoes escaping exactly on texts without a literal `%2F`; otherwise it
      shortens them. */
  lemma {:induction false} UnescapeEscape(text: string)
    ensures Unescape(Escape(text)) == text <==> !HasEscape(text)
    ensures |Unescape(Escape(text))| <= |text|
    ensures HasEscape(text) ==> |Unescape(Escape(text))| < |text|
    decreases |text|
  {
    hide Unescape, HasEscape;
    if text == "" {
      EmptyText();
    } else {
      HasEscapeLater(text);
      var rest := text[1..];
      assert text == [text[0]] + rest;
      if text[0] == '/' {
        UnescapeEscape(rest);
        UnescapePercent(Escape(rest));
      } else if "%2F" <= text {
        EscapeLiteral(text);
        UnescapeEscape(text[3..]);
        UnescapePercent(Escape(text[3..]));
      } else {
        UnescapeEscape(rest);
        if "%2F" <= Escape(text) {
          EscapeAligned(text);
        }
        UnescapeOther(text[0], Escape(rest));
      }
    }
  }

  lemma EmptyText()
    ensures Unescape("") == "" && !HasEscape("")
  {
  }

  /** `decode_stored_value` */
  function RestoredValue(env: Env, text: string): Value {
    var unescaped := Unescape(text);
    var value := env.parse(unescaped);
    if value.Some? then value.value else Str(unescaped)
  }

  /** Scalars that come back from their stored text. */
  predicate Restorable(env: Env, value: Value) {
    value.Str? ==> !HasEscape(value.s) && env.parse(value.s).None?
  }

  lemma NoPercentNoEscape(text: string)
    requires '%' !in text
    ensures !HasEscape(text)
  {
    forall i | 0 <= i <= |text|
      ensures !("%2F" <= text[i..])
    {
      assert i < |text| ==> text[i..][0] == text[i];
    }
  }

  lemma RestoredExactly(env: Env, value: Value)
    requires JsonLaws(env) && value.Scalar()
    ensures RestoredValue(env, StoredText(env, value)) == value <==> Restorable(env, value)
  {
    if value.Str? {
      UnescapeEscape(value.s);
    } else {
      NoPercentNoEscape(env.render(value));
      UnescapeEscape(env.render(value));
    }
  }

  // ---------- encoding ----------

  ghost predicate SealedAs(env: Env, value: Value, out: Value) {
    exists nonce :: out == Str(env.seal(nonce, StoredText(env, value)))
  }

  ghost predicate EncodesScalar(env: Env, field: string, value: Value, out: Value) {
    if EncryptedField(field, env.declared) then SealedAs(env, value, out) else out == value
  }

  /** Every scalar at a declared path is sealed and nothing else changes; a container
      inside an array loses its path, as in the source. */
  ghost predicate EncodesValue(env: Env, field: string, value: Value, out: Value)
    decreases value, 0
  {
    match value
    case Obj(fields) => out.Obj? && EncodesFields(env, field, fields, out.fields)
    case Arr(items) => out.Arr? && EncodesItems(env, field, items, out.items)
    case _ => EncodesScalar(env, field, value, out)
  }

  ghost predicate EncodesFields(env: Env, field: string, fields: seq<Field>, outs: seq<Field>)
    decreases fields, 1
  {
    |outs| == |fields| && forall i :: 0 <= i < |fields| ==>
      EncodesField(env, field, fields[i], outs[i])
  }

  ghost predicate EncodesField(env: Env, parent: string, field: Field, out: Field)
    decreases field, 1
  {
    out.name == field.name && EncodesValue(env, ChildPath(parent, field.name), field.value, out.value)
  }

  ghost predicate EncodesItems(env: Env, field: string, items: seq<Value>, outs: seq<Value>)
    decreases items, 1
  {
    |outs| == |items| && forall i :: 0 <= i < |items| ==>
      if items[i].Scalar() then EncodesScalar(env, field, items[i], outs[i])
      else EncodesValue(env, "", items[i], outs[i])
  }

  class Encryptor {
    const env: Env
    /** How many nonces have been drawn. */
    var drawn: nat

    constructor (env: Env)
      ensures this.env == env && drawn == 0
    {
      this.env := env;
      drawn := 0;
    }

    /** A failure means that a draw since `from` failed. */
    ghost predicate Failed(from: nat) reads this {
      exists k :: from <= k < drawn && env.random(k).None?
    }

    method Encrypt(plaintext: string) returns (result: Result<string, CipherError>)
      modifies this
      ensures result.Ok? ==> exists nonce :: result.value == env.seal(nonce, plaintext)
      ensures drawn >= old(drawn) && (result.Err? ==> Failed(old(drawn)))
    {
      var nonce := env.random(drawn);
      drawn := drawn + 1;
      if nonce.None? {
        return Err(NoRandomness);
      }
      return Ok(env.seal(nonce.value, plaintext));
    }

    method EncodeScalar(value: Value, field: string) returns (result: Result<Value, CipherError>)
      requires value.Scalar()
      modifies this
      ensures result.Ok? ==> EncodesScalar(env, field, value, result.value)
      ensures drawn >= old(drawn) && (result.Err? ==> Failed(old(drawn)))
    {
      if !EncryptedField(field, env.declared) {
        return Ok(value);
      }
      var sealed := Encrypt(StoredText(env, value));
      return if sealed.Ok? then Ok(Str(sealed.value)) else Err(sealed.error);
    }

    method EncodeValue(value: Value, field: string) returns (result: Result<Value, CipherError>)
      modifies this
      ensures result.Ok? ==> EncodesValue(env, field, value, result.value)
      ensures drawn >= old(drawn) && (result.Err? ==> Failed(old(drawn)))
      decreases value, 0
    {
      match value {
        case Obj(fields) =>
          var outs := EncodeFields(fields, field);
          return if outs.Ok? then Ok(Obj(outs.value)) else Err(outs.error);
        case Arr(items) =>
          var outs := EncodeItems(items, field);
          return if outs.Ok? then Ok(Arr(outs.value)) else Err(outs.error);
        case _ =>
          result := EncodeScalar(value, field);
      }
    }

    method EncodeFields(fields: seq<Field>, field: string) returns (result: Result<seq<Field>, CipherError>)
      modifies this
      ensures result.Ok? ==> EncodesFields(env, field, fields, result.value)
      ensures drawn >= old(drawn) && (result.Err? ==> Failed(old(drawn)))
      decreases fields, 1
    {
      var outs: seq<Field> := [];
      for i := 0 to |fields|
        invariant |outs| == i && drawn >= old(drawn)
        invariant forall k :: 0 <= k < i ==> EncodesField(env, field, fields[k], outs[k])
      {
        var name, value := fields[i].name, fields[i].value;
        var out := EncodeValue(value, ChildPath(field, name));
        if out.Err? {
          return Err(out.error);
        }
        outs := outs + [Field(name, out.value)];
      }
      return Ok(outs);
    }

    method EncodeItems(items: seq<Value>, field: string) returns (result: Result<seq<Value>, CipherError>)
      modifies this
      ensures result.Ok? ==> EncodesItems(env, field, items, result.value)
      ensures drawn >= old(drawn) && (result.Err? ==> Failed(old(drawn)))
      decreases items, 1
    {
      var outs: seq<Value> := [];
      for i := 0 to |items|
        invariant |outs| == i && drawn >= old(drawn)
        invariant forall k :: 0 <= k < i ==>
          if items[k].Scalar() then EncodesScalar(env, field, items[k], outs[k])
          else EncodesValue(env, "", items[k], outs[k])
      {
        var item := items[i];
        var out: Result<Value, CipherError>;
        if item.Scalar() {
          out := EncodeScalar(item, field);
        } else {
          out := EncodeValue(item, "");
        }
        if out.Err? {
          return Err(out.error);
        }
        outs := outs + [out.value];
      }
      return Ok(outs);
    }
  }

  // ---------- decoding ----------

  function DecodeValue(env: Env, field: string, value: Value): Result<Value, CipherError>
    decreases value, 0
  {
    match value
    case Obj(fields) =>
      var outs := DecodeFields(env, field, fields);
      if outs.Ok? then Ok(Obj(outs.value)) else Err(outs.error)
    case Arr(items) =>
      var outs := DecodeItems(env, field, items);
      if outs.Ok? then Ok(Arr(outs.value)) else Err(outs.error)
    case Str(ciphertext) =>
      if EncryptedField(field, env.declared) then
        var plaintext := env.unseal(ciphertext);
        if plaintext.Some? then Ok(RestoredValue(env, plaintext.value)) else Err(NotCiphertext)
      else Ok(value)
    case _ => Ok(value)
  }

  /** The members of an object at `parent`, in order, up to the first failure. */
  function DecodeFields(env: Env, parent: string, fields: seq<Field>): Result<seq<Field>, CipherError>
    decreases fields, 1
  {
    if fields == [] then Ok([])
    else
      var out := DecodeValue(env, parent + "/" + fields[0].name, fields[0].value);
      if out.Err? then Err(out.error)
      else
        var rest := DecodeFields(env, parent, fields[1..]);
        if rest.Err? then rest else Ok([Field(fields[0].name, out.value)] + rest.value)
  }

  function DecodeItems(env: Env, field: string, items: seq<Value>): Result<seq<Value>, CipherError>
    decreases items, 1
  {
    if items == [] then Ok([])
    else
      var out := DecodeValue(env, field, items[0]);
      if out.Err? then Err(out.error)
      else
        var rest := DecodeItems(env, field, items[1..]);
        if rest.Err? then rest else Ok([out.value] + rest.value)
  }

  // ---------- the round trip ----------

  /** The two walks name the same place alike, unless the top-level name is empty: then the
      decoder's path starts with a slash. */
  predicate PathsAgree(encoded: string, decoded: string) {
    encoded == decoded || (decoded != "" && decoded[0] == '/')
  }

  lemma PathsAgreeBelow(encoded: string, decoded: string, child: string)
    requires PathsAgree(encoded, decoded)
    ensures PathsAgree(ChildPath(encoded, child), decoded + "/" + child)
  {
  }

  /** A scalar the decoder gives back: not sealed at all, or sealed under a path that the
      decoder names alike and restorable. */
  predicate ScalarRecovered(env: Env, value: Value, encoded: string, decoded: string) {
    EncryptedField(encoded, env.declared) ==> encoded == decoded && Restorable(env, value)
  }

  predicate Recovered(env: Env, value: Value, encoded: string, decoded: string)
    decreases value, 0
  {
    match value
    case Obj(fields) => FieldsRecovered(env, fields, encoded, decoded)
    case Arr(items) => forall i :: 0 <= i < |items| ==> ScalarRecovered(env, items[i], encoded, decoded)
    case _ => ScalarRecovered(env, value, encoded, decoded)
  }

  predicate FieldsRecovered(env: Env, fields: seq<Field>, encoded: string, decoded: string)
    decreases fields, 1
  {
    forall i :: 0 <= i < |fields| ==>
      Recovered(env, fields[i].value, ChildPath(encoded, fields[i].name), decoded + "/" + fields[i].name)
  }

  ghost predicate Laws(env: Env) {
    CipherLaws(env) && JsonLaws(env) && ValidDeclarations(env)
  }

  // ---------- collaborators as assumed ----------

  function PlainRender(value: Value): string {
    match value
    case Null => "null"
    case Bool(b) => if b then "true" else "false"
    case Num(n) => Decimal.SignedText(n)
    case Str(s) => "\"" + s
    case _ => ""
  }

  function PlainParse(text: string): Option<Value> {
    if text == "null" then Some(Null)
    else if text == "true" || text == "false" then Some(Bool(text == "true"))
    else if text != "" && text[0] == '"' then Some(Str(text[1..]))
    else
      var n := Decimal.SignedValue(text);
      if n.Some? && -MAX_MAGNITUDE <= n.value <= MAX_MAGNITUDE then Some(Num(n.value)) else None
  }

  function PlainEnv(declared: seq<string>): Env {
    Env((nonce, text) => "." + text,
        text => if text != "" && text[0] == '.' then Some(text[1..]) else None,
        k => Some(k), PlainRender, PlainParse, declared)
  }

  lemma PlainNumber(n: Number)
    ensures PlainParse(Decimal.SignedText(n)) == Some(Num(n))
    ensures '/' !in Decimal.SignedText(n) && '%' !in Decimal.SignedText(n)
  {
    hide Decimal.SignedValue;
    Decimal.SignedRoundTrip(n);
    var text := Decimal.SignedText(n);
    assert text[0] in text;
  }

  lemma PlainScalar(v: Value)
    requires v.Scalar() && !v.Str?
    ensures PlainParse(PlainRender(v)) == Some(v)
    ensures '/' !in PlainRender(v) && '%' !in PlainRender(v)
  {
    hide Decimal.SignedText, Decimal.SignedValue;
    if v.Num? {
      PlainNumber(v.n);
    }
  }

  lemma PlainString(text: string, s: string)
    requires PlainParse(text) == Some(Str(s))
    ensures |text| > |s|
  {
    hide Decimal.SignedValue;
  }

  lemma PlainJsonLaws(declared: seq<string>)
    ensures JsonLaws(PlainEnv(declared))
  {
    hide PlainRender, PlainParse;
    forall v: Value | v.Scalar() && !v.Str?
      ensures PlainParse(PlainRender(v)) == Some(v)
      ensures '/' !in PlainRender(v) && '%' !in PlainRender(v)
    {
      PlainScalar(v);
    }
    forall text, s | PlainParse(text) == Some(Str(s))
      ensures |text| > |s|
    {
      PlainString(text, s);
    }
  }

  /** The laws can be met together, for every list of valid declarations. */
  lemma LawsCanBeMet(declared: seq<string>)
    requires forall i :: 0 <= i < |declared| ==> ValidFieldPath(declared[i])
    ensures Laws(PlainEnv(declared))
  {
    hide JsonLaws, PlainRender, PlainParse;
    var env := PlainEnv(declared);
    PlainJsonLaws(declared);
    forall nonce: nat, text
      ensures env.unseal(env.seal(nonce, text)) == Some(text)
    {
      assert ("." + text)[1..] == text;
    }
  }

  lemma {:induction false} EscapeGrows(text: string)
    ensures |Escape(text)| >= |text|
  {
    if text != "" {
      EscapeGrows(text[1..]);
    }
  }

  lemma ScalarRoundTrip(env: Env, value: Value, out: Value, encoded: string, decoded: string)
    requires Laws(env) && PathsAgree(encoded, decoded) && value.Scalar()
    requires EncodesScalar(env, encoded, value, out)
    ensures DecodeValue(env, decoded, out).Ok?
    ensures DecodeValue(env, decoded, out) == Ok(value) <==> ScalarRecovered(env, value, encoded, decoded)
  {
    hide Unescape, HasEscape, EncryptedField;
    if encoded != decoded {
      SlashNotEncrypted(env, decoded);
    }
    if EncryptedField(encoded, env.declared) {
      var nonce :| out == Str(env.seal(nonce, StoredText(env, value)));
      RestoredExactly(env, value);
      if value.Str? {
        EscapeGrows(value.s);
      }
    }
  }

  lemma {:induction false} ItemsRoundTrip(
    env: Env, items: seq<Value>, outs: seq<Value>, encoded: string, decoded: string)
    requires Laws(env) && PathsAgree(encoded, decoded) && |items| == |outs|
    requires forall i :: 0 <= i < |items| ==> items[i].Scalar() && EncodesScalar(env, encoded, items[i], outs[i])
    ensures DecodeItems(env, decoded, outs).Ok?
    ensures DecodeItems(env, decoded, outs) == Ok(items) <==>
      forall i :: 0 <= i < |items| ==> ScalarRecovered(env, items[i], encoded, decoded)
    decreases |items|
  {
    hide ScalarRecovered, EncodesScalar, DecodeValue, PathsAgree, Laws;
    if items != [] {
      ScalarRoundTrip(env, items[0], outs[0], encoded, decoded);
      ItemsRoundTrip(env, items[1..], outs[1..], encoded, decoded);
      var out, rest := DecodeValue(env, decoded, outs[0]), DecodeItems(env, decoded, outs[1..]);
      ConsEqual(out.value, rest.value, items);
      assert forall i :: 1 <= i < |items| ==> items[i] == items[1..][i - 1];
    }
  }

  lemma ConsEqual<T>(head: T, tail: seq<T>, all: seq<T>)
    requires all != []
    ensures [head] + tail == all <==> head == all[0] && tail == all[1..]
  {
    assert all == [all[0]] + all[1..];
    assert ([head] + tail)[0] == head && ([head] + tail)[1..] == tail;
  }

  /** Decoding what was encoded never fails on a valid document, and gives it back exactly
      when all its scalars are recovered. */
  lemma {:induction false} ValueRoundTrip(env: Env, value: Value, out: Value, encoded: string, decoded: string)
    requires Laws(env) && PathsAgree(encoded, decoded) && ValidValue(value)
    requires EncodesValue(env, encoded, value, out)
    ensures DecodeValue(env, decoded, out).Ok?
    ensures DecodeValue(env, decoded, out) == Ok(value) <==> Recovered(env, value, encoded, decoded)
    decreases value, 0
  {
    hide Laws, PathsAgree, ScalarRecovered, EncodesScalar, EncryptedField;
    match value
    case Obj(fields) => FieldsRoundTrip(env, fields, out.fields, encoded, decoded);
    case Arr(items) =>
      forall i | 0 <= i < |items|
        ensures items[i].Scalar()
      {
        assert items[i] in items;
      }
      ItemsRoundTrip(env, items, out.items, encoded, decoded);
    case _ => ScalarRoundTrip(env, value, out, encoded, decoded);
  }

  lemma {:induction false} FieldsRoundTrip(
    env: Env, fields: seq<Field>, outs: seq<Field>, encoded: string, decoded: string)
    requires Laws(env) && PathsAgree(encoded, decoded)
    requires forall i :: 0 <= i < |fields| ==> ValidValue(fields[i].value)
    requires EncodesFields(env, encoded, fields, outs)
    ensures DecodeFields(env, decoded, outs).Ok?
    ensures DecodeFields(env, decoded, outs) == Ok(fields) <==> FieldsRecovered(env, fields, encoded, decoded)
    decreases fields, 1
  {
    hide Laws, PathsAgree, Recovered, EncodesValue, DecodeValue, ValidValue, ChildPath;
    if fields != [] {
      var name := fields[0].name;
      assert EncodesField(env, encoded, fields[0], outs[0]);
      PathsAgreeBelow(encoded, decoded, name);
      ValueRoundTrip(env, fields[0].value, outs[0].value, ChildPath(encoded, name), decoded + "/" + name);
      FieldsRoundTrip(env, fields[1..], outs[1..], encoded, decoded);
      var out := DecodeValue(env, decoded + "/" + name, outs[0].value);
      ConsEqual(Field(name, out.value), DecodeFields(env, decoded, outs[1..]).value, fields);
      assert forall i :: 1 <= i < |fields| ==> fields[i] == fields[1..][i - 1];
    }
  }

  // ---------- whole documents ----------

  predicate ContainsCiphertext(value: Value)
    decreases value
  {
    match value
    case Str(s) => "v2." <= s
    case Arr(items) => exists i :: 0 <= i < |items| && ContainsCiphertext(items[i])
    case Obj(fields) => exists i :: 0 <= i < |fields| && ContainsCiphertext(fields[i].value)
    case _ => false
  }

  datatype DocumentError = Cipher(error: CipherError) | UndeclaredCiphertext

  /** The members of a document: their paths are their names. */
  function DecodeMembers(env: Env, fields: seq<Field>): Result<seq<Field>, CipherError>
    decreases |fields|
  {
    if fields == [] then Ok([])
    else
      var out := DecodeValue(env, fields[0].name, fields[0].value);
      if out.Err? then Err(out.error)
      else
        var rest := DecodeMembers(env, fields[1..]);
        if rest.Err? then rest else Ok([Field(fields[0].name, out.value)] + rest.value)
  }

  function DecodeDocument(env: Env, fields: seq<Field>): Result<seq<Field>, DocumentError> {
    if env.declared == [] then
      if exists i :: 0 <= i < |fields| && ContainsCiphertext(fields[i].value) then Err(UndeclaredCiphertext)
      else Ok(fields)
    else
      var outs := DecodeMembers(env, fields);
      if outs.Ok? then Ok(outs.value) else Err(Cipher(outs.error))
  }

  /** `encode_document`: nothing is touched unless the schema declares a field. */
  ghost predicate EncodesDocument(env: Env, fields: seq<Field>, outs: seq<Field>) {
    if env.declared == [] then outs == fields else EncodesFields(env, "", fields, outs)
  }

  method EncodeDocument(encryptor: Encryptor, fields: seq<Field>) returns (result: Result<seq<Field>, CipherError>)
    modifies encryptor
    ensures result.Ok? ==> EncodesDocument(encryptor.env, fields, result.value)
    ensures result.Err? ==> encryptor.Failed(old(encryptor.drawn))
  {
    if encryptor.env.declared == [] {
      return Ok(fields);
    }
    result := encryptor.EncodeFields(fields, "");
  }

  /** What a document needs to survive encryption: with declared fields, every sealed
      scalar is restorable and lies below a nameable member; without, no string looks
      like ciphertext. */
  predicate Survives(env: Env, fields: seq<Field>) {
    if env.declared == [] then forall i :: 0 <= i < |fields| ==> !ContainsCiphertext(fields[i].value)
    else MembersRecovered(env, fields)
  }

  predicate MembersRecovered(env: Env, fields: seq<Field>) {
    forall i :: 0 <= i < |fields| ==> Recovered(env, fields[i].value, fields[i].name, fields[i].name)
  }

  lemma {:induction false} MembersRoundTrip(env: Env, fields: seq<Field>, outs: seq<Field>)
    requires Laws(env) && forall i :: 0 <= i < |fields| ==> ValidValue(fields[i].value)
    requires EncodesFields(env, "", fields, outs)
    ensures DecodeMembers(env, outs).Ok?
    ensures DecodeMembers(env, outs) == Ok(fields) <==> MembersRecovered(env, fields)
    decreases |fields|
  {
    hide Laws, Recovered, EncodesValue, DecodeValue, ValidValue;
    if fields != [] {
      var name := fields[0].name;
      assert EncodesField(env, "", fields[0], outs[0]);
      ValueRoundTrip(env, fields[0].value, outs[0].value, name, name);
      MembersRoundTrip(env, fields[1..], outs[1..]);
      var out := DecodeValue(env, name, outs[0].value);
      ConsEqual(Field(name, out.value), DecodeMembers(env, outs[1..]).value, fields);
      assert forall i :: 1 <= i < |fields| ==> fields[i] == fields[1..][i - 1];
    }
  }

  /** Encrypting a validated document and decrypting it gives the document back exactly
      when it survives. */
  lemma DocumentRoundTrip(env: Env, fields: seq<Field>, outs: seq<Field>)
    requires Laws(env) && ValidFields(fields) && EncodesDocument(env, fields, outs)
    ensures DecodeDocument(env, outs) == Ok(fields) <==> Survives(env, fields)
  {
    hide Laws;
    forall i | 0 <= i < |fields|
      ensures ValidValue(fields[i].value)
    {
      assert fields[i] in fields;
    }
    if env.declared != [] {
      MembersRoundTrip(env, fields, outs);
    }
  }

  /** No sealed string is JSON text or holds `%2F`, whatever the paths are. */
  predicate AllRestorable(env: Env, value: Value)
    decreases value
  {
    match value
    case Obj(fields) => forall i :: 0 <= i < |fields| ==> AllRestorable(env, fields[i].value)
    case Arr(items) => forall i :: 0 <= i < |items| ==> Restorable(env, items[i])
    case _ => Restorable(env, value)
  }

  lemma {:induction false} RestorableIsRecovered(env: Env, value: Value, path: string)
    requires AllRestorable(env, value) && path != ""
    ensures Recovered(env, value, path, path)
    decreases value
  {
    if value.Obj? {
      forall i | 0 <= i < |value.fields|
        ensures Recovered(env, value.fields[i].value, ChildPath(path, value.fields[i].name),
                          path + "/" + value.fields[i].name)
      {
        RestorableIsRecovered(env, value.fields[i].value, path + "/" + value.fields[i].name);
      }
    }
  }

  /** The promise as it is usually put: named members, restorable strings. */
  lemma RestorableDocumentsRoundTrip(env: Env, fields: seq<Field>, outs: seq<Field>)
    requires Laws(env) && ValidFields(fields) && EncodesDocument(env, fields, outs) && env.declared != []
    requires forall i :: 0 <= i < |fields| ==> fields[i].name != "" && AllRestorable(env, fields[i].value)
    ensures DecodeDocument(env, outs) == Ok(fields)
  {
    forall i | 0 <= i < |fields|
      ensures Recovered(env, fields[i].value, fields[i].name, fields[i].name)
    {
      RestorableIsRecovered(env, fields[i].value, fields[i].name);
    }
    DocumentRoundTrip(env, fields, outs);
  }

  /** The walks disagree below a member with an empty name: the encoder seals its `ssn`
      as a declared field, the decoder looks for `/ssn` and leaves the ciphertext. */
  lemma EmptyNameStaysSealed(env: Env, outs: seq<Field>)
    requires Laws(env) && env.declared == ["ssn"]
    requires EncodesDocument(env, [Field("", Obj([Field("ssn", Str("x"))]))], outs)
    ensures DecodeDocument(env, outs) != Ok([Field("", Obj([Field("ssn", Str("x"))]))])
  {
    hide Laws, ValidDeclarations, DecodeDocument;
    var inner := [Field("ssn", Str("x"))];
    var fields := [Field("", Obj(inner))];
    assert ValidValue(Str("x"));
    assert forall f :: f in inner ==> f == inner[0];
    assert ValidFields(inner) && ValidValue(Obj(inner));
    assert forall f :: f in fields ==> f == fields[0];
    DocumentRoundTrip(env, fields, outs);
    assert EncryptedField("ssn", env.declared) by { assert env.declared[0] == "ssn"; }
    assert !Recovered(env, inner[0].value, ChildPath("", "ssn"), "" + "/" + "ssn");
    assert !FieldsRecovered(env, inner, "", "");
    assert !Recovered(env, fields[0].value, "", "");
  }

  // ---------- the decoder's loops ----------

  method OpenValue(env: Env, value: Value, field: string) returns (result: Result<Value, CipherError>)
    ensures result == DecodeValue(env, field, value)
    decreases value, 0
  {
    match value {
      case Obj(fields) =>
        var outs := OpenFields(env, fields, field);
        return if outs.Ok? then Ok(Obj(outs.value)) else Err(outs.error);
      case Arr(items) =>
        var outs := OpenItems(env, items, field);
        return if outs.Ok? then Ok(Arr(outs.value)) else Err(outs.error);
      case Str(ciphertext) =>
        if EncryptedField(field, env.declared) {
          var plaintext := env.unseal(ciphertext);
          return if plaintext.Some? then Ok(RestoredValue(env, plaintext.value)) else Err(NotCiphertext);
        }
        return Ok(value);
      case _ =>
        return Ok(value);
    }
  }

  /** `outs` decoded already, `rest` the result for what is left. */
  function Onto<T>(outs: seq<T>, rest: Result<seq<T>, CipherError>): Result<seq<T>, CipherError> {
    if rest.Ok? then Ok(outs + rest.value) else rest
  }

  lemma OntoStart<T>(rest: Result<seq<T>, CipherError>)
    ensures Onto([], rest) == rest
  {
    if rest.Ok? {
      assert [] + rest.value == rest.value;
    }
  }

  lemma OntoNext<T>(outs: seq<T>, out: T, rest: Result<seq<T>, CipherError>)
    ensures Onto(outs, if rest.Err? then rest else Ok([out] + rest.value)) == Onto(outs + [out], rest)
  {
    if rest.Ok? {
      assert outs + ([out] + rest.value) == outs + [out] + rest.value;
    }
  }

  method OpenFields(env: Env, fields: seq<Field>, parent: string) returns (result: Result<seq<Field>, CipherError>)
    ensures result == DecodeFields(env, parent, fields)
    decreases fields, 1
  {
    hide Onto;
    var outs: seq<Field> := [];
    OntoStart(DecodeFields(env, parent, fields));
    assert fields[0..] == fields;
    for i := 0 to |fields|
      invariant Onto(outs, DecodeFields(env, parent, fields[i..])) == DecodeFields(env, parent, fields)
    {
      var out := OpenValue(env, fields[i].value, parent + "/" + fields[i].name);
      assert fields[i..][1..] == fields[i + 1..];
      if out.Err? {
        OntoError(outs, DecodeFields(env, parent, fields[i..]));
        return Err(out.error);
      }
      OntoNext(outs, Field(fields[i].name, out.value), DecodeFields(env, parent, fields[i + 1..]));
      outs := outs + [Field(fields[i].name, out.value)];
    }
    OntoEnd(outs);
    return Ok(outs);
  }

  lemma OntoError<T>(outs: seq<T>, rest: Result<seq<T>, CipherError>)
    requires rest.Err?
    ensures Onto(outs, rest) == rest
  {
  }

  lemma OntoEnd<T>(outs: seq<T>)
    ensures Onto(outs, Ok([])) == Ok(outs)
  {
    assert outs + [] == outs;
  }

  method OpenItems(env: Env, items: seq<Value>, field: string) returns (result: Result<seq<Value>, CipherError>)
    ensures result == DecodeItems(env, field, items)
    decreases items, 1
  {
    hide Onto;
    var outs: seq<Value> := [];
    OntoStart(DecodeItems(env, field, items));
    assert items[0..] == items;
    for i := 0 to |items|
      invariant Onto(outs, DecodeItems(env, field, items[i..])) == DecodeItems(env, field, items)
    {
      var out := OpenValue(env, items[i], field);
      assert items[i..][1..] == items[i + 1..];
      if out.Err? {
        OntoError(outs, DecodeItems(env, field, items[i..]));
        return Err(out.error);
      }
      OntoNext(outs, out.value, DecodeItems(env, field, items[i + 1..]));
      outs := outs + [out.value];
    }
    OntoEnd(outs);
    return Ok(outs);
  }
}
