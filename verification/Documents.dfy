/** JSON documents as the engine stores them. */
module Documents {
  /** The magnitude bits of the largest finite double and of 1. */
  const MAX_MAGNITUDE: int := 0x7FEF_FFFF_FFFF_FFFF
  const ONE: Number := 0x3FF0_0000_0000_0000

  /** A finite double as the engine compares it, named by its magnitude bits with its sign:
      0 is the double 0, which -0 is not told apart from, and names are ordered as doubles. */
  type Number = n: int | -MAX_MAGNITUDE <= n <= MAX_MAGNITUDE

  datatype Value =
    | Null
    | Bool(b: bool)
    | Num(n: Number)
    | Str(s: string)
    | Arr(items: seq<Value>)
    | Obj(fields: seq<Field>)
  {
    predicate Scalar() { !Arr? && !Obj? }
  }

  datatype Field = Field(name: string, value: Value)

  /** Document validation: arrays hold scalars only, and names are unique in an object. */
  predicate ValidFields(fields: seq<Field>)
    decreases fields
  {
    && (forall i, j :: 0 <= i < j < |fields| ==> fields[i].name != fields[j].name)
    && (forall f :: f in fields ==> ValidValue(f.value))
  }

  predicate ValidValue(value: Value)
    decreases value
  {
    match value
    case Arr(items) => forall item :: item in items ==> item.Scalar()
    case Obj(fields) => ValidFields(fields)
    case _ => true
  }

  /** `is_encrypted_field`: a declared field or anything below one. */
  predicate EncryptedField(field: string, declared: seq<string>) {
    exists i :: 0 <= i < |declared| && (field == declared[i] || declared[i] + "/" <= field)
  }

  /** `replace('/', "%2F")`: stored text never contains the key separator. */
  function Escape(text: string): string {
    if text == "" then ""
    else (if text[0] == '/' then "%2F" else [text[0]]) + Escape(text[1..])
  }

  lemma {:induction false} EscapeAppend(a: string, b: string)
    ensures Escape(a + b) == Escape(a) + Escape(b)
  {
    if a == "" {
      assert a + b == b;
    } else {
      assert (a + b)[1..] == a[1..] + b;
      EscapeAppend(a[1..], b);
    }
  }

  lemma {:induction false} EscapeKeeps(text: string)
    requires '/' !in text
    ensures Escape(text) == text
  {
    if text != "" {
      EscapeKeeps(text[1..]);
    }
  }

  lemma {:induction false} EscapeRemoves(text: string)
    ensures '/' !in Escape(text)
  {
    if text != "" {
      EscapeRemoves(text[1..]);
    }
  }
}
