/** Picking members out of a printed object or array without parsing the whole of it. */
module JsonFields {
  import opened Common
  import opened JsonText
  import opened JsonScan
  import opened JsonDecode

  datatype Slice = Slice(start: nat, end: nat)

  /** The member loop of an object, from `i`, just after `{` or a comma. */
  function FieldFrom(s: string, i: nat, wanted: string): (r: Result<Slice, JsonError>)
    ensures r.Ok? ==> r.value.start <= r.value.end <= |s|
    decreases |s| - i
  {
    var k := SkipSpace(s, i);
    if k < |s| && s[k] == '}' then Err(MissingField)
    else
      var keyEnd := StringEnd(s, k);
      if keyEnd.Err? then Err(keyEnd.error)
      else
        var key := DecodeString(s[k..keyEnd.value]);
        if key.Err? then Err(key.error)
        else
          var colon := SkipSpace(s, keyEnd.value);
          if colon >= |s| || s[colon] != ':' then Err(MissingColon)
          else
            var start := SkipSpace(s, colon + 1);
            var end := ValueEnd(s, start);
            if end.Err? then Err(end.error)
            else if key.value == wanted then Ok(Slice(start, end.value))
            else
              var next := SkipSpace(s, end.value);
              if next < |s| && s[next] == ',' then FieldFrom(s, next + 1, wanted)
              else if next < |s| && s[next] == '}' then Err(MissingField)
              else Err(BadSeparator)
  }

  function ObjectField(s: string, wanted: string): (r: Result<Slice, JsonError>)
    ensures r.Ok? ==> r.value.start <= r.value.end <= |s|
  {
    var i := SkipSpace(s, 0);
    if i >= |s| || s[i] != '{' then Err(ExpectedObject) else FieldFrom(s, i + 1, wanted)
  }

  method JsonObjectField(text: string, wanted: string) returns (field: Result<string, JsonError>)
    ensures
      var slice := ObjectField(text, wanted);
      field == if slice.Ok? then Ok(text[slice.value.start..slice.value.end]) else Err(slice.error)
  {
    hide SkipSpace, StringEnd, ValueEnd, DecodeString;
    var index := SkipJsonSpace(text, 0);
    if index >= |text| || text[index] != '{' {
      return Err(ExpectedObject);
    }
    index := index + 1;
    while true
      invariant ObjectField(text, wanted) == FieldFrom(text, index, wanted)
      decreases |text| - index
    {
      index := SkipJsonSpace(text, index);
      if index < |text| && text[index] == '}' {
        break;
      }
      var keyEnd := JsonStringEnd(text, index);
      if keyEnd.Err? {
        return Err(keyEnd.error);
      }
      var key := DecodeJsonString(text[index..keyEnd.value]);
      if key.Err? {
        return Err(key.error);
      }
      index := SkipJsonSpace(text, keyEnd.value);
      if index >= |text| || text[index] != ':' {
        return Err(MissingColon);
      }
      var valueStart := SkipJsonSpace(text, index + 1);
      var valueEnd := JsonValueEnd(text, valueStart);
      if valueEnd.Err? {
        return Err(valueEnd.error);
      }
      if key.value == wanted {
        return Ok(text[valueStart..valueEnd.value]);
      }
      index := SkipJsonSpace(text, valueEnd.value);
      if index < |text| && text[index] == ',' {
        index := index + 1;
      } else if index < |text| && text[index] == '}' {
        break;
      } else {
        return Err(BadSeparator);
      }
    }
    return Err(MissingField);
  }

  /** The element loop of an array, from `i`, just after `[` or a comma. */
  function ValuesFrom(s: string, i: nat): Result<seq<string>, JsonError>
    decreases |s| - i
  {
    var k := SkipSpace(s, i);
    if k < |s| && s[k] == ']' then Ok([])
    else
      var end := ValueEnd(s, k);
      if end.Err? then Err(end.error)
      else
        var next := SkipSpace(s, end.value);
        if next < |s| && s[next] == ',' then
          var rest := ValuesFrom(s, next + 1);
          if rest.Err? then rest else Ok([s[k..end.value]] + rest.value)
        else if next < |s| && s[next] == ']' then Ok([s[k..end.value]])
        else Err(BadSeparator)
  }

  function ArrayValues(s: string): Result<seq<string>, JsonError> {
    var i := SkipSpace(s, 0);
    if i >= |s| || s[i] != '[' then Err(ExpectedArray) else ValuesFrom(s, i + 1)
  }

  function After(values: seq<string>, rest: Result<seq<string>, JsonError>): Result<seq<string>, JsonError> {
    if rest.Ok? then Ok(values + rest.value) else rest
  }

  method JsonArrayValues(text: string) returns (result: Result<seq<string>, JsonError>)
    ensures result == ArrayValues(text)
  {
    hide ValueEnd, SkipSpace;
    var index := SkipJsonSpace(text, 0);
    if index >= |text| || text[index] != '[' {
      return Err(ExpectedArray);
    }
    index := index + 1;
    var values: seq<string> := [];
    assert ValuesFrom(text, index).Ok? ==> [] + ValuesFrom(text, index).value == ValuesFrom(text, index).value;
    while true
      invariant ArrayValues(text) == After(values, ValuesFrom(text, index))
      decreases |text| - index
    {
      ghost var entry := index;
      index := SkipJsonSpace(text, index);
      if index < |text| && text[index] == ']' {
        assert values + [] == values;
        return Ok(values);
      }
      var end := JsonValueEnd(text, index);
      if end.Err? {
        return Err(end.error);
      }
      ghost var was, value := values, text[index..end.value];
      values := values + [text[index..end.value]];
      index := SkipJsonSpace(text, end.value);
      if index < |text| && text[index] == ',' {
        index := index + 1;
        ghost var rest := ValuesFrom(text, index);
        assert rest.Ok? ==> was + ([value] + rest.value) == values + rest.value;
      } else if index < |text| && text[index] == ']' {
        return Ok(values);
      } else {
        return Err(BadSeparator);
      }
    }
  }

  // ---------- on printed text ----------

  /** The value of the first member called `wanted`. */
  function Member(pairs: seq<Pair>, wanted: string): Option<Json> {
    if pairs == [] then None
    else if pairs[0].key == wanted then Some(pairs[0].value)
    else Member(pairs[1..], wanted)
  }

  /** The text of a slice. */
  predicate Shows(s: string, slice: Slice, t: string) {
    slice.start <= slice.end <= |s| && s[slice.start..slice.end] == t
  }

  lemma AtSlice(s: string, i: nat, t: string)
    requires At(s, i, t)
    ensures s[i..i + |t|] == t
  {
  }

  /** A member at `i` with its key up to `colon` and its value up to `end`. */
  predicate MemberAt(s: string, i: nat, key: string, colon: nat, end: nat) {
    && i < colon < end <= |s|
    && s[i] == '"' && StringEnd(s, i) == Ok(colon) && DecodeString(s[i..colon]) == Ok(key)
    && s[colon] == ':' && SkipSpace(s, colon + 1) == colon + 1 && ValueEnd(s, colon + 1) == Ok(end)
  }

  lemma KeyScanned(s: string, i: nat, key: string)
    requires At(s, i, Quote(key))
    ensures i < |s| && s[i] == '"'
    ensures StringEnd(s, i) == Ok(i + |Quote(key)|) && DecodeString(s[i..i + |Quote(key)|]) == Ok(key)
  {
    hide StringEnd, DecodeString, Esc;
    QuoteStarts(s, i, key);
    QuotedEnd(s, i, key);
    AtSlice(s, i, Quote(key));
    DecodeUndoesQuote(key);
  }

  lemma QuoteStarts(s: string, i: nat, key: string)
    requires At(s, i, Quote(key))
    ensures i < |s| && s[i] == '"'
  {
    hide Esc;
    AtChar(s, i, Quote(key), 0);
  }

  lemma PairParts(s: string, i: nat, pair: Pair)
    requires At(s, i, EncodePair(pair))
    ensures At(s, i, Quote(pair.key)) && i + |Quote(pair.key)| < |s| && s[i + |Quote(pair.key)|] == ':'
    ensures At(s, i + |Quote(pair.key)| + 1, Encode(pair.value))
    ensures |EncodePair(pair)| == |Quote(pair.key)| + 1 + |Encode(pair.value)|
  {
    var key, value := Quote(pair.key), Encode(pair.value);
    assert EncodePair(pair) == key + (":" + value);
    AtSplit(s, i, key, ":" + value);
    AtSplit(s, i + |key|, ":", value);
    AtChar(s, i + |key|, ":", 0);
  }

  /** One printed member: its key decodes, its value is delimited exactly. */
  lemma PairScanned(s: string, i: nat, pair: Pair, colon: nat, end: nat)
    requires WellFormed(pair.value) && At(s, i, EncodePair(pair)) && Terminated(s, end)
    requires colon == i + |Quote(pair.key)| && end == i + |EncodePair(pair)|
    ensures MemberAt(s, i, pair.key, colon, end)
    ensures Shows(s, Slice(colon + 1, end), Encode(pair.value))
  {
    hide At, ValueEnd, StringEnd, DecodeString;
    PairParts(s, i, pair);
    KeyScanned(s, i, pair.key);
    var value := Encode(pair.value);
    assert end == colon + 1 + |value|;
    ValueEndIsExact(s, colon + 1, pair.value);
    AtSlice(s, colon + 1, value);
  }

  /** What the member loop does at a scanned member followed by a comma or a brace. */
  lemma MemberStep(s: string, i: nat, key: string, colon: nat, end: nat, wanted: string)
    requires MemberAt(s, i, key, colon, end) && end < |s| && (s[end] == ',' || s[end] == '}')
    ensures FieldFrom(s, i, wanted) ==
      if key == wanted then Ok(Slice(colon + 1, end))
      else if s[end] == ',' then FieldFrom(s, end + 1, wanted) else Err(MissingField)
  {
    assert SkipSpace(s, i) == i && SkipSpace(s, colon) == colon && SkipSpace(s, end) == end;
  }

  lemma PairsParts(s: string, i: nat, pairs: seq<Pair>)
    requires |pairs| > 1 && At(s, i, EncodePairs(pairs))
    ensures
      var end := i + |EncodePair(pairs[0])|;
      && At(s, i, EncodePair(pairs[0])) && end < |s| && s[end] == ',' && At(s, end + 1, EncodePairs(pairs[1..]))
      && |EncodePairs(pairs)| == |EncodePair(pairs[0])| + 1 + |EncodePairs(pairs[1..])|
  {
    AtJoined(s, i, EncodePair(pairs[0]), EncodePairs(pairs[1..]));
  }

  lemma AtJoined(s: string, i: nat, first: string, rest: string)
    requires At(s, i, first + "," + rest)
    ensures At(s, i, first) && i + |first| < |s| && s[i + |first|] == ',' && At(s, i + |first| + 1, rest)
  {
    assert first + "," + rest == first + ("," + rest);
    AtSplit(s, i, first, "," + rest);
    AtSplit(s, i + |first|, ",", rest);
    AtChar(s, i + |first|, ",", 0);
  }

  lemma {:induction false} FieldFromPrinted(s: string, i: nat, pairs: seq<Pair>, wanted: string)
    requires forall pair :: pair in pairs ==> WellFormed(pair.value)
    requires At(s, i, EncodePairs(pairs)) && i + |EncodePairs(pairs)| < |s| && s[i + |EncodePairs(pairs)|] == '}'
    ensures
      var r, member := FieldFrom(s, i, wanted), Member(pairs, wanted);
      if member.None? then r == Err(MissingField) else r.Ok? && Shows(s, r.value, Encode(member.value))
    decreases |pairs|
  {
    hide At, Quote, EncodePair, Shows, Encode, ValueEnd;
    if pairs != [] {
      hide FieldFrom;
      var pair := pairs[0];
      var colon, end := i + |Quote(pair.key)|, i + |EncodePair(pair)|;
      if |pairs| > 1 {
        PairsParts(s, i, pairs);
        FieldFromPrinted(s, end + 1, pairs[1..], wanted);
      }
      PairScanned(s, i, pair, colon, end);
      MemberStep(s, i, pair.key, colon, end, wanted);
    }
  }

  /** A field lookup on a printed object gives the printed text of the first member with
      that key, and reports a missing field otherwise. */
  lemma ObjectFieldIsExact(pairs: seq<Pair>, wanted: string)
    requires WellFormed(Obj(pairs))
    ensures
      var s, member := Encode(Obj(pairs)), Member(pairs, wanted);
      var r := ObjectField(s, wanted);
      if member.None? then r == Err(MissingField) else r.Ok? && Shows(s, r.value, Encode(member.value))
  {
    hide FieldFrom, Shows, EncodePairs, Member;
    var s, body := Encode(Obj(pairs)), EncodePairs(pairs);
    Bracketed("{", body, "}");
    FieldFromPrinted(s, 1, pairs, wanted);
  }

  /** What the element loop does at a value up to `end` followed by a comma or a bracket. */
  lemma ElementStep(s: string, i: nat, end: nat)
    requires SkipSpace(s, i) == i && ValueEnd(s, i) == Ok(end) && i < |s| && s[i] != ']'
    requires end < |s| && (s[end] == ',' || s[end] == ']')
    ensures ValuesFrom(s, i) ==
      if s[end] == ']' then Ok([s[i..end]]) else After([s[i..end]], ValuesFrom(s, end + 1))
  {
    assert SkipSpace(s, end) == end;
  }

  lemma {:induction false} ValuesFromPrinted(s: string, i: nat, items: seq<Json>)
    requires forall item :: item in items ==> WellFormed(item)
    requires At(s, i, EncodeItems(items)) && i + |EncodeItems(items)| < |s| && s[i + |EncodeItems(items)|] == ']'
    ensures ValuesFrom(s, i) == Ok(Texts(items))
    decreases |items|
  {
    hide At, Encode, ValueEnd;
    if items != [] {
      hide ValuesFrom, Terminated;
      var first := Encode(items[0]);
      if |items| > 1 {
        AtJoined(s, i, first, EncodeItems(items[1..]));
        ValuesFromPrinted(s, i + |first| + 1, items[1..]);
      }
      BeforeSeparator(s, i + |first|);
      ElementScanned(s, i, items[0]);
      ElementStep(s, i, i + |first|);
      TextsCons(items);
      if |items| == 1 {
        assert items[1..] == [] && Texts(items[1..]) == [];
        assert [first] + [] == [first];
      }
    } else {
      assert Texts(items) == [];
      NoValues(s, i);
    }
  }

  lemma NoValues(s: string, i: nat)
    requires i < |s| && s[i] == ']'
    ensures ValuesFrom(s, i) == Ok([])
  {
    hide ValueEnd;
  }

  lemma BeforeSeparator(s: string, end: nat)
    requires end < |s| && (s[end] == ',' || s[end] == ']' || s[end] == '}')
    ensures Terminated(s, end)
  {
  }

  lemma TextsCons(items: seq<Json>)
    requires items != []
    ensures Texts(items) == [Encode(items[0])] + Texts(items[1..])
  {
    hide Encode;
  }

  lemma ElementScanned(s: string, i: nat, item: Json)
    requires WellFormed(item) && At(s, i, Encode(item)) && Terminated(s, i + |Encode(item)|)
    ensures SkipSpace(s, i) == i && ValueEnd(s, i) == Ok(i + |Encode(item)|)
    ensures i < |s| && s[i] != ']' && s[i..i + |Encode(item)|] == Encode(item)
  {
    hide At, ValueEnd, SkipSpace, Encode;
    ValueEndIsExact(s, i, item);
    FirstChar(item);
    AtChar(s, i, Encode(item), 0);
    AtSlice(s, i, Encode(item));
  }

  function Texts(items: seq<Json>): seq<string> {
    seq(|items|, i requires 0 <= i < |items| => Encode(items[i]))
  }

  /** No printed value starts with a closing bracket. */
  lemma FirstChar(v: Json)
    requires WellFormed(v)
    ensures Encode(v) != "" && Encode(v)[0] != ']' && Encode(v)[0] != '}'
  {
    if v.Num? {
      assert v.text[0] in v.text;
    }
  }

  /** The elements of a printed array are the printed texts of its items, in order. */
  lemma ArrayValuesAreExact(items: seq<Json>)
    requires WellFormed(Arr(items))
    ensures ArrayValues(Encode(Arr(items))) == Ok(Texts(items))
  {
    var s, body := Encode(Arr(items)), EncodeItems(items);
    Bracketed("[", body, "]");
    ValuesFromPrinted(s, 1, items);
  }

  lemma Bracketed(left: string, body: string, right: string)
    requires |left| == |right| == 1
    ensures
      var s := left + body + right;
      At(s, 1, body) && s[0] == left[0] && 1 + |body| < |s| && s[1 + |body|] == right[0]
  {
  }
}
