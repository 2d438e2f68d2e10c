/** The JSON values a client builds, their printed text, and the raw scanner that finds
    where a value ends without parsing it. */
module JsonText {
  import opened Common
  import opened Hexadecimal

  /** Numbers are kept as the text they print as. */
  datatype Json =
    | Null
    | Bool(b: bool)
    | Num(text: string)
    | Str(s: string)
    | Arr(items: seq<Json>)
    | Obj(pairs: seq<Pair>)

  datatype Pair = Pair(key: string, value: Json)

  predicate NumberText(text: string) {
    text != "" && forall c :: c in text ==>
      '0' <= c <= '9' || 'a' <= c <= 'z' || 'A' <= c <= 'Z' || c == '-' || c == '+' || c == '.'
  }

  predicate WellFormed(v: Json)
    decreases v
  {
    match v
    case Num(text) => NumberText(text)
    case Arr(items) => forall item :: item in items ==> WellFormed(item)
    case Obj(pairs) => forall pair :: pair in pairs ==> WellFormed(pair.value)
    case _ => true
  }

  // ---------- the printer ----------

  function EscChar(c: char): (text: string)
    ensures text != ""
  {
    if c == '"' then "\\\""
    else if c == '\\' then "\\\\"
    else if c == '\n' then "\\n"
    else if c == '\r' then "\\r"
    else if c == '\t' then "\\t"
    else if c == '\U{08}' then "\\b"
    else if c == '\U{0C}' then "\\f"
    else if c < '\U{20}' then "\\u" + Hex(c as nat, 4)
    else [c]
  }

  function Esc(s: string): string {
    if s == "" then "" else EscChar(s[0]) + Esc(s[1..])
  }

  function Quote(s: string): string {
    "\"" + Esc(s) + "\""
  }

  function Encode(v: Json): string
    decreases v
  {
    match v
    case Null => "null"
    case Bool(b) => if b then "true" else "false"
    case Num(text) => text
    case Str(s) => Quote(s)
    case Arr(items) => "[" + EncodeItems(items) + "]"
    case Obj(pairs) => "{" + EncodePairs(pairs) + "}"
  }

  function EncodeItems(items: seq<Json>): string
    decreases items
  {
    if items == [] then ""
    else if |items| == 1 then Encode(items[0])
    else Encode(items[0]) + "," + EncodeItems(items[1..])
  }

  function EncodePair(pair: Pair): string
    decreases pair
  {
    Quote(pair.key) + ":" + Encode(pair.value)
  }

  function EncodePairs(pairs: seq<Pair>): string
    decreases pairs
  {
    if pairs == [] then ""
    else if |pairs| == 1 then EncodePair(pairs[0])
    else EncodePair(pairs[0]) + "," + EncodePairs(pairs[1..])
  }

  // ---------- the scanner ----------

  datatype JsonError =
    | ExpectedString
    | ControlByte
    | UnterminatedString
    | MismatchedContainer
    | UnterminatedContainer
    | MissingValue
    | ExpectedObject
    | ExpectedArray
    | MissingColon
    | BadSeparator
    | MissingField
    | BadEscape

  predicate Space(c: char) {
    c == ' ' || c == '\t' || c == '\n' || c == '\U{0C}' || c == '\r'
  }

  /** Ends a bare literal: a comma, a closing bracket or white space. */
  predicate Delimiter(c: char) {
    c == ',' || c == ']' || c == '}' || Space(c)
  }

  function SkipSpace(s: string, i: nat): (j: nat)
    ensures i <= j && (i <= |s| ==> j <= |s|) && (j < |s| ==> !Space(s[j]))
    decreases |s| - i
  {
    if i < |s| && Space(s[i]) then SkipSpace(s, i + 1) else i
  }

  /** The end of a string whose contents start at `i`. */
  function ContentsEnd(s: string, i: nat): (r: Result<nat, JsonError>)
    ensures r.Ok? ==> i < r.value <= |s|
    decreases |s| - i
  {
    if i >= |s| then Err(UnterminatedString)
    else if s[i] == '"' then Ok(i + 1)
    else if s[i] == '\\' then ContentsEnd(s, i + 2)
    else if s[i] < '\U{20}' then Err(ControlByte)
    else ContentsEnd(s, i + 1)
  }

  function StringEnd(s: string, start: nat): (r: Result<nat, JsonError>)
    ensures r.Ok? ==> start < r.value <= |s|
  {
    if start >= |s| || s[start] != '"' then Err(ExpectedString) else ContentsEnd(s, start + 1)
  }

  /** Scan from `i` until the containers on `stack` are closed, innermost last. */
  function ContainerEnd(s: string, i: nat, stack: string): (r: Result<nat, JsonError>)
    ensures r.Ok? ==> i < r.value <= |s|
    decreases |s| - i
  {
    if i >= |s| then Err(UnterminatedContainer)
    else if s[i] == '"' then
      var end := StringEnd(s, i);
      if end.Err? then end else ContainerEnd(s, end.value, stack)
    else if s[i] == '{' then ContainerEnd(s, i + 1, stack + "}")
    else if s[i] == '[' then ContainerEnd(s, i + 1, stack + "]")
    else if s[i] == '}' || s[i] == ']' then
      if stack == "" || stack[|stack| - 1] != s[i] then Err(MismatchedContainer)
      else if |stack| == 1 then Ok(i + 1)
      else ContainerEnd(s, i + 1, stack[..|stack| - 1])
    else ContainerEnd(s, i + 1, stack)
  }

  function LiteralEnd(s: string, i: nat): (j: nat)
    ensures i <= j && (i <= |s| ==> j <= |s|)
    decreases |s| - i
  {
    if i < |s| && !Delimiter(s[i]) then LiteralEnd(s, i + 1) else i
  }

  function Closing(c: char): string {
    if c == '{' then "}" else "]"
  }

  function ValueEnd(s: string, start: nat): (r: Result<nat, JsonError>)
    ensures r.Ok? ==> start < r.value <= |s|
  {
    var i := SkipSpace(s, start);
    if i >= |s| then Err(MissingValue)
    else if s[i] == '"' then StringEnd(s, i)
    else if s[i] == '{' || s[i] == '[' then ContainerEnd(s, i + 1, Closing(s[i]))
    else if LiteralEnd(s, i) == i then Err(MissingValue)
    else Ok(LiteralEnd(s, i))
  }

  method SkipJsonSpace(bytes: string, start: nat) returns (index: nat)
    ensures index == SkipSpace(bytes, start)
  {
    index := start;
    while index < |bytes| && Space(bytes[index])
      invariant SkipSpace(bytes, start) == SkipSpace(bytes, index)
      decreases |bytes| - index
    {
      index := index + 1;
    }
  }

  method JsonStringEnd(bytes: string, start: nat) returns (end: Result<nat, JsonError>)
    ensures end == StringEnd(bytes, start)
  {
    if start >= |bytes| || bytes[start] != '"' {
      return Err(ExpectedString);
    }
    var index := start + 1;
    while index < |bytes|
      invariant ContentsEnd(bytes, start + 1) == ContentsEnd(bytes, index)
      decreases |bytes| - index
    {
      var c := bytes[index];
      if c == '"' {
        return Ok(index + 1);
      } else if c == '\\' {
        index := index + 2;
      } else if c < '\U{20}' {
        return Err(ControlByte);
      } else {
        index := index + 1;
      }
    }
    return Err(UnterminatedString);
  }

  method JsonValueEnd(bytes: string, start: nat) returns (end: Result<nat, JsonError>)
    ensures end == ValueEnd(bytes, start)
  {
    var first := SkipJsonSpace(bytes, start);
    if first >= |bytes| {
      return Err(MissingValue);
    }
    if bytes[first] == '"' {
      end := JsonStringEnd(bytes, first);
      return;
    }
    if bytes[first] == '{' || bytes[first] == '[' {
      var stack := if bytes[first] == '{' then "}" else "]";
      var index := first + 1;
      while index < |bytes|
        invariant ContainerEnd(bytes, first + 1, Closing(bytes[first])) == ContainerEnd(bytes, index, stack)
        decreases |bytes| - index
      {
        var c := bytes[index];
        if c == '"' {
          var stringEnd := JsonStringEnd(bytes, index);
          if stringEnd.Err? {
            return stringEnd;
          }
          index := stringEnd.value;
        } else if c == '{' {
          stack, index := stack + "}", index + 1;
        } else if c == '[' {
          stack, index := stack + "]", index + 1;
        } else if c == '}' || c == ']' {
          if stack == "" || stack[|stack| - 1] != c {
            return Err(MismatchedContainer);
          }
          stack, index := stack[..|stack| - 1], index + 1;
          if stack == "" {
            return Ok(index);
          }
        } else {
          index := index + 1;
        }
      }
      return Err(UnterminatedContainer);
    }
    var index := first;
    while index < |bytes| && !Delimiter(bytes[index])
      invariant LiteralEnd(bytes, first) == LiteralEnd(bytes, index) && first <= index
      decreases |bytes| - index
    {
      index := index + 1;
    }
    return if index == first then Err(MissingValue) else Ok(index);
  }
}
