/** The raw scanner skips exactly one printed value. */
module JsonScan {
  import opened Common
  import opened Hexadecimal
  import opened JsonText

  /** `t` stands at position `i` of `s`. */
  predicate At(s: string, i: nat, t: string) {
    i + |t| <= |s| && forall k {:trigger t[k]} :: 0 <= k < |t| ==> s[i + k] == t[k]
  }

  lemma AtSplit(s: string, i: nat, a: string, b: string)
    ensures At(s, i, a + b) <==> At(s, i, a) && At(s, i + |a|, b)
  {
    var t := a + b;
    if At(s, i, t) {
      forall k | 0 <= k < |a|
        ensures s[i + k] == a[k]
      {
        assert t[k] == a[k];
      }
      forall k | 0 <= k < |b|
        ensures s[i + |a| + k] == b[k]
      {
        assert t[|a| + k] == b[k];
      }
    }
    if At(s, i, a) && At(s, i + |a|, b) {
      forall k | 0 <= k < |t|
        ensures s[i + k] == t[k]
      {
        if k < |a| {
          assert t[k] == a[k];
        } else {
          assert t[k] == b[k - |a|];
        }
      }
    }
  }

  lemma AtChar(s: string, i: nat, t: string, k: nat)
    requires At(s, i, t) && k < |t|
    ensures s[i + k] == t[k]
  {
  }

  lemma {:induction false} HexDigits(n: nat, width: nat, k: nat)
    requires k < width
    ensures var c := Hex(n, width)[k]; '0' <= c <= '9' || 'a' <= c <= 'f'
  {
    if k < width - 1 {
      HexDigits(n / 16, width - 1, k);
    }
  }

  /** One escaped character is stepped over without leaving the string. */
  lemma EscCharContents(s: string, i: nat, c: char)
    requires At(s, i, EscChar(c))
    ensures ContentsEnd(s, i) == ContentsEnd(s, i + |EscChar(c)|)
  {
    var t := EscChar(c);
    AtChar(s, i, t, 0);
    if |t| == 6 {
      forall k | 2 <= k < 6
        ensures s[i + k] == t[k] && (('0' <= t[k] <= '9') || ('a' <= t[k] <= 'f'))
      {
        AtChar(s, i, t, k);
        HexDigits(c as nat, 4, k - 2);
      }
      assert ContentsEnd(s, i) == ContentsEnd(s, i + 2);
      assert s[i + 2] == t[2] && s[i + 3] == t[3] && s[i + 4] == t[4] && s[i + 5] == t[5];
      assert ContentsEnd(s, i + 2) == ContentsEnd(s, i + 3);
      assert ContentsEnd(s, i + 3) == ContentsEnd(s, i + 4);
      assert ContentsEnd(s, i + 4) == ContentsEnd(s, i + 5);
      assert ContentsEnd(s, i + 5) == ContentsEnd(s, i + 6);
    } else if |t| == 2 {
      AtChar(s, i, t, 1);
    }
  }

  lemma {:induction false} EscContents(s: string, i: nat, text: string)
    requires At(s, i, Esc(text))
    ensures ContentsEnd(s, i) == ContentsEnd(s, i + |Esc(text)|)
    decreases |text|
  {
    hide EscChar, ContentsEnd;
    if text != "" {
      var a, b := EscChar(text[0]), Esc(text[1..]);
      AtSplit(s, i, a, b);
      EscCharContents(s, i, text[0]);
      EscContents(s, i + |a|, text[1..]);
    }
  }

  lemma QuotedEnd(s: string, i: nat, text: string)
    requires At(s, i, Quote(text))
    ensures StringEnd(s, i) == Ok(i + |Quote(text)|)
  {
    hide Esc;
    var body := Esc(text);
    assert Quote(text) == "\"" + (body + "\"");
    AtSplit(s, i, "\"", body + "\"");
    AtSplit(s, i + 1, body, "\"");
    AtChar(s, i, "\"", 0);
    AtChar(s, i + 1 + |body|, "\"", 0);
    EscContents(s, i + 1, text);
  }

  /** Text the container scan steps over one character at a time. */
  predicate Inert(t: string) {
    forall c :: c in t ==> c != '"' && c != '{' && c != '[' && c != '}' && c != ']'
  }

  lemma {:induction false} InertSkipped(s: string, i: nat, t: string, stack: string)
    requires At(s, i, t) && Inert(t)
    ensures ContainerEnd(s, i, stack) == ContainerEnd(s, i + |t|, stack)
    decreases |t|
  {
    if t != "" {
      AtChar(s, i, t, 0);
      assert t[0] in t && forall c :: c in t[1..] ==> c in t;
      assert t == t[..1] + t[1..];
      AtSplit(s, i, t[..1], t[1..]);
      InertSkipped(s, i + 1, t[1..], stack);
    }
  }

  lemma QuoteSkipped(s: string, i: nat, text: string, stack: string)
    requires At(s, i, Quote(text))
    ensures ContainerEnd(s, i, stack) == ContainerEnd(s, i + |Quote(text)|, stack)
  {
    QuotedEnd(s, i, text);
    AtChar(s, i, Quote(text), 0);
  }

  /** Inside a container, a printed value is stepped over with the stack unchanged. */
  lemma {:induction false} ValueSkipped(s: string, i: nat, v: Json, stack: string)
    requires WellFormed(v) && At(s, i, Encode(v)) && stack != ""
    ensures ContainerEnd(s, i, stack) == ContainerEnd(s, i + |Encode(v)|, stack)
    decreases v, 1
  {
    hide ContainerEnd, At, EncodeItems, EncodePairs, Quote;
    match v
    case Str(text) => QuoteSkipped(s, i, text, stack);
    case Arr(items) =>
      BracketsSkipped(s, i, '[', EncodeItems(items), stack);
      ItemsSkipped(s, i + 1, items, stack + "]");
    case Obj(pairs) =>
      BracketsSkipped(s, i, '{', EncodePairs(pairs), stack);
      PairsSkipped(s, i + 1, pairs, stack + "}");
    case _ => InertSkipped(s, i, Encode(v), stack);
  }

  /** An opening bracket pushes its closing one; that one, met with it on top, pops it. */
  lemma BracketsSkipped(s: string, i: nat, bracket: char, body: string, stack: string)
    requires bracket == '{' || bracket == '['
    requires At(s, i, [bracket] + body + Closing(bracket))
    ensures At(s, i + 1, body)
    ensures ContainerEnd(s, i, stack) == ContainerEnd(s, i + 1, stack + Closing(bracket))
    ensures ContainerEnd(s, i + 1 + |body|, stack + Closing(bracket)) ==
            if stack == "" then Ok(i + 1 + |body| + 1) else ContainerEnd(s, i + 1 + |body| + 1, stack)
  {
    hide At, ContainerEnd, Closing;
    assert |Closing(bracket)| == 1 by { ClosingIsOne(bracket); }
    assert [bracket] + body + Closing(bracket) == [bracket] + (body + Closing(bracket));
    AtSplit(s, i, [bracket], body + Closing(bracket));
    AtSplit(s, i + 1, body, Closing(bracket));
    AtWithin(s, i, [bracket]);
    AtWithin(s, i + 1 + |body|, Closing(bracket));
    AtChar(s, i, [bracket], 0);
    AtChar(s, i + 1 + |body|, Closing(bracket), 0);
    BracketPushed(s, i, stack);
    BracketPopped(s, i + 1 + |body|, bracket, stack);
  }

  lemma ClosingIsOne(bracket: char)
    ensures |Closing(bracket)| == 1
  {
  }

  lemma BracketPushed(s: string, i: nat, stack: string)
    requires i < |s| && (s[i] == '{' || s[i] == '[')
    ensures ContainerEnd(s, i, stack) == ContainerEnd(s, i + 1, stack + Closing(s[i]))
  {
    hide StringEnd;
  }

  lemma BracketPopped(s: string, i: nat, bracket: char, stack: string)
    requires (bracket == '{' || bracket == '[') && i < |s| && [s[i]] == Closing(bracket)
    ensures ContainerEnd(s, i, stack + Closing(bracket)) == if stack == "" then Ok(i + 1) else ContainerEnd(s, i + 1, stack)
  {
    hide StringEnd;
    var pushed := stack + Closing(bracket);
    assert pushed[..|pushed| - 1] == stack;
  }

  lemma AtWithin(s: string, i: nat, t: string)
    requires At(s, i, t)
    ensures i + |t| <= |s|
  {
  }

  lemma {:induction false} ItemsSkipped(s: string, i: nat, items: seq<Json>, stack: string)
    requires (forall item :: item in items ==> WellFormed(item)) && At(s, i, EncodeItems(items)) && stack != ""
    ensures ContainerEnd(s, i, stack) == ContainerEnd(s, i + |EncodeItems(items)|, stack)
    decreases items, 0
  {
    hide ContainerEnd, At;
    if items != [] {
      var first := Encode(items[0]);
      if |items| > 1 {
        var rest := EncodeItems(items[1..]);
        assert EncodeItems(items) == first + ("," + rest);
        AtSplit(s, i, first, "," + rest);
        AtSplit(s, i + |first|, ",", rest);
        ValueSkipped(s, i, items[0], stack);
        InertSkipped(s, i + |first|, ",", stack);
        ItemsSkipped(s, i + |first| + 1, items[1..], stack);
      } else {
        ValueSkipped(s, i, items[0], stack);
      }
    }
  }

  lemma {:induction false} PairSkipped(s: string, i: nat, pair: Pair, stack: string)
    requires WellFormed(pair.value) && At(s, i, EncodePair(pair)) && stack != ""
    ensures ContainerEnd(s, i, stack) == ContainerEnd(s, i + |EncodePair(pair)|, stack)
    decreases pair, 2
  {
    hide ContainerEnd, At;
    var key, value := Quote(pair.key), Encode(pair.value);
    assert EncodePair(pair) == key + (":" + value);
    AtSplit(s, i, key, ":" + value);
    AtSplit(s, i + |key|, ":", value);
    QuoteSkipped(s, i, pair.key, stack);
    InertSkipped(s, i + |key|, ":", stack);
    ValueSkipped(s, i + |key| + 1, pair.value, stack);
  }

  lemma {:induction false} PairsSkipped(s: string, i: nat, pairs: seq<Pair>, stack: string)
    requires (forall pair :: pair in pairs ==> WellFormed(pair.value)) && At(s, i, EncodePairs(pairs)) && stack != ""
    ensures ContainerEnd(s, i, stack) == ContainerEnd(s, i + |EncodePairs(pairs)|, stack)
    decreases pairs, 0
  {
    hide ContainerEnd, At, EncodePair;
    if pairs != [] {
      var first := EncodePair(pairs[0]);
      if |pairs| > 1 {
        var rest := EncodePairs(pairs[1..]);
        assert EncodePairs(pairs) == first + ("," + rest);
        AtSplit(s, i, first, "," + rest);
        AtSplit(s, i + |first|, ",", rest);
        PairSkipped(s, i, pairs[0], stack);
        InertSkipped(s, i + |first|, ",", stack);
        PairsSkipped(s, i + |first| + 1, pairs[1..], stack);
      } else {
        PairSkipped(s, i, pairs[0], stack);
      }
    }
  }

  /** Whether the text after a value lets a bare literal end: nothing, or a delimiter. */
  predicate Terminated(s: string, i: nat) {
    i >= |s| || Delimiter(s[i])
  }

  lemma {:induction false} LiteralSkipped(s: string, i: nat, t: string)
    requires At(s, i, t) && (forall c :: c in t ==> !Delimiter(c)) && Terminated(s, i + |t|)
    ensures LiteralEnd(s, i) == i + |t|
    decreases |t|
  {
    if t != "" {
      AtChar(s, i, t, 0);
      assert t[0] in t;
      assert t == t[..1] + t[1..];
      AtSplit(s, i, t[..1], t[1..]);
      LiteralSkipped(s, i + 1, t[1..]);
    }
  }

  lemma ScalarValueEnd(s: string, i: nat, v: Json)
    requires WellFormed(v) && At(s, i, Encode(v)) && !v.Str? && !v.Arr? && !v.Obj?
    requires Terminated(s, i + |Encode(v)|)
    ensures ValueEnd(s, i) == Ok(i + |Encode(v)|) && Encode(v) != "" && SkipSpace(s, i) == i
  {
    var t := Encode(v);
    AtChar(s, i, t, 0);
    assert t[0] in t;
    LiteralSkipped(s, i, t);
  }

  lemma StringValueEnd(s: string, i: nat, text: string)
    requires At(s, i, Quote(text))
    ensures ValueEnd(s, i) == Ok(i + |Quote(text)|) && Quote(text) != "" && SkipSpace(s, i) == i
  {
    hide StringEnd;
    AtChar(s, i, Quote(text), 0);
    QuotedEnd(s, i, text);
  }

  lemma ContainerValueEnd(s: string, i: nat, bracket: char, body: string)
    requires (bracket == '[' || bracket == '{') && At(s, i, [bracket] + body + Closing(bracket))
    requires ContainerEnd(s, i + 1, Closing(bracket)) == ContainerEnd(s, i + 1 + |body|, Closing(bracket))
    ensures ValueEnd(s, i) == Ok(i + |body| + 2) && SkipSpace(s, i) == i
  {
    hide ContainerEnd, At, StringEnd;
    BracketsSkipped(s, i, bracket, body, "");
    AtChar(s, i, [bracket] + body + Closing(bracket), 0);
    assert "" + Closing(bracket) == Closing(bracket);
  }

  /** The scanner stops exactly at the end of a printed value.  Strings and containers
      delimit themselves; a bare literal needs a delimiter or the end of input after it. */
  lemma ValueEndIsExact(s: string, i: nat, v: Json)
    requires WellFormed(v) && At(s, i, Encode(v))
    requires !v.Str? && !v.Arr? && !v.Obj? ==> Terminated(s, i + |Encode(v)|)
    ensures ValueEnd(s, i) == Ok(i + |Encode(v)|) && Encode(v) != "" && SkipSpace(s, i) == i
  {
    hide ValueEnd, ContainerEnd, At, EncodeItems, EncodePairs, Quote, Terminated, SkipSpace;
    match v
    case Str(text) => StringValueEnd(s, i, text);
    case Arr(items) =>
      BracketsSkipped(s, i, '[', EncodeItems(items), "");
      ItemsSkipped(s, i + 1, items, "]");
      ContainerValueEnd(s, i, '[', EncodeItems(items));
    case Obj(pairs) =>
      BracketsSkipped(s, i, '{', EncodePairs(pairs), "");
      PairsSkipped(s, i + 1, pairs, "}");
      ContainerValueEnd(s, i, '{', EncodePairs(pairs));
    case _ => ScalarValueEnd(s, i, v);
  }
}
