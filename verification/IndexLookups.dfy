/** What prefix, suffix and substring lookups find among the keys of a document. */
module IndexLookups {
  import opened Common
  import opened Documents
  import opened IndexKeys
  import Uri

  /** The key prefix a lookup for `text` scans. */
  function ScanPrefix(path: string, kind: string, text: string): string {
    EncodeFieldPath(path) + "/" + kind + "/" + Uri.Encode(text)
  }

  predicate Suffix(tail: string, text: string) {
    |tail| <= |text| && text[|text| - |tail|..] == tail
  }

  lemma {:induction false} ReverseAppend(a: string, b: string)
    ensures Reverse(a + b) == Reverse(b) + Reverse(a)
  {
    if a == "" {
      assert a + b == b;
    } else {
      assert (a + b)[1..] == a[1..] + b;
      ReverseAppend(a[1..], b);
    }
  }

  lemma {:induction false} ReverseTwice(a: string)
    ensures Reverse(Reverse(a)) == a && |Reverse(a)| == |a|
  {
    if a != "" {
      ReverseTwice(a[1..]);
      ReverseAppend(Reverse(a[1..]), [a[0]]);
      assert [a[0]][1..] == "";
      assert Reverse([a[0]]) == [a[0]];
      assert a == [a[0]] + a[1..];
    }
  }

  lemma ReversePrefix(tail: string, text: string)
    ensures Reverse(tail) <= Reverse(text) <==> Suffix(tail, text)
  {
    if Suffix(tail, text) {
      ReverseAppend(text[..|text| - |tail|], tail);
      assert text == text[..|text| - |tail|] + tail;
    }
    if Reverse(tail) <= Reverse(text) {
      var rest := Reverse(text)[|Reverse(tail)|..];
      assert Reverse(text) == Reverse(tail) + rest;
      ReverseAppend(Reverse(tail), rest);
      ReverseTwice(text);
      ReverseTwice(tail);
      assert text == Reverse(rest) + tail;
    }
  }

  /** A term without the separator is a prefix of `token/...` only if it is of `token`. */
  lemma PrefixBeforeSeparator(term: string, token: string, rest: string)
    requires '/' !in term
    ensures term <= token + ("/" + rest) <==> term <= token
  {
    var whole := token + ("/" + rest);
    assert whole[|token|] == '/';
    assert forall i :: 0 <= i < |term| ==> term[i] in term;
    if term <= token {
      assert whole[..|term|] == token[..|term|];
    }
  }

  lemma ScanPrefixSelects(path: string, kind: string, text: string, value: string, documentId: string)
    ensures ScanPrefix(path, kind, text) <= IndexKey(path, kind, Uri.Encode(value), documentId) <==> text <= value
  {
    hide EncodeFieldPath, Uri.Encode;
    var head := EncodeFieldPath(path) + "/" + kind + "/";
    var term, token, id := Uri.Encode(text), Uri.Encode(value), Uri.Encode(documentId);
    assert IndexKey(path, kind, token, documentId) == head + (token + ("/" + id));
    assert ScanPrefix(path, kind, text) == head + term;
    SameHead(head, term, token + ("/" + id));
    Uri.EncodeAlphabet(text);
    PrefixBeforeSeparator(term, token, id);
    Uri.EncodeIsPrefixCode(text, value);
  }

  lemma SameHead(head: string, a: string, b: string)
    ensures head + a <= head + b <==> a <= b
  {
    var l, r := head + a, head + b;
    assert l[|head|..] == a && r[|head|..] == b;
    if a <= b {
      assert r[..|l|] == head + b[..|a|];
    }
  }

  /** For a string whose encoding fits, a prefix lookup selects its `f` key exactly on the
      prefixes of the stored text and a suffix lookup its `r` key exactly on the suffixes;
      the trigrams of every substring have keys, since the source cap is never reached. */
  lemma TextLookupsAreExact(leaf: Leaf, value: string, documentId: string)
    requires |Uri.Encode(value)| <= MAX_STRING_PREFIX_BYTES
    ensures
      var keys := TextKeys(leaf, value, documentId);
      && var f, r := IndexKey(leaf.path, "f", Uri.Encode(value), documentId),
                     IndexKey(leaf.path, "r", Uri.Encode(Reverse(value)), documentId);
      && f in keys && r in keys
      && (forall text :: ScanPrefix(leaf.path, "f", text) <= f <==> text <= value)
      && (forall text :: ScanPrefix(leaf.path, "r", Reverse(text)) <= r <==> Suffix(text, value))
      && (forall i: nat, j: nat :: i <= j <= |value| ==>
            GramKeys(leaf.path, Grams(value[i..j]), documentId) <= keys)
  {
    var keys := TextKeys(leaf, value, documentId);
    forall text
      ensures ScanPrefix(leaf.path, "f", text) <= IndexKey(leaf.path, "f", Uri.Encode(value), documentId)
              <==> text <= value
    {
      ScanPrefixSelects(leaf.path, "f", text, value, documentId);
    }
    forall text
      ensures
        ScanPrefix(leaf.path, "r", Reverse(text)) <= IndexKey(leaf.path, "r", Uri.Encode(Reverse(value)), documentId)
        <==> Suffix(text, value)
    {
      ScanPrefixSelects(leaf.path, "r", Reverse(text), Reverse(value), documentId);
      ReversePrefix(text, value);
    }
    Uri.EncodeAlphabet(value);
    assert Capped(value) == value;
    forall i: nat, j: nat | i <= j <= |value|
      ensures GramKeys(leaf.path, Grams(value[i..j]), documentId) <= keys
    {
      SubstringGrams(value, i, j);
    }
  }

  lemma SubstringGrams(value: string, i: nat, j: nat)
    requires i <= j <= |value|
    ensures Grams(value[i..j]) <= Grams(value)
  {
    forall gram | gram in Grams(value[i..j])
      ensures gram in Grams(value)
    {
      var k: nat :| k <= j - i - NGRAM_SIZE && gram == Gram(value[i..j], k);
      SliceOfSlice(value, i, j, k, k + NGRAM_SIZE);
      assert gram == Gram(value, i + k);
    }
  }

  lemma SliceOfSlice<T>(list: seq<T>, i: nat, j: nat, a: nat, b: nat)
    requires i <= j <= |list| && a <= b <= j - i
    ensures list[i..j][a..b] == list[i + a..i + b]
  {
    var part := list[i..j];
    forall k | a <= k < b
      ensures part[k] == list[i + k]
    {
    }
    assert |part[a..b]| == |list[i + a..i + b]|;
    forall k | 0 <= k < b - a
      ensures part[a..b][k] == list[i + a..i + b][k]
    {
      assert part[a..b][k] == part[a + k] == list[i + (a + k)];
      assert list[i + a..i + b][k] == list[i + a + k];
    }
  }

  /** The stored text of a prefix, suffix or substring is one of the whole stored text. */
  lemma EscapeKeepsParts(a: string, b: string, c: string)
    ensures Escape(a) <= Escape(a + b) && Suffix(Escape(c), Escape(b + c))
    ensures Escape(a + (b + c)) == Escape(a) + (Escape(b) + Escape(c))
  {
    EscapeAppend(a, b);
    EscapeAppend(b, c);
    EscapeAppend(a, b + c);
    SuffixOfAppend(Escape(b), Escape(c));
  }

  lemma SuffixOfAppend(head: string, tail: string)
    ensures Suffix(tail, head + tail)
  {
  }
}
