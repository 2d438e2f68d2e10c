/** The lexicographic order of strings and strictly ascending lists. */
module Ordering {
  predicate LexLess(a: string, b: string) {
    b != "" && (a == "" || a[0] < b[0] || (a[0] == b[0] && LexLess(a[1..], b[1..])))
  }

  lemma {:induction false} LexIrreflexive(a: string)
    ensures !LexLess(a, a)
  {
    if a != "" { LexIrreflexive(a[1..]); }
  }

  lemma {:induction false} LexTransitive(a: string, b: string, c: string)
    requires LexLess(a, b) && LexLess(b, c)
    ensures LexLess(a, c)
  {
    if a != "" && a[0] == b[0] == c[0] {
      LexTransitive(a[1..], b[1..], c[1..]);
    }
  }

  lemma {:induction false} LexTotal(a: string, b: string)
    ensures LexLess(a, b) || a == b || LexLess(b, a)
  {
    if a != "" && b != "" && a[0] == b[0] {
      LexTotal(a[1..], b[1..]);
      assert a == [a[0]] + a[1..] && b == [b[0]] + b[1..];
    }
  }

  predicate Ascending(list: seq<string>) {
    forall i, j :: 0 <= i < j < |list| ==> LexLess(list[i], list[j])
  }

  lemma AscendingDistinct(list: seq<string>, i: nat, j: nat)
    requires Ascending(list) && i < j < |list|
    ensures list[i] != list[j]
  {
    LexIrreflexive(list[i]);
  }

  /** A set has only one strictly ascending listing. */
  lemma {:induction false} AscendingUnique(a: seq<string>, b: seq<string>)
    requires Ascending(a) && Ascending(b)
    requires forall x :: x in a <==> x in b
    ensures a == b
  {
    if a == [] {
      if b != [] {
        FirstMember(b);
      }
    } else {
      assert a[0] in b;
      assert b[0] in b && b[0] in a;
      FirstIsLeast(a, b[0]);
      FirstIsLeast(b, a[0]);
      if a[0] != b[0] {
        LexTransitive(a[0], b[0], a[0]);
        LexIrreflexive(a[0]);
      }
      forall x
        ensures x in a[1..] <==> x in b[1..]
      {
        InTail(a, x);
        InTail(b, x);
      }
      AscendingUnique(a[1..], b[1..]);
      assert a == [a[0]] + a[1..] && b == [b[0]] + b[1..];
    }
  }

  lemma FirstMember(a: seq<string>)
    requires a != []
    ensures exists x :: x in a
  {
    assert a[0] in a;
  }

  lemma FirstIsLeast(a: seq<string>, x: string)
    requires Ascending(a) && x in a
    ensures a[0] == x || LexLess(a[0], x)
  {
  }

  lemma InTail(a: seq<string>, x: string)
    requires Ascending(a) && a != []
    ensures x in a[1..] <==> x in a && x != a[0]
  {
    if x in a[1..] {
      var i :| 0 <= i < |a[1..]| && a[1..][i] == x;
      AscendingDistinct(a, 0, i + 1);
    }
    assert a == [a[0]] + a[1..];
  }

  /** The position at which `x` keeps an ascending list ascending. */
  function Insert(list: seq<string>, x: string): (r: seq<string>)
    requires Ascending(list) && x !in list
    ensures Ascending(r) && forall y :: y in r <==> y in list || y == x
  {
    if list == [] then [x]
    else if LexLess(x, list[0]) then
      InsertFront(list, x);
      [x] + list
    else
      LexTotal(x, list[0]);
      assert list == [list[0]] + list[1..];
      InTail(list, x);
      var rest := Insert(list[1..], x);
      InsertBack(list, x, rest);
      [list[0]] + rest
  }

  lemma InsertFront(list: seq<string>, x: string)
    requires Ascending(list) && list != [] && LexLess(x, list[0])
    ensures Ascending([x] + list)
  {
    forall j | 0 <= j < |list|
      ensures LexLess(x, list[j])
    {
      if j > 0 { LexTransitive(x, list[0], list[j]); }
    }
  }

  lemma InsertBack(list: seq<string>, x: string, rest: seq<string>)
    requires Ascending(list) && list != [] && LexLess(list[0], x) && Ascending(rest)
    requires forall y :: y in rest <==> y in list[1..] || y == x
    ensures Ascending([list[0]] + rest)
  {
    forall j | 0 <= j < |rest|
      ensures LexLess(list[0], rest[j])
    {
      assert rest[j] in rest;
      if rest[j] != x {
        var i :| 0 <= i < |list[1..]| && list[1..][i] == rest[j];
      }
    }
  }
}
