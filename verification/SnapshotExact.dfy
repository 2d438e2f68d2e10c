/** Exactly which accepted index files every prefix search finds its keys in: where blank
    lines may stand. */
module SnapshotExact {
  import opened Common
  import opened Ordering
  import opened IndexSnapshot

  // ---------- the lines a scan looks at ----------

  /** The lines the loop visits from a cursor on. */
  function Visited(s: string, cursor: nat, prefix: string): seq<string>
    decreases |s| - cursor
  {
    if cursor >= |s| || !(prefix <= LineAt(s, cursor)) then []
    else [LineAt(s, cursor)] + Visited(s, LineEnd(s, cursor) + 1, prefix)
  }

  lemma {:induction false} ScanCollectsVisited(s: string, cursor: nat, query: Query, found: seq<string>)
    ensures ScanFrom(s, cursor, query, found) == Collect(Visited(s, cursor, query.prefix), query, found)
    decreases |s| - cursor
  {
    hide Contribution;
    if cursor < |s| && query.prefix <= LineAt(s, cursor) {
      var next := LineEnd(s, cursor) + 1;
      ScanCollectsVisited(s, next, query, Note(found, Contribution(LineAt(s, cursor), query)));
      var rest := Visited(s, next, query.prefix);
      assert ([LineAt(s, cursor)] + rest)[1..] == rest;
    }
  }

  /** Every key with the prefix is visited. */
  ghost predicate Complete(s: string, prefix: string) {
    forall key :: key in NonBlank(Lines(s, 0)) && prefix <= key ==> key in Visited(s, FirstAtOrAfter(s, prefix), prefix)
  }

  predicate Start(s: string, p: nat) {
    p < |s| && LineStart(s, p)
  }

  predicate KeyAt(s: string, p: nat) {
    Start(s, p) && LineAt(s, p) != ""
  }

  /** All lines from the cursor to `q` have the prefix. */
  ghost predicate Reaches(s: string, cursor: nat, prefix: string, q: nat) {
    cursor <= q && forall r: nat :: cursor <= r <= q && Start(s, r) ==> prefix <= LineAt(s, r)
  }

  lemma KeysDiffer(s: string, p: nat, q: nat)
    requires Accepted(s) && Start(s, p) && KeyAt(s, q) && p != q
    ensures LineAt(s, p) != LineAt(s, q)
  {
    hide Accepted, LexLess, LineAt;
    if LineAt(s, p) != "" {
      AcceptedAbove(s, if p < q then p else q, if p < q then q else p);
      LexIrreflexive(LineAt(s, q));
    }
  }

  lemma ReachesNext(s: string, cursor: nat, prefix: string, q: nat)
    requires Start(s, cursor) && Start(s, q) && cursor < q && prefix <= LineAt(s, cursor)
    ensures LineStart'(s, LineEnd(s, cursor) + 1)
    ensures Reaches(s, cursor, prefix, q) <==> Reaches(s, LineEnd(s, cursor) + 1, prefix, q)
  {
    hide LineAt;
    NextLine(s, cursor, q);
    var next := LineEnd(s, cursor) + 1;
    forall r: nat | cursor <= r <= q && Start(s, r)
      ensures r == cursor || next <= r
    {
      if r > cursor {
        NextLine(s, cursor, r);
      }
    }
  }

  lemma {:induction false} NotVisitedAbove(s: string, cursor: nat, prefix: string, q: nat)
    requires Accepted(s) && LineStart'(s, cursor) && KeyAt(s, q) && q < cursor
    ensures LineAt(s, q) !in Visited(s, cursor, prefix)
    decreases |s| + 1 - cursor
  {
    hide Accepted, LineAt;
    if cursor < |s| && prefix <= LineAt(s, cursor) {
      KeysDiffer(s, cursor, q);
      NotVisitedAbove(s, LineEnd(s, cursor) + 1, prefix, q);
    }
  }

  lemma {:induction false} VisitedExactly(s: string, cursor: nat, prefix: string, q: nat)
    requires Accepted(s) && LineStart'(s, cursor) && KeyAt(s, q)
    ensures LineAt(s, q) in Visited(s, cursor, prefix) <==> Reaches(s, cursor, prefix, q)
    decreases |s| + 1 - cursor
  {
    hide Accepted, LineAt;
    if q < cursor {
      NotVisitedAbove(s, cursor, prefix, q);
    } else if !(prefix <= LineAt(s, cursor)) {
      assert Start(s, cursor);
    } else if cursor < q {
      KeysDiffer(s, cursor, q);
      ReachesNext(s, cursor, prefix, q);
      VisitedExactly(s, LineEnd(s, cursor) + 1, prefix, q);
    }
  }

  // ---------- where blank lines may stand ----------

  predicate NoKeyIn(s: string, low: nat, high: nat) {
    forall p: nat :: low <= p < high && p < |s| ==> !KeyAt(s, p)
  }

  /** Wherever the halving of `[low, high)` looks at a blank line, no key stands above that
      line within its bounds. */
  predicate Clear(s: string, low: nat, high: nat)
    requires high <= |s|
    decreases |s| + 1 - low, high
  {
    low < high ==>
      var middle := Middle(low, high);
      var begin, next := LineBegin(s, middle), LineEnd(s, middle) + 1;
      && Clear(s, next, high)
      && if LineAround(s, middle) == "" then NoKeyIn(s, low, begin) else Clear(s, low, begin)
  }

  /** No blank line stands between two keys that begin with the same character. */
  ghost predicate Unbroken(s: string) {
    forall p: nat, b: nat, q: nat :: p < b < q && KeyAt(s, p) && KeyAt(s, q) && Start(s, b) && LineAt(s, b) == "" ==>
      LineAt(s, p)[0] != LineAt(s, q)[0]
  }

  lemma ClearUnfold(s: string, low: nat, high: nat)
    requires low < high <= |s|
    ensures
      var middle := Middle(low, high);
      var begin, next := LineBegin(s, middle), LineEnd(s, middle) + 1;
      Clear(s, low, high) ==
        (Clear(s, next, high) && if LineAround(s, middle) == "" then NoKeyIn(s, low, begin) else Clear(s, low, begin))
  {
    hide NoKeyIn, LineBegin, LineEnd, LineAround;
  }

  lemma AroundIsAt(s: string, middle: nat)
    requires middle < |s|
    ensures LineBegin(s, middle) <= middle && Start(s, LineBegin(s, middle))
    ensures LineAround(s, middle) == LineAt(s, LineBegin(s, middle))
    ensures LineEnd(s, LineBegin(s, middle)) == LineEnd(s, middle)
  {
    SameLine(s, LineBegin(s, middle), middle);
  }

  /** Everything above the line looked at sorts before the prefix. */
  lemma StepUp(s: string, prefix: string, low: nat, middle: nat)
    requires Accepted(s) && middle < |s| && AllBefore(s, prefix, low) && prefix != ""
    requires LexLess(LineAround(s, middle), prefix)
    requires LineAround(s, middle) == "" ==> NoKeyIn(s, low, LineBegin(s, middle))
    ensures AllBefore(s, prefix, LineEnd(s, middle) + 1)
  {
    hide Accepted, LineAt, LineAround;
    var b := LineBegin(s, middle);
    AroundIsAt(s, middle);
    forall p: nat | p < LineEnd(s, middle) + 1 && p < |s| && LineStart(s, p)
      ensures LexLess(LineAt(s, p), prefix)
    {
      StartsUpTo(s, b, p);
      if p < b && low <= p {
        if LineAt(s, p) != "" {
          assert KeyAt(s, p);
          AcceptedAbove(s, p, b);
          LexTransitive(LineAt(s, p), LineAt(s, b), prefix);
        }
      }
    }
  }

  lemma BoundsUp(s: string, prefix: string, low: nat, middle: nat, high: nat)
    requires Accepted(s) && Bounds(s, prefix, low, high) && low <= middle < high && prefix != ""
    requires LexLess(LineAround(s, middle), prefix)
    requires LineAround(s, middle) == "" ==> NoKeyIn(s, low, LineBegin(s, middle))
    ensures Bounds(s, prefix, LineEnd(s, middle) + 1, high)
  {
    hide LexLess, Accepted, AllBefore, NoKeyIn;
    StepUp(s, prefix, low, middle);
    LowAboveHigh(s, prefix, middle, high);
  }

  lemma {:induction false} ClearFinds(s: string, prefix: string, low: nat, high: nat)
    requires Accepted(s) && prefix != "" && high <= |s| && Clear(s, low, high) && Bounds(s, prefix, low, high)
    ensures
      var r := Search(s, prefix, low, high);
      LineStart'(s, r) && AllBefore(s, prefix, r) && NotBefore(s, prefix, r)
    decreases |s| + 1 - low, high
  {
    hide LexLess, LineEnd, LineBegin, LineAround, Middle, Accepted, AllBefore, NotBefore, Bounds, LineStart', Search;
    hide Clear, NoKeyIn;
    SearchUnfold(s, prefix, low, high);
    if low < high {
      ClearUnfold(s, low, high);
      var middle := Middle(low, high);
      if LexLess(LineAround(s, middle), prefix) {
        BoundsUp(s, prefix, low, middle, high);
        ClearFinds(s, prefix, LineEnd(s, middle) + 1, high);
      } else {
        assert LineAround(s, middle) != "" by { EmptyIsLess(prefix); }
        HalveDown(s, prefix, low, middle, high);
        ClearFinds(s, prefix, low, LineBegin(s, middle));
      }
    } else {
      BoundsMeet(s, prefix, low, high);
    }
  }

  lemma EmptyIsLess(prefix: string)
    requires prefix != ""
    ensures LexLess("", prefix)
  {
  }

  /** The search ends on a line start, not above where it began. */
  lemma {:induction false} SearchLands(s: string, prefix: string, low: nat, high: nat)
    requires high <= |s| && LineStart'(s, low)
    ensures LineStart'(s, Search(s, prefix, low, high)) && Search(s, prefix, low, high) >= low
    decreases |s| + 1 - low, high
  {
    hide LexLess, LineAround, Search;
    SearchUnfold(s, prefix, low, high);
    if low < high {
      var middle := Middle(low, high);
      if LexLess(LineAround(s, middle), prefix) {
        SearchLands(s, prefix, LineEnd(s, middle) + 1, high);
      } else {
        SearchLands(s, prefix, low, LineBegin(s, middle));
      }
    }
  }

  lemma FirstIsSearched(s: string, prefix: string)
    ensures FirstAtOrAfter(s, prefix) == Search(s, prefix, 0, |s|) && LineStart'(s, FirstAtOrAfter(s, prefix))
  {
    SearchLands(s, prefix, 0, |s|);
  }

  lemma {:induction false} EmptyPrefixStays(s: string, low: nat, high: nat)
    requires high <= |s|
    ensures Search(s, "", low, high) == low
    decreases high
  {
    SearchUnfold(s, "", low, high);
    if low < high {
      EmptyPrefixStays(s, low, LineBegin(s, Middle(low, high)));
    }
  }

  // ---------- clear files lose nothing ----------

  /** Lines between the landing and a key with the prefix have it too. */
  lemma BlockIsWhole(s: string, prefix: string, low: nat, q: nat)
    requires Accepted(s) && Unbroken(s) && prefix != "" && KeyAt(s, q) && prefix <= LineAt(s, q)
    requires Start(s, low) && low <= q && !LexLess(LineAt(s, low), prefix)
    ensures Reaches(s, low, prefix, q)
  {
    hide Accepted, LexLess, LineAt;
    EmptyIsLess(prefix);
    KeyHasPrefix(s, prefix, low, q);
    assert LineAt(s, low)[0] == prefix[0] == LineAt(s, q)[0];
    forall r: nat | low <= r <= q && Start(s, r)
      ensures prefix <= LineAt(s, r)
    {
      if low < r < q {
        if LineAt(s, r) == "" {
          assert false;
        } else {
          AcceptedAbove(s, low, r);
          NotLessAfter(LineAt(s, low), LineAt(s, r), prefix);
          KeyHasPrefix(s, prefix, r, q);
        }
      }
    }
  }

  lemma NotLessAfter(a: string, b: string, prefix: string)
    requires !LexLess(a, prefix) && LexLess(a, b)
    ensures !LexLess(b, prefix)
  {
    if LexLess(b, prefix) {
      LexTransitive(a, b, prefix);
    }
  }

  lemma KeyHasPrefix(s: string, prefix: string, p: nat, q: nat)
    requires Accepted(s) && KeyAt(s, p) && KeyAt(s, q) && p <= q && prefix <= LineAt(s, q)
    requires !LexLess(LineAt(s, p), prefix)
    ensures prefix <= LineAt(s, p)
  {
    hide Accepted, LineAt;
    if p < q && !(prefix <= LineAt(s, p)) {
      AcceptedAbove(s, p, q);
      PastPrefix(LineAt(s, p), LineAt(s, q), prefix);
    }
  }

  lemma StartBounds(s: string, prefix: string)
    ensures Bounds(s, prefix, 0, |s|)
  {
  }

  lemma ClearIsComplete(s: string, prefix: string)
    requires Accepted(s) && Clear(s, 0, |s|) && Unbroken(s)
    ensures Complete(s, prefix)
  {
    hide Accepted, Clear, Unbroken, Visited, NonBlank, Lines, Search, FirstAtOrAfter, LineAt, LexLess, Bounds;
    var low := FirstAtOrAfter(s, prefix);
    FirstIsSearched(s, prefix);
    forall key | key in NonBlank(Lines(s, 0)) && prefix <= key
      ensures key in Visited(s, low, prefix)
    {
      var q := MemberIsLine(s, 0, key);
      if prefix == "" {
        EmptyPrefixStays(s, 0, |s|);
      } else {
        StartBounds(s, prefix);
        ClearFinds(s, prefix, 0, |s|);
        if q < low {
          BeforeLacksPrefix(key, prefix);
        }
        BlockIsWhole(s, prefix, low, q);
      }
      VisitedExactly(s, low, prefix, q);
    }
  }

  // ---------- and only they do ----------

  lemma KeyIsListed(s: string, q: nat)
    requires KeyAt(s, q)
    ensures LineAt(s, q) in NonBlank(Lines(s, 0))
  {
    LineIsMember(s, 0, q);
  }

  lemma NotClearHasRoom(s: string, low: nat, high: nat)
    requires high <= |s| && !Clear(s, low, high)
    ensures low < high
  {
  }

  /** Where the search is misled it passes the key it is sent for. */
  lemma {:induction false} MisledPasses(s: string, low: nat, high: nat) returns (q: nat)
    requires Accepted(s) && high <= |s| && LineStart'(s, low) && !Clear(s, low, high)
    ensures low <= q < high && KeyAt(s, q) && Search(s, LineAt(s, q), low, high) > q
    decreases |s| + 1 - low, high
  {
    hide Accepted, LineAt, LineAround, Search, Clear, LexLess;
    NotClearHasRoom(s, low, high);
    ClearUnfold(s, low, high);
    var middle := Middle(low, high);
    var begin, next := LineBegin(s, middle), LineEnd(s, middle) + 1;
    AroundIsAt(s, middle);
    if !Clear(s, next, high) {
      q := MisledPasses(s, next, high);
      SearchUnfold(s, LineAt(s, q), low, high);
      if LineAround(s, middle) == "" {
        EmptyIsLess(LineAt(s, q));
      } else {
        AcceptedAbove(s, begin, q);
      }
    } else if LineAround(s, middle) == "" {
      var p: nat :| low <= p < begin && KeyAt(s, p);
      q := p;
      SearchUnfold(s, LineAt(s, q), low, high);
      EmptyIsLess(LineAt(s, q));
      SearchLands(s, LineAt(s, q), next, high);
    } else {
      q := MisledPasses(s, low, begin);
      SearchUnfold(s, LineAt(s, q), low, high);
      AcceptedAbove(s, q, begin);
      if LexLess(LineAround(s, middle), LineAt(s, q)) {
        LexTransitive(LineAround(s, middle), LineAt(s, q), LineAround(s, middle));
        LexIrreflexive(LineAround(s, middle));
      }
    }
  }

  lemma MisledIsIncomplete(s: string) returns (prefix: string)
    requires Accepted(s) && !Clear(s, 0, |s|)
    ensures !Complete(s, prefix)
  {
    hide Accepted, Clear, LineAt, Search, FirstAtOrAfter, Visited, NonBlank, Lines;
    var q := MisledPasses(s, 0, |s|);
    prefix := LineAt(s, q);
    FirstIsSearched(s, prefix);
    KeyIsListed(s, q);
    VisitedExactly(s, FirstAtOrAfter(s, prefix), prefix, q);
  }

  lemma BrokenIsIncomplete(s: string) returns (prefix: string)
    requires Accepted(s) && !Unbroken(s)
    ensures !Complete(s, prefix)
  {
    hide Accepted, LineAt, Search, FirstAtOrAfter, Visited, NonBlank, Lines;
    var p: nat, b: nat, q: nat :| p < b < q && KeyAt(s, p) && KeyAt(s, q) && Start(s, b) && LineAt(s, b) == ""
      && LineAt(s, p)[0] == LineAt(s, q)[0];
    prefix := [LineAt(s, p)[0]];
    assert prefix <= LineAt(s, p) && prefix <= LineAt(s, q);
    var low := FirstAtOrAfter(s, prefix);
    FirstIsSearched(s, prefix);
    KeyIsListed(s, p);
    KeyIsListed(s, q);
    VisitedExactly(s, low, prefix, p);
    VisitedExactly(s, low, prefix, q);
  }

  /** Every prefix search of an accepted file visits all its keys exactly when no blank line
      the halving can look at has a key above it within the bounds, and no blank line
      stands between two keys that begin alike. */
  lemma SearchesCompleteExactly(s: string)
    requires Accepted(s)
    ensures (forall prefix :: Complete(s, prefix)) <==> Clear(s, 0, |s|) && Unbroken(s)
  {
    hide Accepted, Clear, Unbroken, Complete;
    if Clear(s, 0, |s|) && Unbroken(s) {
      forall prefix
        ensures Complete(s, prefix)
      {
        ClearIsComplete(s, prefix);
      }
    } else if !Clear(s, 0, |s|) {
      var prefix := MisledIsIncomplete(s);
    } else {
      var prefix := BrokenIsIncomplete(s);
    }
  }

  /** A complete search returns the identifiers of all the file's keys that meet the query. */
  lemma CompleteFindsAll(s: string, query: Query)
    requires Complete(s, query.prefix)
    ensures forall id :: (exists key :: key in NonBlank(Lines(s, 0)) && Contribution(key, query) == Some(id)) ==>
      id in ScanFrom(s, FirstAtOrAfter(s, query.prefix), query, [])
  {
    hide ScanFrom, FirstAtOrAfter, Visited, NonBlank, Lines, InRange;
    var cursor := FirstAtOrAfter(s, query.prefix);
    ScanCollectsVisited(s, cursor, query, []);
    CollectContents(Visited(s, cursor, query.prefix), query, []);
  }
}
