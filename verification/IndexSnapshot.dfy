/** The index file: sorted keys, one per line, searched as raw text without being split. */
module IndexSnapshot {
  import opened Common
  import opened Ordering
  import IndexPlan

  // ---------- lines ----------

  predicate LineStart(s: string, p: nat) {
    p <= |s| && (p == 0 || s[p - 1] == '\n')
  }

  /** The end of the line that position `p` is on: its LF, or the end of the text. */
  function LineEnd(s: string, p: nat): (e: nat)
    requires p <= |s|
    ensures p <= e <= |s| && '\n' !in s[p..e] && (e < |s| ==> s[e] == '\n')
    decreases |s| - p
  {
    if p == |s| || s[p] == '\n' then p
    else
      var e := LineEnd(s, p + 1);
      assert s[p..e] == [s[p]] + s[p + 1..e];
      e
  }

  /** The start of the line that position `p` is on. */
  function LineBegin(s: string, p: nat): (b: nat)
    requires p <= |s|
    ensures b <= p && LineStart(s, b) && '\n' !in s[b..p]
  {
    if p == 0 || s[p - 1] == '\n' then p
    else
      var b := LineBegin(s, p - 1);
      assert s[b..p] == s[b..p - 1] + [s[p - 1]];
      b
  }

  function LineAt(s: string, p: nat): string
    requires p <= |s|
  {
    s[p..LineEnd(s, p)]
  }

  /** The lines from a line start on; nothing follows a final LF. */
  function Lines(s: string, p: nat): seq<string>
    decreases |s| - p
  {
    if p >= |s| then [] else [LineAt(s, p)] + Lines(s, LineEnd(s, p) + 1)
  }

  // ---------- validation ----------

  function NonBlank(lines: seq<string>): seq<string> {
    if lines == [] then []
    else (if lines[0] == "" then [] else [lines[0]]) + NonBlank(lines[1..])
  }

  /** `from_bytes` accepts a text whose non-blank lines strictly ascend. */
  predicate Accepted(s: string) {
    Ascending(NonBlank(Lines(s, 0)))
  }

  lemma LinesStep(s: string, p: nat)
    requires p < |s|
    ensures Lines(s, p) == [s[p..LineEnd(s, p)]] + Lines(s, LineEnd(s, p) + 1)
  {
  }

  /** The keys seen and those from line `p` on make up `keys`. */
  ghost predicate SeenBefore(seen: seq<string>, s: string, p: nat, keys: seq<string>) {
    seen + NonBlank(Lines(s, p)) == keys
  }

  lemma SeenStart(s: string)
    ensures SeenBefore([], s, 0, NonBlank(Lines(s, 0)))
  {
  }

  lemma SeenNext(seen: seq<string>, s: string, p: nat, keys: seq<string>)
    requires p < |s| && SeenBefore(seen, s, p, keys)
    ensures
      var e := LineEnd(s, p);
      var key := s[p..e];
      && SeenBefore(if key == "" then seen else seen + [key], s, e + 1, keys)
      && (key != "" ==> keys == seen + [key] + NonBlank(Lines(s, e + 1)))
  {
    LinesStep(s, p);
    var key, rest := s[p..LineEnd(s, p)], Lines(s, LineEnd(s, p) + 1);
    assert ([key] + rest)[1..] == rest;
    assert seen + ([key] + NonBlank(rest)) == seen + [key] + NonBlank(rest);
    assert [] + NonBlank(rest) == NonBlank(rest);
  }

  lemma SeenAll(seen: seq<string>, s: string, p: nat, keys: seq<string>)
    requires p >= |s| && SeenBefore(seen, s, p, keys)
    ensures seen == keys
  {
    assert seen + [] == seen;
  }

  method Validate(s: string) returns (accepted: bool)
    ensures accepted <==> Accepted(s)
  {
    hide LexLess, SeenBefore, Lines, NonBlank, LineEnd;
    var p := 0;
    var previous: Option<string> := None;
    ghost var seen: seq<string> := [];
    ghost var keys := NonBlank(Lines(s, 0));
    SeenStart(s);
    while p < |s|
      invariant SeenBefore(seen, s, p, keys) && Ascending(seen)
      invariant previous == if seen == [] then None else Some(seen[|seen| - 1])
      decreases |s| - p
    {
      var end := LineEnd(s, p);
      var key := s[p..end];
      SeenNext(seen, s, p, keys);
      if key != "" {
        if previous.Some? && !LexLess(previous.value, key) {
          NotAscending(seen, key, NonBlank(Lines(s, end + 1)));
          return false;
        }
        AscendingNext(seen, key);
        seen := seen + [key];
        previous := Some(key);
      }
      p := end + 1;
    }
    SeenAll(seen, s, p, keys);
    return true;
  }

  lemma NotAscending(seen: seq<string>, key: string, rest: seq<string>)
    requires seen != [] && !LexLess(seen[|seen| - 1], key)
    ensures !Ascending(seen + [key] + rest)
  {
    var all := seen + [key] + rest;
    assert all[|seen| - 1] == seen[|seen| - 1] && all[|seen|] == key;
  }

  lemma AscendingNext(seen: seq<string>, key: string)
    requires Ascending(seen) && (seen != [] ==> LexLess(seen[|seen| - 1], key))
    ensures Ascending(seen + [key])
  {
    forall i | 0 <= i < |seen|
      ensures LexLess(seen[i], key)
    {
      if i < |seen| - 1 {
        LexTransitive(seen[i], seen[|seen| - 1], key);
      }
    }
  }

  // ---------- the binary search ----------

  /** The line that position `p` is on. */
  function LineAround(s: string, p: nat): string
    requires p <= |s|
  {
    s[LineBegin(s, p)..LineEnd(s, p)]
  }

  function Middle(low: nat, high: nat): (middle: nat)
    requires low < high
    ensures low <= middle < high
  {
    (low + high) / 2
  }

  /** Halving `[low, high)` by whole lines. */
  function Search(s: string, prefix: string, low: nat, high: nat): nat
    requires high <= |s|
    decreases |s| + 1 - low, high
  {
    if low >= high then low
    else
      var middle := Middle(low, high);
      if LexLess(LineAround(s, middle), prefix) then Search(s, prefix, LineEnd(s, middle) + 1, high)
      else Search(s, prefix, low, LineBegin(s, middle))
  }

  /** Back to the start of the line. */
  function BackUp(s: string, low: nat): nat {
    if 0 < low < |s| && s[low - 1] != '\n' then BackUp(s, low - 1) else low
  }

  function FirstAtOrAfter(s: string, prefix: string): nat {
    BackUp(s, Search(s, prefix, 0, |s|))
  }

  method ScanBack(s: string, middle: nat) returns (start: nat)
    requires middle <= |s|
    ensures start == LineBegin(s, middle)
  {
    start := middle;
    while start > 0 && s[start - 1] != '\n'
      invariant start <= middle && LineBegin(s, start) == LineBegin(s, middle)
    {
      start := start - 1;
    }
  }

  method ScanForward(s: string, middle: nat) returns (end: nat)
    requires middle <= |s|
    ensures end == LineEnd(s, middle)
  {
    end := middle;
    while end < |s| && s[end] != '\n'
      invariant middle <= end <= |s| && LineEnd(s, end) == LineEnd(s, middle)
    {
      end := end + 1;
    }
  }

  lemma SearchUnfold(s: string, prefix: string, low: nat, high: nat)
    requires high <= |s|
    ensures
      Search(s, prefix, low, high) ==
        if low >= high then low
        else
          var middle := Middle(low, high);
          if LexLess(LineAround(s, middle), prefix) then Search(s, prefix, LineEnd(s, middle) + 1, high)
          else Search(s, prefix, low, LineBegin(s, middle))
  {
    hide LexLess, LineEnd, LineBegin, LineAround;
  }

  method FindFirstKeyAtOrAfter(s: string, prefix: string) returns (low: nat)
    ensures low == FirstAtOrAfter(s, prefix)
  {
    hide LexLess, LineBegin, LineEnd, Search;
    SearchUnfold(s, prefix, 0, |s|);
    if s == "" {
      return 0;
    }
    low := 0;
    var high: nat := |s|;
    while low < high
      invariant high <= |s| && Search(s, prefix, low, high) == Search(s, prefix, 0, |s|)
      decreases |s| + 1 - low, high
    {
      var middle := (low + high) / 2;
      SearchUnfold(s, prefix, low, high);
      var start := ScanBack(s, middle);
      var end := ScanForward(s, middle);
      if LexLess(s[start..end], prefix) {
        low := end + 1;
      } else {
        high := start;
      }
    }
    SearchUnfold(s, prefix, low, high);
    ghost var found := low;
    while 0 < low < |s| && s[low - 1] != '\n'
      invariant BackUp(s, low) == BackUp(s, found)
      decreases low
    {
      low := low - 1;
    }
  }

  /** Every line sorts before the ones below it; blank lines stand at the top, if anywhere. */
  ghost predicate Sorted(s: string) {
    forall p: nat, q: nat :: p < q < |s| && LineStart(s, p) && LineStart(s, q) ==> Above(s, p, q)
  }

  predicate Above(s: string, p: nat, q: nat)
    requires p <= |s| && q <= |s|
  {
    LineAt(s, p) == "" || LexLess(LineAt(s, p), LineAt(s, q))
  }

  /** All lines above `low` sort before the prefix. */
  ghost predicate AllBefore(s: string, prefix: string, low: nat) {
    forall p: nat :: p < low && p < |s| && LineStart(s, p) ==> LexLess(LineAt(s, p), prefix)
  }

  /** The line at `high`, if there is one, does not sort before the prefix. */
  predicate NotBefore(s: string, prefix: string, high: nat) {
    high < |s| ==> LineStart(s, high) && !LexLess(LineAt(s, high), prefix)
  }

  lemma SameLine(s: string, b: nat, m: nat)
    requires b <= m <= |s| && '\n' !in s[b..m]
    ensures LineEnd(s, b) == LineEnd(s, m)
    decreases m - b
  {
    if b < m {
      assert s[b] == s[b..m][0];
      assert s[b + 1..m] == s[b..m][1..];
      SameLine(s, b + 1, m);
    }
  }

  lemma LexBefore(a: string, b: string, prefix: string)
    requires (a == "" || LexLess(a, b)) && LexLess(b, prefix)
    ensures LexLess(a, prefix)
  {
    if a != "" {
      LexTransitive(a, b, prefix);
    }
  }

  /** Line starts up to the end of a line that starts at `b` are at most `b`. */
  lemma StartsUpTo(s: string, b: nat, p: nat)
    requires b <= |s| && LineStart(s, p) && p <= LineEnd(s, b)
    ensures p <= b
  {
    var e := LineEnd(s, b);
    forall j | b <= j < e
      ensures s[j] != '\n'
    {
      assert s[j] == s[b..e][j - b];
    }
  }

  lemma SearchStep(s: string, prefix: string, low: nat, middle: nat)
    requires Sorted(s) && middle < |s| && AllBefore(s, prefix, low)
    requires LexLess(LineAround(s, middle), prefix)
    ensures AllBefore(s, prefix, LineEnd(s, middle) + 1) && LineStart'(s, LineEnd(s, middle) + 1)
  {
    var b := LineBegin(s, middle);
    SameLine(s, b, middle);
    forall p: nat | p < LineEnd(s, middle) + 1 && p < |s| && LineStart(s, p)
      ensures LexLess(LineAt(s, p), prefix)
    {
      StartsUpTo(s, b, p);
      if p < b {
        assert Above(s, p, b);
        LexBefore(LineAt(s, p), LineAt(s, b), prefix);
      }
    }
  }

  /** A line start, or just past the end of a text without a final LF. */
  predicate LineStart'(s: string, p: nat) {
    LineStart(s, p) || p == |s| + 1
  }

  lemma LowAboveHigh(s: string, prefix: string, middle: nat, high: nat)
    requires middle < high <= |s| && NotBefore(s, prefix, high)
    ensures high < |s| ==> LineEnd(s, middle) + 1 <= high
  {
    if high < |s| && high <= LineEnd(s, middle) {
      StartsUpTo(s, middle, high);
    }
  }

  lemma StartBelow(s: string, low: nat, middle: nat)
    requires LineStart'(s, low) && low <= middle < |s|
    ensures low <= LineBegin(s, middle) && LineEnd(s, LineBegin(s, middle)) == LineEnd(s, middle)
  {
    var start := LineBegin(s, middle);
    SameLine(s, start, middle);
    StartsUpTo(s, start, low);
  }

  lemma StartNotBefore(s: string, prefix: string, middle: nat)
    requires middle < |s| && !LexLess(LineAround(s, middle), prefix)
    ensures NotBefore(s, prefix, LineBegin(s, middle))
  {
    SameLine(s, LineBegin(s, middle), middle);
  }

  /** What the search has established about its two bounds. */
  ghost predicate Bounds(s: string, prefix: string, low: nat, high: nat) {
    && high <= |s| && LineStart'(s, low) && AllBefore(s, prefix, low)
    && NotBefore(s, prefix, high) && (high < |s| ==> low <= high)
  }

  lemma HalveUp(s: string, prefix: string, low: nat, middle: nat, high: nat)
    requires Sorted(s) && Bounds(s, prefix, low, high) && low <= middle < high
    requires LexLess(LineAround(s, middle), prefix)
    ensures Bounds(s, prefix, LineEnd(s, middle) + 1, high)
  {
    hide LexLess, Sorted, AllBefore;
    SearchStep(s, prefix, low, middle);
    LowAboveHigh(s, prefix, middle, high);
  }

  lemma HalveDown(s: string, prefix: string, low: nat, middle: nat, high: nat)
    requires Bounds(s, prefix, low, high) && low <= middle < high
    requires !LexLess(LineAround(s, middle), prefix)
    ensures Bounds(s, prefix, low, LineBegin(s, middle))
  {
    hide LexLess, AllBefore;
    StartBelow(s, low, middle);
    StartNotBefore(s, prefix, middle);
  }

  lemma BoundsMeet(s: string, prefix: string, low: nat, high: nat)
    requires Bounds(s, prefix, low, high) && low >= high
    ensures NotBefore(s, prefix, low) && AllBefore(s, prefix, low) && LineStart'(s, low)
  {
  }

  lemma {:induction false} SearchFinds(s: string, prefix: string, low: nat, high: nat)
    requires Sorted(s) && Bounds(s, prefix, low, high)
    ensures
      var r := Search(s, prefix, low, high);
      LineStart'(s, r) && AllBefore(s, prefix, r) && NotBefore(s, prefix, r)
    decreases |s| + 1 - low, high
  {
    assert high <= |s|;
    hide *;
    if low < high {
      var low', high' := SearchHalves(s, prefix, low, high);
      SearchFinds(s, prefix, low', high');
    } else {
      SearchUnfold(s, prefix, low, high);
      BoundsMeet(s, prefix, low, high);
    }
  }

  /** One halving: the search goes on from narrower bounds. */
  lemma SearchHalves(s: string, prefix: string, low: nat, high: nat) returns (low': nat, high': nat)
    requires Sorted(s) && Bounds(s, prefix, low, high) && low < high
    ensures Bounds(s, prefix, low', high') && Search(s, prefix, low', high') == Search(s, prefix, low, high)
    ensures (low < low' <= |s| + 1 && high' == high) || (low' == low && high' < high)
  {
    hide LexLess, Sorted, AllBefore, NotBefore, LineStart', Search, Above;
    SearchUnfold(s, prefix, low, high);
    var middle := Middle(low, high);
    if LexLess(LineAround(s, middle), prefix) {
      HalveUp(s, prefix, low, middle, high);
      low', high' := LineEnd(s, middle) + 1, high;
    } else {
      HalveDown(s, prefix, low, middle, high);
      low', high' := low, LineBegin(s, middle);
    }
  }

  /** On a sorted text the search lands on the first line that does not sort before the
      prefix, or past the end. */
  lemma FirstIsFound(s: string, prefix: string)
    requires Sorted(s)
    ensures
      var r := FirstAtOrAfter(s, prefix);
      LineStart'(s, r) && AllBefore(s, prefix, r) && NotBefore(s, prefix, r)
  {
    SearchFinds(s, prefix, 0, |s|);
  }

  // ---------- the scan ----------

  datatype RangeOperator = MoreThan | AtLeast

  /** A bound on the value segment before the identifier; descending comparisons use
      reversed values and the same two operators. */
  datatype Range = Range(op: RangeOperator, value: string)

  function LastSlash(key: string): (n: Option<nat>)
    ensures n.Some? ==> n.value < |key| && key[n.value] == '/' && '/' !in key[n.value + 1..]
    ensures n.None? ==> '/' !in key
  {
    if key == "" then None
    else if key[|key| - 1] == '/' then Some(|key| - 1)
    else
      var n := LastSlash(key[..|key| - 1]);
      assert n.Some? ==> key[n.value + 1..] == key[..|key| - 1][n.value + 1..] + [key[|key| - 1]];
      assert key == key[..|key| - 1] + [key[|key| - 1]];
      n
  }

  predicate InRange(key: string, range: Option<Range>) {
    range.None? ||
    var last := LastSlash(key);
    last.Some? &&
    var previous := LastSlash(key[..last.value]);
    previous.Some? &&
    var value := key[previous.value + 1..last.value];
    LexLess(range.value.value, value) || (range.value.op.AtLeast? && value == range.value.value)
  }

  datatype Query = Query(prefix: string, range: Option<Range>)

  /** The identifier a key contributes to a query. */
  function Contribution(key: string, query: Query): Option<string> {
    if query.prefix <= key && InRange(key, query.range) && LastSlash(key).Some?
       && key[LastSlash(key).value + 1..] != ""
    then Some(key[LastSlash(key).value + 1..])
    else None
  }

  function Note(found: seq<string>, contribution: Option<string>): seq<string> {
    if contribution.Some? && contribution.value !in found then found + [contribution.value] else found
  }

  /** The identifiers of all lines, each once, in the order of first appearance. */
  function Collect(lines: seq<string>, query: Query, found: seq<string>): seq<string>
    decreases |lines|
  {
    if lines == [] then found else Collect(lines[1..], query, Note(found, Contribution(lines[0], query)))
  }

  /** The loop from a cursor on: it stops at the first line without the prefix. */
  function ScanFrom(s: string, cursor: nat, query: Query, found: seq<string>): seq<string>
    decreases |s| - cursor
  {
    if cursor >= |s| || !(query.prefix <= LineAt(s, cursor)) then found
    else ScanFrom(s, LineEnd(s, cursor) + 1, query, Note(found, Contribution(LineAt(s, cursor), query)))
  }

  method NoteKey(matches: seq<string>, key: string, query: Query) returns (noted: seq<string>)
    requires query.prefix <= key
    ensures noted == Note(matches, Contribution(key, query))
  {
    hide InRange;
    noted := matches;
    if InRange(key, query.range) {
      var separator := LastSlash(key);
      if separator.Some? {
        var id := key[separator.value + 1..];
        if id != "" && id !in matches {
          noted := noted + [id];
        }
      }
    }
  }

  method ScanOne(s: string, query: Query) returns (matches: seq<string>)
    ensures matches == ScanFrom(s, FirstAtOrAfter(s, query.prefix), query, [])
  {
    hide FirstAtOrAfter, Contribution, Note;
    var cursor := FindFirstKeyAtOrAfter(s, query.prefix);
    matches := [];
    ghost var first := cursor;
    while cursor < |s|
      invariant ScanFrom(s, cursor, query, matches) == ScanFrom(s, first, query, [])
      decreases |s| - cursor
    {
      var end := ScanForward(s, cursor);
      var key := s[cursor..end];
      if !(query.prefix <= key) {
        break;
      }
      matches := NoteKey(matches, key, query);
      cursor := end + 1;
    }
  }

  // ---------- the scan misses nothing ----------

  lemma PrefixTail(a: string, prefix: string)
    requires a != "" && prefix != ""
    ensures prefix <= a <==> prefix[0] == a[0] && prefix[1..] <= a[1..]
  {
    if prefix[0] == a[0] && prefix[1..] <= a[1..] {
      assert a[..|prefix|] == [a[0]] + a[1..][..|prefix| - 1] == prefix;
    }
  }

  lemma {:induction false} BeforeLacksPrefix(a: string, prefix: string)
    requires LexLess(a, prefix)
    ensures !(prefix <= a)
    decreases |a|
  {
    if a != "" {
      PrefixTail(a, prefix);
      if a[0] == prefix[0] {
        BeforeLacksPrefix(a[1..], prefix[1..]);
      }
    }
  }

  /** Once past the block of keys with a prefix, no later key has it. */
  lemma {:induction false} PastPrefix(a: string, b: string, prefix: string)
    requires !LexLess(a, prefix) && !(prefix <= a) && LexLess(a, b)
    ensures !(prefix <= b)
    decreases |prefix|
  {
    assert prefix != "" && a != "";
    PrefixTail(a, prefix);
    PrefixTail(b, prefix);
    if a[0] == b[0] == prefix[0] {
      PastPrefix(a[1..], b[1..], prefix[1..]);
    }
  }

  lemma NoContribution(key: string, query: Query, found: seq<string>)
    requires !(query.prefix <= key)
    ensures Note(found, Contribution(key, query)) == found
  {
  }

  /** The lines above the search result contribute nothing. */
  lemma {:induction false} SkipAbove(s: string, p: nat, low: nat, query: Query)
    requires LineStart'(s, p) && LineStart'(s, low) && p <= low && AllBefore(s, query.prefix, low)
    ensures Collect(Lines(s, p), query, []) == Collect(Lines(s, low), query, [])
    decreases |s| + 1 - p
  {
    if p < low && p < |s| {
      hide Contribution;
      assert LexLess(LineAt(s, p), query.prefix);
      BeforeLacksPrefix(LineAt(s, p), query.prefix);
      NoContribution(LineAt(s, p), query, []);
      LinesStep(s, p);
      var rest := Lines(s, LineEnd(s, p) + 1);
      assert ([LineAt(s, p)] + rest)[1..] == rest;
      NextLine(s, p, low);
      SkipAbove(s, LineEnd(s, p) + 1, low, query);
    }
  }

  lemma NextLine(s: string, p: nat, low: nat)
    requires p < |s| && LineStart(s, p) && LineStart'(s, low) && p < low
    ensures LineEnd(s, p) + 1 <= low && LineStart'(s, LineEnd(s, p) + 1)
  {
    if low <= LineEnd(s, p) {
      StartsUpTo(s, p, low);
    }
  }

  /** No line from `p` on has the prefix. */
  ghost predicate NoneFrom(s: string, p: nat, prefix: string) {
    forall q: nat :: p <= q < |s| && LineStart(s, q) ==> !(prefix <= LineAt(s, q))
  }

  lemma {:induction false} NothingBelow(s: string, p: nat, query: Query, found: seq<string>)
    requires LineStart'(s, p) && NoneFrom(s, p, query.prefix)
    ensures Collect(Lines(s, p), query, found) == found
    decreases |s| + 1 - p
  {
    if p < |s| {
      hide Contribution;
      NoContribution(LineAt(s, p), query, found);
      LinesStep(s, p);
      var rest := Lines(s, LineEnd(s, p) + 1);
      assert ([LineAt(s, p)] + rest)[1..] == rest;
      NothingBelow(s, LineEnd(s, p) + 1, query, found);
    }
  }

  lemma StopIsFinal(s: string, p: nat, prefix: string)
    requires Sorted(s) && p < |s| && LineStart(s, p)
    requires !LexLess(LineAt(s, p), prefix) && !(prefix <= LineAt(s, p))
    ensures NoneFrom(s, p, prefix)
  {
    forall q: nat | p <= q < |s| && LineStart(s, q)
      ensures !(prefix <= LineAt(s, q))
    {
      if p < q {
        assert Above(s, p, q);
        assert LineAt(s, p) != "";
        PastPrefix(LineAt(s, p), LineAt(s, q), prefix);
      }
    }
  }

  lemma StaysNotBefore(s: string, p: nat, q: nat, prefix: string)
    requires Sorted(s) && p < q < |s| && LineStart(s, p) && LineStart(s, q) && !LexLess(LineAt(s, p), prefix)
    ensures !LexLess(LineAt(s, q), prefix)
  {
    assert Above(s, p, q);
    if LexLess(LineAt(s, q), prefix) {
      LexBefore(LineAt(s, p), LineAt(s, q), prefix);
    }
  }

  lemma {:induction false} ScanIsCollect(s: string, p: nat, query: Query, found: seq<string>)
    requires Sorted(s) && LineStart'(s, p) && NotBefore(s, query.prefix, p)
    ensures ScanFrom(s, p, query, found) == Collect(Lines(s, p), query, found)
    decreases |s| + 1 - p
  {
    if p < |s| {
      hide Contribution, LexLess, Sorted, Note, LineAt, LineEnd;
      LinesStep(s, p);
      var next := LineEnd(s, p) + 1;
      var rest := Lines(s, next);
      assert ([LineAt(s, p)] + rest)[1..] == rest;
      if query.prefix <= LineAt(s, p) {
        if next < |s| {
          StaysNotBefore(s, p, next, query.prefix);
        }
        ScanIsCollect(s, next, query, Note(found, Contribution(LineAt(s, p), query)));
      } else {
        StopIsFinal(s, p, query.prefix);
        NothingBelow(s, p, query, found);
      }
    }
  }

  /** On a sorted text the search and the early stop lose nothing: the scan gives what
      looking at every line gives, in the same order. */
  lemma ScanIsComplete(s: string, query: Query)
    requires Sorted(s)
    ensures ScanFrom(s, FirstAtOrAfter(s, query.prefix), query, []) == Collect(Lines(s, 0), query, [])
  {
    var low := FirstAtOrAfter(s, query.prefix);
    FirstIsFound(s, query.prefix);
    hide FirstAtOrAfter;
    SkipAbove(s, 0, low, query);
    ScanIsCollect(s, low, query, []);
  }

  // ---------- sorted is what validation leaves, but for blank lines ----------

  /** No blank line stands below a key. */
  ghost predicate NoBlankBelow(s: string) {
    forall p: nat, q: nat :: p < q < |s| && LineStart(s, p) && LineStart(s, q) && LineAt(s, p) != "" ==>
      LineAt(s, q) != ""
  }

  lemma NonBlankStep(s: string, p: nat)
    requires p < |s|
    ensures
      var rest := NonBlank(Lines(s, LineEnd(s, p) + 1));
      NonBlank(Lines(s, p)) == if LineAt(s, p) == "" then rest else [LineAt(s, p)] + rest
  {
    LinesStep(s, p);
    var rest := Lines(s, LineEnd(s, p) + 1);
    assert ([LineAt(s, p)] + rest)[1..] == rest;
    assert [] + NonBlank(rest) == NonBlank(rest);
  }

  lemma {:induction false} LineIsMember(s: string, p: nat, q: nat)
    requires LineStart'(s, p) && LineStart(s, q) && p <= q < |s| && LineAt(s, q) != ""
    ensures LineAt(s, q) in NonBlank(Lines(s, p))
    decreases |s| - p
  {
    hide NonBlank, LineAt;
    NonBlankStep(s, p);
    if p < q {
      NextLine(s, p, q);
      LineIsMember(s, LineEnd(s, p) + 1, q);
    }
  }

  lemma {:induction false} MemberIsLine(s: string, p: nat, key: string) returns (q: nat)
    requires LineStart'(s, p) && key in NonBlank(Lines(s, p))
    ensures p <= q < |s| && LineStart(s, q) && LineAt(s, q) == key != ""
    decreases |s| + 1 - p
  {
    hide LineAt;
    if p >= |s| {
      NoLines(s, p);
      assert false;
      q := p;
    } else {
      NonBlankStep(s, p);
      if LineAt(s, p) == key && key != "" {
        q := p;
      } else {
        q := MemberIsLine(s, LineEnd(s, p) + 1, key);
      }
    }
  }

  lemma NoLines(s: string, p: nat)
    requires p >= |s|
    ensures Lines(s, p) == [] && NonBlank(Lines(s, p)) == []
  {
  }

  lemma ConsAscends(head: string, rest: seq<string>)
    ensures Ascending([head] + rest) <==> Ascending(rest) && forall key :: key in rest ==> LexLess(head, key)
  {
    hide LexLess;
    var all := [head] + rest;
    assert forall i :: 0 <= i < |rest| ==> all[i + 1] == rest[i];
    if Ascending(all) {
      forall i | 0 <= i < |rest|
        ensures LexLess(head, rest[i])
      {
        assert LexLess(all[0], all[i + 1]);
      }
      forall i, j | 0 <= i < j < |rest|
        ensures LexLess(rest[i], rest[j])
      {
        assert LexLess(all[i + 1], all[j + 1]);
      }
    }
    if Ascending(rest) && forall key :: key in rest ==> LexLess(head, key) {
      forall i, j | 0 <= i < j < |all|
        ensures LexLess(all[i], all[j])
      {
        assert all[j] == rest[j - 1] && (i > 0 ==> all[i] == rest[i - 1]);
      }
    }
  }

  lemma {:induction false} SuffixAscends(s: string, p: nat, q: nat)
    requires LineStart'(s, p) && LineStart(s, q) && p <= q < |s| && Ascending(NonBlank(Lines(s, p)))
    ensures Ascending(NonBlank(Lines(s, q)))
    decreases |s| - p
  {
    if p < q {
      hide NonBlank, LineAt, LexLess, Lines, LineEnd, Ascending, LineStart, LineStart';
      NonBlankStep(s, p);
      StartInside(s, p);
      var next := LineEnd(s, p) + 1;
      ConsAscends(LineAt(s, p), NonBlank(Lines(s, next)));
      NextLine(s, p, q);
      SuffixAscends(s, next, q);
    }
  }

  lemma StartInside(s: string, p: nat)
    requires LineStart'(s, p) && p < |s|
    ensures LineStart(s, p)
  {
  }

  lemma AcceptedAbove(s: string, p: nat, q: nat)
    requires Accepted(s) && LineStart(s, p) && LineStart(s, q) && p < q < |s|
    requires LineAt(s, p) != "" && LineAt(s, q) != ""
    ensures LexLess(LineAt(s, p), LineAt(s, q))
  {
    hide NonBlank, LexLess, LineAt;
    SuffixAscends(s, 0, p);
    NonBlankStep(s, p);
    var rest := NonBlank(Lines(s, LineEnd(s, p) + 1));
    NextLine(s, p, q);
    LineIsMember(s, LineEnd(s, p) + 1, q);
    ConsAscends(LineAt(s, p), rest);
  }

  lemma HeadIsLeast(s: string, p: nat)
    requires Sorted(s) && p < |s| && LineStart(s, p) && LineAt(s, p) != ""
    ensures forall key :: key in NonBlank(Lines(s, LineEnd(s, p) + 1)) ==> LexLess(LineAt(s, p), key)
  {
    hide NonBlank, LexLess, LineAt, Lines;
    forall key | key in NonBlank(Lines(s, LineEnd(s, p) + 1))
      ensures LexLess(LineAt(s, p), key)
    {
      var q := MemberIsLine(s, LineEnd(s, p) + 1, key);
      assert Above(s, p, q);
    }
  }

  lemma {:induction false} SortedAscends(s: string, p: nat)
    requires Sorted(s) && LineStart'(s, p)
    ensures Ascending(NonBlank(Lines(s, p)))
    decreases |s| + 1 - p
  {
    hide NonBlank, LexLess, LineAt, LineEnd;
    if p >= |s| {
      NoLines(s, p);
    } else {
      NonBlankStep(s, p);
      SortedAscends(s, LineEnd(s, p) + 1);
      if LineAt(s, p) != "" {
        HeadIsLeast(s, p);
        ConsAscends(LineAt(s, p), NonBlank(Lines(s, LineEnd(s, p) + 1)));
      }
    }
  }

  /** A text is searchable exactly when validation accepts it and no blank line stands below
      a key. */
  lemma SortedExactly(s: string)
    ensures Sorted(s) <==> Accepted(s) && NoBlankBelow(s)
  {
    hide NonBlank, LineAt;
    if Sorted(s) {
      SortedAscends(s, 0);
      forall p: nat, q: nat | p < q < |s| && LineStart(s, p) && LineStart(s, q) && LineAt(s, p) != ""
        ensures LineAt(s, q) != ""
      {
        assert Above(s, p, q);
      }
    }
    if Accepted(s) && NoBlankBelow(s) {
      forall p: nat, q: nat | p < q < |s| && LineStart(s, p) && LineStart(s, q)
        ensures Above(s, p, q)
      {
        if LineAt(s, p) != "" {
          AcceptedAbove(s, p, q);
        }
      }
    }
  }

  lemma {:induction false} EndIs(s: string, p: nat, e: nat)
    requires p <= e < |s| && s[e] == '\n' && forall i :: p <= i < e ==> s[i] != '\n'
    ensures LineEnd(s, p) == e
    decreases e - p
  {
    if p < e {
      EndIs(s, p + 1, e);
    }
  }

  lemma {:induction false} BeginIs(s: string, b: nat, p: nat)
    requires b <= p <= |s| && LineStart(s, b) && forall i :: b <= i < p ==> s[i] != '\n'
    ensures LineBegin(s, p) == b
    decreases p - b
  {
    if b < p {
      BeginIs(s, b, p - 1);
    }
  }

  lemma MisledSearch(s: string)
    requires |s| == 9 && LineBegin(s, 4) == 4 == LineEnd(s, 4) && LineBegin(s, 7) == 5 && LineEnd(s, 7) == 8
    requires LineEnd(s, 5) == 8 && s[4] == '\n' && s[5..8] == "c/2"
    ensures ScanFrom(s, FirstAtOrAfter(s, "b"), Query("b", None), []) == []
  {
    hide LineEnd, LineBegin, Search, Contribution;
    assert LexLess("", "b") && !LexLess("c/2", "b");
    SearchUnfold(s, "b", 0, 9);
    SearchUnfold(s, "b", 5, 9);
    SearchUnfold(s, "b", 5, 5);
    assert Middle(0, 9) == 4 && Middle(5, 9) == 7;
    assert LineAround(s, 4) == "" && LineAround(s, 7) == "c/2";
    assert FirstAtOrAfter(s, "b") == 5;
  }

  lemma ThreeLines(s: string)
    requires |s| == 9 && LineEnd(s, 0) == 3 && LineEnd(s, 4) == 4 && LineEnd(s, 5) == 8
    ensures Lines(s, 0) == [s[0..3], s[4..4], s[5..8]]
  {
    hide LineEnd;
    LinesStep(s, 0);
    LinesStep(s, 4);
    LinesStep(s, 5);
    NoLines(s, 9);
  }

  lemma ThreeLinesAccepted()
    ensures Ascending(NonBlank(["b/1", "", "c/2"]))
  {
    hide LexLess;
    assert NonBlank([]) == [];
    NonBlankCons("c/2", []);
    NonBlankCons("", ["c/2"]);
    NonBlankCons("b/1", ["", "c/2"]);
    assert ["c/2"] + [] == ["c/2"] && [""] + ["c/2"] == ["", "c/2"] && ["b/1"] + ["", "c/2"] == ["b/1", "", "c/2"];
    assert ["b/1"] + ["c/2"] == ["b/1", "c/2"];
    FirstLetterOrders("b/1", "c/2");
  }

  lemma NonBlankCons(line: string, rest: seq<string>)
    ensures NonBlank([line] + rest) == (if line == "" then [] else [line]) + NonBlank(rest)
  {
    assert ([line] + rest)[1..] == rest;
  }

  lemma FirstLetterOrders(a: string, b: string)
    requires a != "" && b != "" && a[0] < b[0]
    ensures LexLess(a, b)
  {
  }

  lemma KeyOfOne()
    ensures Contribution("b/1", Query("b", None)) == Some("1")
  {
    assert "b/1"[..2] == "b/" && "b/1"[2..] == "1";
    assert LastSlash("b/") == Some(1);
    assert LastSlash("b/1") == Some(1);
  }

  /** Validation skips blank lines, but the search may land on one and turn the wrong way:
      a key above it is lost. */
  lemma BlankLineHidesKey()
    ensures
      var s := "b/1\n\nc/2\n";
      && Accepted(s) && !NoBlankBelow(s)
      && ScanFrom(s, FirstAtOrAfter(s, "b"), Query("b", None), []) == []
      && "b/1" in Lines(s, 0) && Contribution("b/1", Query("b", None)) == Some("1")
  {
    hide ScanFrom, FirstAtOrAfter, Contribution, Lines, NonBlank, Ascending;
    var s := "b/1\n\nc/2\n";
    EndIs(s, 0, 3);
    EndIs(s, 4, 4);
    EndIs(s, 5, 8);
    EndIs(s, 7, 8);
    BeginIs(s, 4, 4);
    BeginIs(s, 5, 7);
    assert s[0..3] == "b/1" && s[4..4] == "" && s[5..8] == "c/2";
    MisledSearch(s);
    ThreeLines(s);
    assert Lines(s, 0) == ["b/1", "", "c/2"];
    assert "b/1" == Lines(s, 0)[0];
    ThreeLinesAccepted();
    KeyOfOne();
    assert LineStart(s, 0) && LineStart(s, 4) && LineAt(s, 0) != "" && LineAt(s, 4) == "";
  }

  // ---------- what a scan returns ----------

  lemma {:induction false} CollectContents(lines: seq<string>, query: Query, found: seq<string>)
    ensures forall id :: id in Collect(lines, query, found) <==>
      id in found || exists key :: key in lines && Contribution(key, query) == Some(id)
    decreases |lines|
  {
    hide Contribution;
    if lines != [] {
      CollectContents(lines[1..], query, Note(found, Contribution(lines[0], query)));
      assert forall key :: key in lines <==> key == lines[0] || key in lines[1..];
    }
  }

  predicate NoRepeats(ids: seq<string>) {
    forall i, j :: 0 <= i < j < |ids| ==> ids[i] != ids[j]
  }

  lemma {:induction false} CollectOnce(lines: seq<string>, query: Query, found: seq<string>)
    requires NoRepeats(found)
    ensures NoRepeats(Collect(lines, query, found))
    decreases |lines|
  {
    hide Contribution;
    if lines != [] {
      CollectOnce(lines[1..], query, Note(found, Contribution(lines[0], query)));
    }
  }

  lemma {:induction false} LastSlashIs(key: string)
    requires '/' in key
    ensures LastSlash(key).Some? && key[LastSlash(key).value + 1..] == IndexPlan.KeyDocument(key)
  {
    var n := LastSlash(key).value;
    IndexPlan.AfterLastSlashOf(key[..n], key[n + 1..]);
    assert key == key[..n] + ("/" + key[n + 1..]);
  }

  lemma ContributionIs(key: string, prefix: string)
    ensures Contribution(key, Query(prefix, None)) ==
      if prefix <= key && '/' in key && IndexPlan.KeyDocument(key) != "" then Some(IndexPlan.KeyDocument(key)) else None
  {
    if '/' in key {
      LastSlashIs(key);
    } else {
      NoSlash(key);
    }
  }

  lemma {:induction false} NoSlash(key: string)
    requires '/' !in key
    ensures LastSlash(key).None?
  {
    if key != "" {
      assert key[|key| - 1] in key;
      NoSlash(key[..|key| - 1]);
    }
  }

  /** The file search implements the planner's scan: on a sorted text whose lines are the
      keys of an index it returns each identifier of a key with the prefix, once. */
  lemma SnapshotImplementsScan(s: string, keys: set<string>, prefix: string)
    requires Sorted(s) && forall key :: key in Lines(s, 0) <==> key in keys
    ensures
      var ids := ScanFrom(s, FirstAtOrAfter(s, prefix), Query(prefix, None), []);
      && (forall id :: id in ids <==> id in IndexPlan.Scan(keys, prefix))
      && NoRepeats(ids)
  {
    var query := Query(prefix, None);
    ScanIsComplete(s, query);
    hide ScanFrom, FirstAtOrAfter, Contribution, Lines, Sorted;
    CollectContents(Lines(s, 0), query, []);
    CollectOnce(Lines(s, 0), query, []);
    forall id
      ensures (exists key :: key in keys && Contribution(key, query) == Some(id)) <==> id in IndexPlan.Scan(keys, prefix)
    {
      forall key
        ensures Contribution(key, query) ==
          if prefix <= key && '/' in key && IndexPlan.KeyDocument(key) != "" then Some(IndexPlan.KeyDocument(key)) else None
      {
        ContributionIs(key, prefix);
      }
    }
  }

  // ---------- several constraints ----------

  function KeepIn(list: seq<string>, allowed: seq<string>): seq<string> {
    if list == [] then []
    else (if list[0] in allowed then [list[0]] else []) + KeepIn(list[1..], allowed)
  }

  function One(s: string, query: Query): seq<string> {
    ScanFrom(s, FirstAtOrAfter(s, query.prefix), query, [])
  }

  /** The first constraint gives the order, the later ones filter. */
  function All(s: string, queries: seq<Query>): seq<string>
    requires queries != []
  {
    if |queries| == 1 then One(s, queries[0])
    else KeepIn(All(s, queries[..|queries| - 1]), One(s, queries[|queries| - 1]))
  }

  method FilterBy(current: seq<string>, allowed: seq<string>) returns (kept: seq<string>)
    ensures kept == KeepIn(current, allowed)
  {
    kept := [];
    assert current[0..] == current && kept + KeepIn(current, allowed) == KeepIn(current, allowed);
    for i := 0 to |current|
      invariant kept + KeepIn(current[i..], allowed) == KeepIn(current, allowed)
    {
      KeepInNext(kept, current, allowed, i);
      if current[i] in allowed {
        kept := kept + [current[i]];
      }
    }
    assert current[|current|..] == [] && kept + [] == kept;
  }

  lemma KeepInNext(kept: seq<string>, current: seq<string>, allowed: seq<string>, i: nat)
    requires i < |current|
    ensures kept + KeepIn(current[i..], allowed)
         == (if current[i] in allowed then kept + [current[i]] else kept) + KeepIn(current[i + 1..], allowed)
  {
    assert current[i..][1..] == current[i + 1..];
    var rest := KeepIn(current[i + 1..], allowed);
    assert kept + ([current[i]] + rest) == kept + [current[i]] + rest;
    assert [] + rest == rest;
  }

  method Scan(s: string, queries: seq<Query>) returns (result: Option<seq<string>>)
    ensures result == if queries == [] then None else Some(All(s, queries))
  {
    hide One, KeepIn;
    if queries == [] {
      return None;
    }
    var candidates := ScanOne(s, queries[0]);
    OneIs(s, queries[0]);
    assert queries[..1] == [queries[0]];
    for n := 1 to |queries|
      invariant candidates == All(s, queries[..n])
    {
      var next := ScanOne(s, queries[n]);
      OneIs(s, queries[n]);
      candidates := FilterBy(candidates, next);
      assert queries[..n + 1][..n] == queries[..n];
    }
    assert queries[..|queries|] == queries;
    return Some(candidates);
  }

  lemma OneIs(s: string, query: Query)
    ensures One(s, query) == ScanFrom(s, FirstAtOrAfter(s, query.prefix), query, [])
  {
  }

  lemma {:induction false} KeepInContents(list: seq<string>, allowed: seq<string>)
    ensures forall id :: id in KeepIn(list, allowed) <==> id in list && id in allowed
    decreases |list|
  {
    if list != [] {
      KeepInContents(list[1..], allowed);
      assert forall id :: id in list <==> id == list[0] || id in list[1..];
    }
  }

  /** A scan by several constraints returns the identifiers that satisfy each of them. */
  lemma {:induction false} ScanIntersects(s: string, queries: seq<Query>, id: string)
    requires queries != []
    ensures id in All(s, queries) <==> forall i :: 0 <= i < |queries| ==> id in One(s, queries[i])
    decreases |queries|
  {
    hide One;
    if |queries| > 1 {
      var init := queries[..|queries| - 1];
      ScanIntersects(s, init, id);
      KeepInContents(All(s, init), One(s, queries[|queries| - 1]));
      assert forall i :: 0 <= i < |init| ==> init[i] == queries[i];
    }
  }
}
