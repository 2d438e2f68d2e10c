/** The SQL LIKE matcher: greedy matching that backtracks to the most recent `%` only. */
module Like {
  /** The LIKE relation: `%` matches any sequence of code units, and `_` exactly one when
      `single` enables it. */
  ghost predicate Matches(value: string, pattern: string, single: bool)
    decreases |pattern|
  {
    if pattern == "" then value == ""
    else if pattern[0] == '%' then
      exists k :: 0 <= k <= |value| && Matches(value[k..], pattern[1..], single)
    else
      value != "" && Literal(pattern[0], value[0], single) && Matches(value[1..], pattern[1..], single)
  }

  predicate Literal(token: char, unit: char, single: bool) {
    token == unit || (single && token == '_')
  }

  predicate AllPercent(pattern: string) {
    forall i :: 0 <= i < |pattern| ==> pattern[i] == '%'
  }

  // ---------- the matcher as a transition function ----------

  /** The four loop variables; `wildcard` is -1 until a `%` has been passed. */
  datatype Cursor = Cursor(value: nat, pattern: nat, wildcard: int, wildcardValue: nat)

  predicate InBounds(value: string, pattern: string, c: Cursor) {
    && c.wildcardValue <= c.value <= |value|
    && -1 <= c.wildcard < c.pattern <= |pattern|
  }

  datatype Move = Next(cursor: Cursor) | Reject

  /** One iteration of the main loop. */
  function Iterate(value: string, pattern: string, single: bool, c: Cursor): (m: Move)
    requires InBounds(value, pattern, c) && c.value < |value|
    ensures m.Next? ==> InBounds(value, pattern, m.cursor)
  {
    if c.pattern < |pattern| && Literal(pattern[c.pattern], value[c.value], single) then
      Next(c.(value := c.value + 1, pattern := c.pattern + 1))
    else if c.pattern < |pattern| && pattern[c.pattern] == '%' then
      Next(Cursor(c.value, c.pattern + 1, c.pattern, c.value))
    else if c.wildcard != -1 then
      Next(Cursor(c.wildcardValue + 1, c.wildcard + 1, c.wildcard, c.wildcardValue + 1))
    else
      Reject
  }

  /** The verdict of the loop and the trailing `%` scan, from cursor `c`. */
  function Verdict(value: string, pattern: string, single: bool, c: Cursor): bool
    requires InBounds(value, pattern, c)
    decreases |value| - c.wildcardValue, |pattern| - c.wildcard, |value| - c.value
  {
    if c.value == |value| then AllPercent(pattern[c.pattern..])
    else
      match Iterate(value, pattern, single, c)
      case Next(c') => Verdict(value, pattern, single, c')
      case Reject => false
  }

  function Matcher(value: string, pattern: string, single: bool): bool {
    Verdict(value, pattern, single, Cursor(0, 0, -1, 0))
  }

  /** How often the main loop runs from cursor `c`. */
  function Iterations(value: string, pattern: string, single: bool, c: Cursor): nat
    requires InBounds(value, pattern, c)
    decreases |value| - c.wildcardValue, |pattern| - c.wildcard, |value| - c.value
  {
    if c.value == |value| then 0
    else
      match Iterate(value, pattern, single, c)
      case Next(c') => 1 + Iterations(value, pattern, single, c')
      case Reject => 1
  }

  function Work(value: string, pattern: string, single: bool): nat {
    Iterations(value, pattern, single, Cursor(0, 0, -1, 0))
  }

  /** The matcher itself, with a bound on its work: the pair (backtracking start, pattern
      position) grows lexicographically. */
  method MatchesLike(value: string, pattern: string, singleCharacterWildcard: bool := true)
    returns (matched: bool, ghost iterations: nat)
    ensures matched == Matcher(value, pattern, singleCharacterWildcard)
    ensures iterations == Work(value, pattern, singleCharacterWildcard)
    ensures iterations < (|value| + 1) * (|pattern| + 1)
  {
    var valueIndex, patternIndex, wildcardIndex, wildcardValueIndex := 0, 0, -1, 0;
    ghost var c := Cursor(0, 0, -1, 0);
    iterations := 0;
    while valueIndex < |value|
      invariant c == Cursor(valueIndex, patternIndex, wildcardIndex, wildcardValueIndex)
      invariant InBounds(value, pattern, c)
      invariant Matcher(value, pattern, singleCharacterWildcard)
             == Verdict(value, pattern, singleCharacterWildcard, c)
      invariant iterations + Iterations(value, pattern, singleCharacterWildcard, c)
             == Work(value, pattern, singleCharacterWildcard)
      invariant iterations <= Rank(wildcardValueIndex, patternIndex, |pattern| + 1)
      decreases |value| - wildcardValueIndex, |pattern| - wildcardIndex, |value| - valueIndex
    {
      ghost var m := Iterate(value, pattern, singleCharacterWildcard, c);
      if m.Next? {
        RankGrows(c, m.cursor, |pattern| + 1);
      } else {
        RankBound(c, |value|, |pattern|);
      }
      iterations := iterations + 1;
      if patternIndex < |pattern|
         && ((singleCharacterWildcard && pattern[patternIndex] == '_')
             || pattern[patternIndex] == value[valueIndex]) {
        valueIndex := valueIndex + 1;
        patternIndex := patternIndex + 1;
        c := m.cursor;
        continue;
      }
      if patternIndex < |pattern| && pattern[patternIndex] == '%' {
        wildcardIndex := patternIndex;
        patternIndex := patternIndex + 1;
        wildcardValueIndex := valueIndex;
        c := m.cursor;
        continue;
      }
      if wildcardIndex != -1 {
        patternIndex := wildcardIndex + 1;
        wildcardValueIndex := wildcardValueIndex + 1;
        valueIndex := wildcardValueIndex;
        c := m.cursor;
        continue;
      }
      return false, iterations;
    }
    RankBound(c, |value|, |pattern|);
    while patternIndex < |pattern| && pattern[patternIndex] == '%'
      invariant c.pattern <= patternIndex <= |pattern|
      invariant forall i :: c.pattern <= i < patternIndex ==> pattern[i] == '%'
    {
      patternIndex := patternIndex + 1;
    }
    matched := patternIndex == |pattern|;
    if !matched {
      assert pattern[c.pattern..][patternIndex - c.pattern] != '%';
    }
  }

  function Rank(start: nat, position: nat, width: nat): nat {
    start * width + position
  }

  lemma RankGrows(c: Cursor, c': Cursor, width: nat)
    requires c.pattern < width
    requires c'.wildcardValue > c.wildcardValue
             || (c'.wildcardValue == c.wildcardValue && c'.pattern > c.pattern)
    ensures Rank(c.wildcardValue, c.pattern, width) < Rank(c'.wildcardValue, c'.pattern, width)
  {
    if c'.wildcardValue > c.wildcardValue {
      var more := c'.wildcardValue - c.wildcardValue - 1;
      assert (c.wildcardValue + 1 + more) * width == c.wildcardValue * width + width + more * width;
      assert more * width >= 0;
    }
  }

  lemma RankBound(c: Cursor, n: nat, m: nat)
    requires c.wildcardValue <= n && c.pattern <= m
    ensures Rank(c.wildcardValue, c.pattern, m + 1) < (n + 1) * (m + 1)
    ensures c.wildcardValue < n ==> Rank(c.wildcardValue, c.pattern, m + 1) + 1 < (n + 1) * (m + 1)
  {
    assert (n + 1) * (m + 1) == c.wildcardValue * (m + 1) + (n + 1 - c.wildcardValue) * (m + 1);
    assert (n + 1 - c.wildcardValue) * (m + 1) >= m + 1;
    if c.wildcardValue < n {
      assert (n + 1 - c.wildcardValue) * (m + 1)
          == (n - c.wildcardValue) * (m + 1) + (m + 1);
    }
  }

  // ---------- what the matcher decides ----------

  /** Values the matcher treats as LIKE does: the literal test runs before the `%` test,
      so a `%` in the value can swallow a wildcard. */
  predicate Plain(value: string, single: bool) {
    forall i :: 0 <= i < |value| && value[i] == '%' ==> !single && i == |value| - 1
  }

  lemma {:induction false} MatchesEmpty(pattern: string, single: bool)
    ensures Matches("", pattern, single) <==> AllPercent(pattern)
    decreases |pattern|
  {
    if pattern != "" {
      MatchesEmpty(pattern[1..], single);
      if pattern[0] == '%' {
        assert ""[0..] == "";
        assert AllPercent(pattern) <==> AllPercent(pattern[1..]) by {
          assert forall i :: 1 <= i < |pattern| ==> pattern[i] == pattern[1..][i - 1];
        }
      }
    }
  }

  /** A pattern prefix without `%` consumes exactly its length. */
  lemma {:induction false} MatchesSegment(value: string, segment: string, rest: string, single: bool)
    requires '%' !in segment && Matches(value, segment + rest, single)
    ensures |segment| <= |value| && Matches(value[|segment|..], rest, single)
    decreases |segment|
  {
    if segment == "" {
      assert segment + rest == rest && value[0..] == value;
    } else {
      assert (segment + rest)[0] == segment[0];
      assert (segment + rest)[1..] == segment[1..] + rest;
      MatchesSegment(value[1..], segment[1..], rest, single);
      assert value[1..][|segment| - 1..] == value[|segment|..];
    }
  }

  lemma MatchesPercent(value: string, rest: string, single: bool)
    ensures Matches(value, "%" + rest, single) <==>
            exists k :: 0 <= k <= |value| && Matches(value[k..], rest, single)
  {
    assert ("%" + rest)[1..] == rest;
  }

  /** A trailing `%` in the value with `_` disabled: only wildcards can match it. */
  lemma {:induction false} MatchesOnePercent(pattern: string)
    ensures Matches("%", pattern, false) ==> AllPercent(pattern)
    decreases |pattern|
  {
    if pattern != "" && pattern[0] == '%' && Matches("%", pattern, false) {
      var k :| 0 <= k <= 1 && Matches("%"[k..], pattern[1..], false);
      if k == 0 {
        assert "%"[0..] == "%";
        MatchesOnePercent(pattern[1..]);
      } else {
        assert "%"[1..] == "";
        MatchesEmpty(pattern[1..], false);
      }
      assert forall i :: 1 <= i < |pattern| ==> pattern[i] == pattern[1..][i - 1];
    }
  }

  /** A match of some suffix, from position `n` on. */
  ghost predicate MatchesFrom(value: string, n: nat, rest: string, single: bool) {
    exists k :: n <= k <= |value| && Matches(value[k..], rest, single)
  }

  lemma MatchesFromSplits(value: string, n: nat, rest: string, single: bool)
    requires n <= |value|
    ensures MatchesFrom(value, n, rest, single) <==>
            Matches(value[n..], rest, single) || MatchesFrom(value, n + 1, rest, single)
  {
  }

  lemma PercentMatchesFrom(value: string, n: nat, rest: string, single: bool)
    requires n <= |value|
    ensures Matches(value[n..], "%" + rest, single) <==> MatchesFrom(value, n, rest, single)
  {
    var here := value[n..];
    MatchesPercent(here, rest, single);
    if Matches(here, "%" + rest, single) {
      var k :| 0 <= k <= |here| && Matches(here[k..], rest, single);
      assert here[k..] == value[n + k..];
    }
    if MatchesFrom(value, n, rest, single) {
      var k :| n <= k <= |value| && Matches(value[k..], rest, single);
      assert here[k - n..] == value[k..];
    }
  }

  /** The matches still reachable by moving the most recent wildcard further right. */
  ghost predicate Later(value: string, pattern: string, single: bool, c: Cursor)
    requires InBounds(value, pattern, c)
  {
    c.wildcard >= 0 && MatchesFrom(value, c.wildcardValue + 1, pattern[c.wildcard + 1..], single)
  }

  ghost predicate Reachable(value: string, pattern: string, single: bool, c: Cursor)
    requires InBounds(value, pattern, c)
  {
    Matches(value[c.value..], pattern[c.pattern..], single) || Later(value, pattern, single, c)
  }

  /** The pattern between the wildcard and the cursor, matched unit by unit.  It holds no
      `%`, except that the final `%` of a value may have matched one literally. */
  ghost predicate Aligned(value: string, pattern: string, single: bool, c: Cursor)
    requires InBounds(value, pattern, c)
  {
    && (c.wildcard == -1 ==> c.wildcardValue == 0)
    && (c.wildcard >= 0 ==> pattern[c.wildcard] == '%')
    && c.value - c.wildcardValue == c.pattern - (c.wildcard + 1)
    && (forall i :: c.wildcard + 1 <= i < c.pattern && pattern[i] == '%'
          ==> i == c.pattern - 1 && c.value == |value|)
  }

  lemma SegmentUsesAll(value: string, segment: string, rest: string, single: bool)
    requires '%' !in segment && |value| <= |segment| && Matches(value, segment + ("%" + rest), single)
    ensures AllPercent(rest)
  {
    MatchesSegment(value, segment, "%" + rest, single);
    assert value[|segment|..] == "";
    MatchesPercent("", rest, single);
    assert ""[0..] == "";
    MatchesEmpty(rest, single);
  }

  /** The matcher's answer at the end of the value is final: no later start can match. */
  lemma NothingLater(value: string, pattern: string, single: bool, c: Cursor)
    requires InBounds(value, pattern, c) && Aligned(value, pattern, single, c) && c.value == |value|
    requires Later(value, pattern, single, c)
    ensures AllPercent(pattern[c.pattern..])
  {
    var k :| c.wildcardValue < k <= |value| && Matches(value[k..], pattern[c.wildcard + 1..], single);
    var whole := pattern[c.wildcard + 1..c.pattern];
    var rest := pattern[c.pattern..];
    if '%' in whole {
      assert pattern[c.pattern - 1] == '%';
      var segment := pattern[c.wildcard + 1..c.pattern - 1];
      assert pattern[c.wildcard + 1..] == segment + ("%" + rest);
      SegmentUsesAll(value[k..], segment, rest, single);
    } else {
      assert pattern[c.wildcard + 1..] == whole + rest;
      MatchesSegment(value[k..], whole, rest, single);
    }
  }

  /** Passing a new `%` loses nothing: what an earlier wildcard could still reach, the
      new one reaches as well. */
  lemma NewWildcardCovers(value: string, pattern: string, single: bool, c: Cursor)
    requires InBounds(value, pattern, c) && Aligned(value, pattern, single, c) && c.value < |value|
    requires c.pattern < |pattern| && pattern[c.pattern] == '%'
    requires Later(value, pattern, single, c)
    ensures Matches(value[c.value..], pattern[c.pattern..], single)
  {
    var k :| c.wildcardValue < k <= |value| && Matches(value[k..], pattern[c.wildcard + 1..], single);
    var segment := pattern[c.wildcard + 1..c.pattern];
    var rest := pattern[c.pattern + 1..];
    assert pattern[c.pattern..] == "%" + rest;
    assert pattern[c.wildcard + 1..] == segment + ("%" + rest);
    MatchesSegment(value[k..], segment, "%" + rest, single);
    var from := k + |segment|;
    assert value[k..][|segment|..] == value[from..];
    PercentMatchesFrom(value, from, rest, single);
    PercentMatchesFrom(value, c.value, rest, single);
  }

  /** The matcher may go on from `c'` in place of `c`: it stays aligned and decides the same. */
  ghost predicate Replaces(value: string, pattern: string, single: bool, c: Cursor, c': Cursor)
    requires InBounds(value, pattern, c) && InBounds(value, pattern, c')
  {
    && Aligned(value, pattern, single, c')
    && (Reachable(value, pattern, single, c) <==> Reachable(value, pattern, single, c'))
  }

  /** Only the final `%` of a value, with `_` disabled, can be taken literally. */
  lemma LiteralPercent(here: string, rest: string)
    requires here == "%" && rest != "" && rest[0] == '%'
    ensures Matches(here, rest, false) <==> Matches("", rest[1..], false)
  {
    assert here[0..] == here && here[1..] == "";
    MatchesEmpty(rest[1..], false);
    if Matches(here, rest, false) {
      MatchesOnePercent(rest);
      assert forall i :: 1 <= i < |rest| ==> rest[i] == rest[1..][i - 1];
    }
    if Matches("", rest[1..], false) {
      assert Matches(here[1..], rest[1..], false);
    }
  }

  lemma LiteralMatches(value: string, pattern: string, single: bool, c: Cursor)
    requires InBounds(value, pattern, c) && c.value < |value| && c.pattern < |pattern|
    requires Plain(value, single) && Literal(pattern[c.pattern], value[c.value], single)
    ensures Matches(value[c.value..], pattern[c.pattern..], single)
        <==> Matches(value[c.value + 1..], pattern[c.pattern + 1..], single)
  {
    var here, rest := value[c.value..], pattern[c.pattern..];
    assert here[1..] == value[c.value + 1..] && rest[1..] == pattern[c.pattern + 1..];
    if rest[0] == '%' {
      assert here == "%" && here[1..] == "";
      LiteralPercent(here, rest);
    }
  }

  lemma LiteralAligned(value: string, pattern: string, single: bool, c: Cursor)
    requires InBounds(value, pattern, c) && Aligned(value, pattern, single, c) && c.value < |value|
    requires Plain(value, single) && c.pattern < |pattern|
    requires Literal(pattern[c.pattern], value[c.value], single)
    ensures Aligned(value, pattern, single, c.(value := c.value + 1, pattern := c.pattern + 1))
  {
  }

  lemma LiteralStep(value: string, pattern: string, single: bool, c: Cursor)
    requires InBounds(value, pattern, c) && Aligned(value, pattern, single, c) && c.value < |value|
    requires Plain(value, single) && c.pattern < |pattern|
    requires Literal(pattern[c.pattern], value[c.value], single)
    ensures Replaces(value, pattern, single, c, c.(value := c.value + 1, pattern := c.pattern + 1))
  {
    hide Matches, Aligned, MatchesFrom, Literal, Plain;
    LiteralAligned(value, pattern, single, c);
    LiteralMatches(value, pattern, single, c);
    var c' := c.(value := c.value + 1, pattern := c.pattern + 1);
    assert Later(value, pattern, single, c') == Later(value, pattern, single, c);
  }

  /** A `%` at the cursor matches here exactly when its rest matches here or later. */
  lemma WildcardSplits(value: string, pattern: string, single: bool, c: Cursor)
    requires InBounds(value, pattern, c) && c.pattern < |pattern| && pattern[c.pattern] == '%'
    ensures Matches(value[c.value..], pattern[c.pattern..], single) <==>
            Reachable(value, pattern, single, Cursor(c.value, c.pattern + 1, c.pattern, c.value))
  {
    var rest := pattern[c.pattern + 1..];
    assert pattern[c.pattern..] == "%" + rest;
    PercentMatchesFrom(value, c.value, rest, single);
    MatchesFromSplits(value, c.value, rest, single);
  }

  lemma WildcardStep(value: string, pattern: string, single: bool, c: Cursor)
    requires InBounds(value, pattern, c) && Aligned(value, pattern, single, c) && c.value < |value|
    requires c.pattern < |pattern| && pattern[c.pattern] == '%'
    ensures Replaces(value, pattern, single, c, Cursor(c.value, c.pattern + 1, c.pattern, c.value))
  {
    WildcardSplits(value, pattern, single, c);
    if Later(value, pattern, single, c) {
      NewWildcardCovers(value, pattern, single, c);
    }
  }

  lemma BacktrackStep(value: string, pattern: string, single: bool, c: Cursor)
    requires InBounds(value, pattern, c) && Aligned(value, pattern, single, c) && c.value < |value|
    requires !Matches(value[c.value..], pattern[c.pattern..], single) && c.wildcard != -1
    ensures
      var c' := Cursor(c.wildcardValue + 1, c.wildcard + 1, c.wildcard, c.wildcardValue + 1);
      InBounds(value, pattern, c') && Replaces(value, pattern, single, c, c')
  {
    hide Matches, MatchesFrom;
    MatchesFromSplits(value, c.wildcardValue + 1, pattern[c.wildcard + 1..], single);
    var c' := Cursor(c.wildcardValue + 1, c.wildcard + 1, c.wildcard, c.wildcardValue + 1);
    assert Aligned(value, pattern, single, c');
  }

  /** Neither literal nor wildcard: the pattern cannot match from here. */
  predicate Stuck(value: string, pattern: string, single: bool, c: Cursor)
    requires InBounds(value, pattern, c) && c.value < |value|
  {
    c.pattern < |pattern| ==> pattern[c.pattern] != '%' && !Literal(pattern[c.pattern], value[c.value], single)
  }

  lemma StuckCannotMatch(value: string, pattern: string, single: bool, c: Cursor)
    requires InBounds(value, pattern, c) && c.value < |value| && Stuck(value, pattern, single, c)
    ensures !Matches(value[c.value..], pattern[c.pattern..], single)
  {
    Mismatch(value[c.value..], pattern[c.pattern..], single);
  }

  lemma StuckWithoutWildcard(value: string, pattern: string, single: bool, c: Cursor)
    requires InBounds(value, pattern, c) && c.value < |value| && Stuck(value, pattern, single, c)
    requires c.wildcard == -1
    ensures !Reachable(value, pattern, single, c) && Iterate(value, pattern, single, c) == Reject
  {
    StuckCannotMatch(value, pattern, single, c);
  }

  /** What one iteration must keep. */
  ghost predicate Sound(value: string, pattern: string, single: bool, c: Cursor, m: Move)
    requires InBounds(value, pattern, c) && (m.Next? ==> InBounds(value, pattern, m.cursor))
  {
    if m.Next? then Replaces(value, pattern, single, c, m.cursor) else !Reachable(value, pattern, single, c)
  }

  lemma StuckStep(value: string, pattern: string, single: bool, c: Cursor)
    requires InBounds(value, pattern, c) && Aligned(value, pattern, single, c) && c.value < |value|
    requires Stuck(value, pattern, single, c)
    ensures Sound(value, pattern, single, c, Iterate(value, pattern, single, c))
  {
    if c.wildcard != -1 {
      StuckCannotMatch(value, pattern, single, c);
      BacktrackStep(value, pattern, single, c);
    } else {
      StuckWithoutWildcard(value, pattern, single, c);
    }
  }

  lemma IterateKeepsReachable(value: string, pattern: string, single: bool, c: Cursor)
    requires InBounds(value, pattern, c) && Aligned(value, pattern, single, c) && c.value < |value|
    requires Plain(value, single)
    ensures Sound(value, pattern, single, c, Iterate(value, pattern, single, c))
  {
    hide Replaces, Aligned, Plain, Matches, Literal;
    var m := Iterate(value, pattern, single, c);
    if Stuck(value, pattern, single, c) {
      StuckStep(value, pattern, single, c);
    } else if Literal(pattern[c.pattern], value[c.value], single) {
      LiteralStep(value, pattern, single, c);
      assert m == Next(c.(value := c.value + 1, pattern := c.pattern + 1));
    } else {
      WildcardStep(value, pattern, single, c);
      assert m == Next(Cursor(c.value, c.pattern + 1, c.pattern, c.value));
    }
  }

  lemma Mismatch(value: string, pattern: string, single: bool)
    requires value != "" && (pattern != "" ==> pattern[0] != '%' && !Literal(pattern[0], value[0], single))
    ensures !Matches(value, pattern, single)
  {
  }

  lemma {:induction false} VerdictIsReachable(value: string, pattern: string, single: bool, c: Cursor)
    requires InBounds(value, pattern, c) && Aligned(value, pattern, single, c) && Plain(value, single)
    ensures Verdict(value, pattern, single, c) <==> Reachable(value, pattern, single, c)
    decreases |value| - c.wildcardValue, |pattern| - c.wildcard, |value| - c.value
  {
    hide InBounds, Aligned, Reachable, Plain, Iterate, Verdict, AllPercent;
    WithinValue(value, pattern, c);
    VerdictUnfold(value, pattern, single, c);
    if c.value == |value| {
      EndIsReachable(value, pattern, single, c);
    } else {
      IterateKeepsReachable(value, pattern, single, c);
      var m := Iterate(value, pattern, single, c);
      if m.Next? {
        IterateProgresses(value, pattern, single, c);
        VerdictIsReachable(value, pattern, single, m.cursor);
      }
    }
  }

  lemma WithinValue(value: string, pattern: string, c: Cursor)
    requires InBounds(value, pattern, c)
    ensures c.wildcardValue <= c.value <= |value| && -1 <= c.wildcard < c.pattern <= |pattern|
  {
  }

  lemma VerdictUnfold(value: string, pattern: string, single: bool, c: Cursor)
    requires InBounds(value, pattern, c)
    ensures Verdict(value, pattern, single, c) ==
      if c.value == |value| then AllPercent(pattern[c.pattern..])
      else
        var m := Iterate(value, pattern, single, c);
        m.Next? && Verdict(value, pattern, single, m.cursor)
  {
    hide AllPercent, Iterate;
  }

  /** Each iteration moves the wildcard's start, the wildcard or the value position on. */
  lemma IterateProgresses(value: string, pattern: string, single: bool, c: Cursor)
    requires InBounds(value, pattern, c) && c.value < |value| && Iterate(value, pattern, single, c).Next?
    ensures
      var c' := Iterate(value, pattern, single, c).cursor;
      && c.wildcardValue <= c'.wildcardValue <= |value| && c'.wildcard <= |pattern| && c'.value <= |value|
      && (c.wildcardValue == c'.wildcardValue ==>
            c.wildcard < c'.wildcard || (c.wildcard == c'.wildcard && c.value < c'.value))
  {
  }

  /** At the end of the value only the rest of the pattern decides. */
  lemma EndIsReachable(value: string, pattern: string, single: bool, c: Cursor)
    requires InBounds(value, pattern, c) && Aligned(value, pattern, single, c) && c.value == |value|
    ensures AllPercent(pattern[c.pattern..]) <==> Reachable(value, pattern, single, c)
  {
    hide Aligned, Later, Matches, AllPercent;
    MatchesEmpty(pattern[c.pattern..], single);
    assert value[c.value..] == "";
    if Later(value, pattern, single, c) {
      NothingLater(value, pattern, single, c);
    }
  }

  lemma PlainValuesAreExact(value: string, pattern: string, single: bool)
    requires Plain(value, single)
    ensures Matcher(value, pattern, single) <==> Matches(value, pattern, single)
  {
    assert value[0..] == value && pattern[0..] == pattern;
    VerdictIsReachable(value, pattern, single, Cursor(0, 0, -1, 0));
  }

  // ---------- and exactly when ----------

  lemma {:induction false} MatchesSelf(segment: string, value: string, rest: string, single: bool)
    requires '%' !in segment && Matches(value, rest, single)
    ensures Matches(segment + value, segment + rest, single)
    decreases |segment|
  {
    if segment == "" {
      assert segment + rest == rest && segment + value == value;
    } else {
      MatchesSelf(segment[1..], value, rest, single);
      assert (segment + rest)[1..] == segment[1..] + rest;
      assert (segment + value)[1..] == segment[1..] + value;
    }
  }

  lemma {:induction false} VerdictOnSelf(value: string, pattern: string, single: bool, n: nat, i: nat)
    requires i <= n < |value| && n <= |pattern| && value[..n] == pattern[..n]
    ensures Verdict(value, pattern, single, Cursor(i, i, -1, 0)) == Verdict(value, pattern, single, Cursor(n, n, -1, 0))
    decreases n - i
  {
    if i < n {
      assert value[..n][i] == pattern[..n][i];
      VerdictOnSelf(value, pattern, single, n, i + 1);
    }
  }

  /** A wildcard and what is left of a one-unit value, or of a longer one, match. */
  lemma TailMatches(rest: string, single: bool)
    requires rest != "" && (|rest| == 1 ==> single)
    ensures Matches(rest, "%" + if |rest| == 1 then "_" else "", single)
  {
    var tail := if |rest| == 1 then "_" else "";
    MatchesPercent(rest, tail, single);
    if tail == "" {
      assert rest[|rest|..] == "";
    } else {
      assert rest[0..] == rest && rest[1..] == "" && tail[1..] == "";
      assert Matches(rest[0..], tail, single);
    }
  }

  /** A `%` of the value taken literally uses up the wildcard: what follows it must match. */
  lemma LiteralPercentRejects(value: string, tail: string, single: bool, n: nat)
    requires n < |value| && value[n] == '%' && (n == |value| - 1 <==> tail == "_")
    requires tail == "_" || tail == ""
    ensures !Matcher(value, value[..n] + ("%" + tail), single)
  {
    var pattern := value[..n] + ("%" + tail);
    assert pattern[..n] == value[..n];
    VerdictOnSelf(value, pattern, single, n, 0);
    assert pattern[n] == '%';
    var c := Cursor(n + 1, n + 1, -1, 0);
    assert Iterate(value, pattern, single, Cursor(n, n, -1, 0)) == Next(c);
    assert Verdict(value, pattern, single, Cursor(n, n, -1, 0)) == Verdict(value, pattern, single, c);
    if tail == "_" {
      assert pattern[n + 1..][0] == '_';
    } else {
      assert Iterate(value, pattern, single, c) == Reject;
    }
  }

  /** For a value that is not plain, the text up to its first `%` followed by a wildcard
      (and `_`, when that `%` ends the value) is a pattern LIKE accepts and the matcher
      rejects. */
  lemma NotPlainCounterexample(value: string, single: bool) returns (pattern: string)
    requires !Plain(value, single)
    ensures Matches(value, pattern, single) && !Matcher(value, pattern, single)
  {
    var n := FirstPercent(value);
    var tail := if n == |value| - 1 then "_" else "";
    pattern := value[..n] + ("%" + tail);
    var rest := value[n..];
    TailMatches(rest, single);
    MatchesSelf(value[..n], rest, "%" + tail, single);
    assert value == value[..n] + rest;
    LiteralPercentRejects(value, tail, single, n);
  }

  lemma {:induction false} FirstPercent(value: string) returns (n: nat)
    requires '%' in value
    ensures n < |value| && value[n] == '%' && '%' !in value[..n]
  {
    if value[0] == '%' {
      n := 0;
    } else {
      assert value == [value[0]] + value[1..];
      var m := FirstPercent(value[1..]);
      n := m + 1;
      assert value[..n] == [value[0]] + value[1..][..m];
    }
  }

  /** The matcher decides LIKE for every pattern exactly on the plain values. */
  lemma LikeExactly(value: string, single: bool)
    ensures (forall pattern :: Matcher(value, pattern, single) == Matches(value, pattern, single))
            <==> Plain(value, single)
  {
    if Plain(value, single) {
      forall pattern
        ensures Matcher(value, pattern, single) == Matches(value, pattern, single)
      {
        PlainValuesAreExact(value, pattern, single);
      }
    } else {
      var pattern := NotPlainCounterexample(value, single);
      assert Matcher(value, pattern, single) != Matches(value, pattern, single);
    }
  }

  // ---------- the work is not linear ----------

  function Repeated(n: nat): string {
    seq(n, i => 'a')
  }

  /** `%` and `n` letters that match everywhere, then one that matches nowhere. */
  function Dragging(n: nat): string {
    "%" + Repeated(n) + "b"
  }

  lemma DraggingAt(n: nat)
    ensures |Dragging(n)| == n + 2 && Dragging(n)[0] == '%' && Dragging(n)[n + 1] == 'b'
    ensures forall i :: 1 <= i <= n ==> Dragging(n)[i] == 'a'
  {
  }

  /** From each start in the first half all `n` letters match before the last one fails. */
  lemma {:induction false} OneStart(n: nat, start: nat, j: nat, single: bool)
    requires start < n && j <= n
    ensures |Dragging(n)| == n + 2
    ensures Iterations(Repeated(2 * n), Dragging(n), single, Cursor(start + j, j + 1, 0, start))
         == n - j + 1 + Iterations(Repeated(2 * n), Dragging(n), single, Cursor(start + 1, 1, 0, start + 1))
    decreases n - j
  {
    hide Repeated, Dragging, AllPercent;
    DraggingAt(n);
    RepeatedAt(2 * n);
    if j < n {
      OneStart(n, start, j + 1, single);
    }
  }

  lemma RepeatedAt(n: nat)
    ensures |Repeated(n)| == n && forall i :: 0 <= i < n ==> Repeated(n)[i] == 'a'
  {
  }

  lemma {:induction false} AllStarts(n: nat, start: nat, single: bool)
    requires start <= n
    ensures |Dragging(n)| == n + 2
    ensures Iterations(Repeated(2 * n), Dragging(n), single, Cursor(start, 1, 0, start)) >= (n - start) * (n + 1)
    decreases n - start
  {
    DraggingAt(n);
    if start < n {
      OneStart(n, start, 0, single);
      AllStarts(n, start + 1, single);
      assert (n - start) * (n + 1) == (n - start - 1) * (n + 1) + (n + 1);
    }
  }

  lemma DraggingIsQuadratic(n: nat, single: bool)
    requires n > 0
    ensures Work(Repeated(2 * n), Dragging(n), single) > n * n
  {
    DraggingAt(n);
    AllStarts(n, 0, single);
    assert Iterate(Repeated(2 * n), Dragging(n), single, Cursor(0, 0, -1, 0)) == Next(Cursor(0, 1, 0, 0));
    assert n * (n + 1) == n * n + n;
  }

  /** No multiple of the two lengths together bounds the work. */
  lemma WorkIsNotLinear(factor: nat, single: bool) returns (value: string, pattern: string)
    ensures Work(value, pattern, single) > factor * (|value| + |pattern|)
  {
    var n := 5 * factor + 1;
    value, pattern := Repeated(2 * n), Dragging(n);
    DraggingIsQuadratic(n, single);
    DraggingAt(n);
    assert |value| + |pattern| == 3 * n + 2;
    assert factor * (3 * n + 2) <= factor * (5 * n) by { assert 3 * n + 2 <= 5 * n; }
    assert factor * (5 * n) == (5 * factor) * n;
    assert (5 * factor) * n <= n * n;
  }
}
