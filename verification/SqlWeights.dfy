/** What lexing and parsing can make of a text is bounded by the characters in it: no token
    weighs more than the text it was read from, whatever each character weighs. */
module SqlWeights {
  import opened Common
  import opened SqlLexer
  import opened SqlPieces

  // ---------- weighing texts ----------

  /** What a character weighs in a text, and in a name that was read as an identifier. */
  datatype Scale = Scale(text: char -> nat, name: char -> nat)

  function Weight(f: char -> nat, s: string): nat {
    if s == "" then 0 else f(s[0]) + Weight(f, s[1..])
  }

  /** Blanks are free, both quotes weigh the same, case does not matter, and an identifier
      weighs no more than the text it came from, where its slashes were dots. */
  ghost predicate Fair(w: Scale) {
    && w.text(' ') == 0 && w.text('"') == w.text('\'') && w.name('/') <= w.text('.')
    && (forall c :: w.text(UpperChar(c)) == w.text(c))
    && (forall c :: WordChar(c) ==> w.name(c) <= w.text(c))
  }

  lemma {:induction false} WeightAppend(f: char -> nat, a: string, b: string)
    ensures Weight(f, a + b) == Weight(f, a) + Weight(f, b)
    decreases |a|
  {
    if a == "" {
      assert a + b == b;
    } else {
      assert (a + b)[1..] == a[1..] + b;
      WeightAppend(f, a[1..], b);
    }
  }

  lemma WeightChar(f: char -> nat, c: char)
    ensures Weight(f, [c]) == f(c)
  {
    assert [c][1..] == [];
  }

  lemma WeightSplit(f: char -> nat, s: string, i: nat, j: nat)
    requires i <= j <= |s|
    ensures Weight(f, s[i..]) == Weight(f, s[i..j]) + Weight(f, s[j..])
  {
    assert s[i..] == s[i..j] + s[j..];
    WeightAppend(f, s[i..j], s[j..]);
  }

  lemma {:induction false} WeightAtMost(f: char -> nat, g: char -> nat, s: string)
    requires forall k :: 0 <= k < |s| ==> f(s[k]) <= g(s[k])
    ensures Weight(f, s) <= Weight(g, s)
    decreases |s|
  {
    if s != "" {
      WeightAtMost(f, g, s[1..]);
    }
  }

  lemma {:induction false} WeightUpper(w: Scale, s: string)
    requires Fair(w)
    ensures Weight(w.text, Upper(s)) == Weight(w.text, s)
    decreases |s|
  {
    if s != "" {
      WeightUpper(w, s[1..]);
      assert Upper(s)[1..] == Upper(s[1..]);
    }
  }

  lemma {:induction false} TrimEndPrefix(s: string)
    ensures TrimEnd(s) <= s
    decreases |s|
  {
    if s != "" && Space(s[|s| - 1]) {
      TrimEndPrefix(s[..|s| - 1]);
    }
  }

  lemma TrimWeighs(f: char -> nat, s: string)
    ensures Weight(f, Trim(s)) <= Weight(f, s)
  {
    var start := RunEnd(s, 0, Space);
    var rest := s[start..];
    TrimEndPrefix(rest);
    WeightSplit(f, s, 0, start);
    assert s[0..] == s;
    assert rest == Trim(s) + rest[|Trim(s)|..];
    WeightAppend(f, Trim(s), rest[|Trim(s)|..]);
  }

  // ---------- weighing tokens ----------

  function TokenWeight(w: Scale, t: Token): nat {
    match t.kind
    case STRING => Weight(w.text, t.value) + 2 * w.text('\'')
    case IDENTIFIER => Weight(w.name, t.value)
    case _ => Weight(w.text, t.value)
  }

  function TokensWeight(w: Scale, tokens: seq<Token>): nat {
    if tokens == [] then 0 else TokenWeight(w, tokens[0]) + TokensWeight(w, tokens[1..])
  }

  lemma {:induction false} TokensWeightAppend(w: Scale, a: seq<Token>, b: seq<Token>)
    ensures TokensWeight(w, a + b) == TokensWeight(w, a) + TokensWeight(w, b)
    decreases |a|
  {
    if a == [] {
      assert a + b == b;
    } else {
      assert (a + b)[1..] == a[1..] + b;
      TokensWeightAppend(w, a[1..], b);
    }
  }

  lemma TokensWeightSplit(w: Scale, tokens: seq<Token>, i: nat, j: nat, k: nat)
    requires i <= j <= k <= |tokens|
    ensures TokensWeight(w, tokens[i..k]) == TokensWeight(w, tokens[i..j]) + TokensWeight(w, tokens[j..k])
  {
    assert tokens[i..k] == tokens[i..j] + tokens[j..k];
    TokensWeightAppend(w, tokens[i..j], tokens[j..k]);
  }

  lemma TokensWeightOne(w: Scale, tokens: seq<Token>, i: nat)
    requires i < |tokens|
    ensures TokensWeight(w, tokens[i..i + 1]) == TokenWeight(w, tokens[i])
  {
    assert tokens[i..i + 1] == [tokens[i]];
    assert [tokens[i]][1..] == [];
  }

  // ---------- what lexing gives ----------

  /** A word, or words joined by slashes, that is not reserved. */
  predicate PathName(name: string) {
    && name != "" && WordStart(name[0]) && KeywordKind(name) == IDENTIFIER
    && forall k :: 0 <= k < |name| ==> WordChar(name[k]) || name[k] == '/'
  }

  /** The one text of a token of this kind, if there is only one up to case. */
  function FixedText(kind: Kind): Option<string> {
    match kind
    case SELECT => Some("SELECT")
    case FROM => Some("FROM")
    case WHERE => Some("WHERE")
    case GROUP => Some("GROUP")
    case BY => Some("BY")
    case LIMIT => Some("LIMIT")
    case AND => Some("AND")
    case OR => Some("OR")
    case LIKE => Some("LIKE")
    case NULL => Some("NULL")
    case EQUALS => Some("=")
    case NOT_EQUALS => Some("!=")
    case GREATER_THAN => Some(">")
    case LESS_THAN => Some("<")
    case GREATER_EQUAL => Some(">=")
    case LESS_EQUAL => Some("<=")
    case COMMA => Some(",")
    case ASTERISK => Some("*")
    case EOF => Some("")
    case _ => None
  }

  predicate GoodToken(t: Token) {
    && (t.kind == IDENTIFIER ==> PathName(t.value))
    && (t.kind == NUMBER ==> NumberText(t.value))
    && (t.kind == BOOLEAN ==> Upper(t.value) == "TRUE" || Upper(t.value) == "FALSE")
    && (FixedText(t.kind).Some? ==> Upper(t.value) == FixedText(t.kind).value)
  }

  predicate GoodTokens(tokens: seq<Token>) {
    forall k :: 0 <= k < |tokens| ==> GoodToken(tokens[k])
  }

  lemma {:induction false} RunAccepted(s: string, i: nat, accept: char -> bool)
    requires i <= |s|
    ensures forall k :: i <= k < RunEnd(s, i, accept) ==> accept(s[k])
    decreases |s| - i
  {
    if i < |s| && accept(s[i]) {
      RunAccepted(s, i + 1, accept);
    }
  }

  predicate PathChars(name: string) {
    name != "" && WordStart(name[0]) && forall k :: 0 <= k < |name| ==> WordChar(name[k]) || name[k] == '/'
  }

  /** The name read so far is a path, weighs no more than the text it was read from, and is
      that text if it has no slash. */
  ghost predicate ReadFrom(w: Scale, s: string, i: nat, read: Read) {
    && i <= read.next <= |s| && PathChars(read.value)
    && Weight(w.name, read.value) <= Weight(w.text, s[i..read.next])
    && ('/' !in read.value ==> read.value == s[i..read.next])
  }

  lemma PartWeighs(w: Scale, value: string, source: string, part: string)
    requires Fair(w) && Weight(w.name, value) <= Weight(w.text, source)
    requires forall k :: 0 <= k < |part| ==> WordChar(part[k])
    ensures Weight(w.name, value + "/" + part) <= Weight(w.text, source + "." + part)
  {
    WeightAtMost(w.name, w.text, part);
    WeightAppend(w.name, value + "/", part);
    WeightAppend(w.name, value, "/");
    WeightChar(w.name, '/');
    WeightAppend(w.text, source + ".", part);
    WeightAppend(w.text, source, ".");
    WeightChar(w.text, '.');
  }

  lemma DottedStep(w: Scale, s: string, i: nat, read: Read)
    requires Fair(w) && ReadFrom(w, s, i, read) && AnotherPart(s, read.next)
    ensures
      var part := ReadWord(s, read.next + 1);
      ReadFrom(w, s, i, Read(read.value + "/" + part.value, part.next))
  {
    hide Weight, WordStart, WordChar, Fair;
    var j := read.next;
    var part := ReadWord(s, j + 1);
    RunAccepted(s, j + 1, WordChar);
    assert forall k :: 0 <= k < |part.value| ==> part.value[k] == s[j + 1 + k];
    var source, longer := s[i..j], read.value + "/" + part.value;
    PartWeighs(w, read.value, source, part.value);
    AroundDot(s, i, j, part.next);
    assert longer[|read.value|] == '/';
    PathLonger(read.value, part.value);
  }

  lemma AroundDot(s: string, i: nat, j: nat, k: nat)
    requires i <= j < k <= |s| && s[j] == '.'
    ensures s[i..k] == s[i..j] + "." + s[j + 1..k]
  {
    assert s[j..j + 1] == ".";
    assert s[i..k] == s[i..j] + s[j..j + 1] + s[j + 1..k];
  }

  lemma PathLonger(name: string, part: string)
    requires PathChars(name) && forall k :: 0 <= k < |part| ==> WordChar(part[k])
    ensures PathChars(name + "/" + part)
  {
  }

  lemma {:induction false} DottedWeighs(w: Scale, s: string, i: nat, read: Read)
    requires Fair(w) && ReadFrom(w, s, i, read)
    ensures ReadFrom(w, s, i, ReadDotted(s, read))
    decreases |s| - read.next
  {
    hide ReadFrom, ReadWord, Fair;
    assert read.next <= |s| by { ReadWithin(w, s, i, read); }
    if AnotherPart(s, read.next) {
      var part := ReadWord(s, read.next + 1);
      DottedStep(w, s, i, read);
      DottedWeighs(w, s, i, Read(read.value + "/" + part.value, part.next));
      DottedGoesOn(s, read.value, read.next, part);
    } else {
      DottedEnds(s, read);
    }
  }

  lemma ReadWithin(w: Scale, s: string, i: nat, read: Read)
    requires ReadFrom(w, s, i, read)
    ensures read.next <= |s|
  {
  }

  lemma NoSlashInUpper(word: string)
    requires '/' in word
    ensures '/' in Upper(word) && KeywordKind(word) == IDENTIFIER
  {
    var k :| 0 <= k < |word| && word[k] == '/';
    assert Upper(word)[k] == '/';
    NoKeyword(word);
  }

  lemma NoKeyword(word: string)
    requires '/' in Upper(word)
    ensures KeywordKind(word) == IDENTIFIER
  {
    hide Upper;
    assert '/' !in "SELECT" && '/' !in "FROM" && '/' !in "WHERE" && '/' !in "GROUP" && '/' !in "BY";
    assert '/' !in "LIMIT" && '/' !in "AND" && '/' !in "OR" && '/' !in "LIKE" && '/' !in "JOIN";
    assert '/' !in "INNER" && '/' !in "LEFT" && '/' !in "RIGHT" && '/' !in "OUTER" && '/' !in "TRUE";
    assert '/' !in "FALSE" && '/' !in "NULL";
    NotAmong(Upper(word));
  }

  lemma NotAmong(text: string)
    requires '/' in text
    ensures text !in ["INSERT", "INTO", "VALUES", "UPDATE", "SET", "DELETE", "ON", "ORDER", "AS"]
  {
    assert '/' !in "INSERT" && '/' !in "INTO" && '/' !in "VALUES" && '/' !in "UPDATE" && '/' !in "SET";
    assert '/' !in "DELETE" && '/' !in "ON" && '/' !in "ORDER" && '/' !in "AS";
  }

  lemma KeywordText(word: string)
    ensures FixedText(KeywordKind(word)).Some? ==> Upper(word) == FixedText(KeywordKind(word)).value
    ensures KeywordKind(word) == BOOLEAN ==> Upper(word) == "TRUE" || Upper(word) == "FALSE"
    ensures KeywordKind(word) != NUMBER && KeywordKind(word) != STRING
  {
    hide Upper;
  }

  lemma WordTokenWeighs(w: Scale, s: string, i: nat, read: Read)
    requires Fair(w) && ReadFrom(w, s, i, read)
    ensures
      var token := Token(KeywordKind(read.value), read.value);
      GoodToken(token) && TokenWeight(w, token) <= Weight(w.text, s[i..read.next])
  {
    hide KeywordKind, Weight, Upper;
    KeywordText(read.value);
    if '/' in read.value {
      NoSlashInUpper(read.value);
    }
  }

  lemma WordStarts(w: Scale, s: string, i: nat)
    requires Fair(w) && i < |s| && WordStart(s[i])
    ensures ReadFrom(w, s, i, ReadWord(s, i))
  {
    RunAccepted(s, i, WordChar);
    WeightAtMost(w.name, w.text, ReadWord(s, i).value);
  }

  lemma WordWeighs(w: Scale, s: string, i: nat)
    requires Fair(w) && i < |s| && WordStart(s[i])
    ensures
      var step := LexStep(s, i);
      step.token.Some? && GoodToken(step.token.value)
      && TokenWeight(w, step.token.value) + Weight(w.text, s[step.next..]) <= Weight(w.text, s[i..])
  {
    hide KeywordKind, Weight, ReadFrom, ReadWord, ReadDotted, Fair, TokenWeight;
    WordStarts(w, s, i);
    DottedWeighs(w, s, i, ReadWord(s, i));
    var read := ReadDotted(s, ReadWord(s, i));
    WordTokenWeighs(w, s, i, read);
    WeightSplit(w.text, s, i, read.next);
  }

  lemma NumberWeighs(w: Scale, s: string, i: nat)
    requires i < |s| && Digit(s[i])
    ensures
      var step := LexStep(s, i);
      step.token.Some? && GoodToken(step.token.value)
      && TokenWeight(w, step.token.value) + Weight(w.text, s[step.next..]) <= Weight(w.text, s[i..])
  {
    RunAccepted(s, i, NumberChar);
    WeightSplit(w.text, s, i, RunEnd(s, i, NumberChar));
  }

  lemma OperatorGood(s: string, i: nat)
    requires i < |s|
    ensures
      var step := Operator(s, i);
      step.token.Some? ==>
        && GoodToken(step.token.value) && step.token.value.value == s[i..step.next]
        && step.token.value.kind != STRING && step.token.value.kind != IDENTIFIER
  {
    hide Upper;
    var step := Operator(s, i);
    if step.token.Some? {
      UpperSymbol(step.token.value.value);
    }
  }

  lemma UpperSymbol(text: string)
    requires forall k :: 0 <= k < |text| ==> !('a' <= text[k] <= 'z')
    ensures Upper(text) == text
  {
  }

  lemma OperatorWeighs(w: Scale, s: string, i: nat)
    requires i < |s|
    ensures
      var step := Operator(s, i);
      TokensWeight(w, OfOption(step.token)) + Weight(w.text, s[step.next..]) <= Weight(w.text, s[i..])
  {
    hide Weight;
    var step := Operator(s, i);
    OperatorGood(s, i);
    WeightSplit(w.text, s, i, step.next);
    if step.token.Some? {
      assert OfOption(step.token)[1..] == [];
    }
  }

  /** A literal weighs its contents and both quotes, the closing one on credit when the text ends first. */
  lemma {:induction false} QuotedWeighs(f: char -> nat, s: string, i: nat, quote: char)
    requires i <= |s|
    ensures
      var r := ReadQuoted(s, i, quote);
      Weight(f, r.value) + f(quote) + Weight(f, s[r.next..])
        <= Weight(f, s[i..]) + (if r.next == |s| then f(quote) else 0)
    decreases |s| - i
  {
    if i < |s| {
      WeightSplit(f, s, i, i + 1);
      assert s[i..i + 1] == [s[i]];
      WeightChar(f, s[i]);
      if s[i] != quote {
        QuotedWeighs(f, s, i + 1, quote);
        var rest := ReadQuoted(s, i + 1, quote);
        WeightAppend(f, [s[i]], rest.value);
      } else if i + 1 < |s| && s[i + 1] == quote {
        QuotedWeighs(f, s, i + 2, quote);
        var rest := ReadQuoted(s, i + 2, quote);
        WeightAppend(f, [quote], rest.value);
        WeightSplit(f, s, i + 1, i + 2);
      }
    }
  }

  lemma StepWeighs(w: Scale, s: string, i: nat)
    requires Fair(w) && i < |s|
    ensures
      var step := LexStep(s, i);
      && (step.token.Some? ==> GoodToken(step.token.value))
      && TokensWeight(w, OfOption(step.token)) + Weight(w.text, s[step.next..])
        <= Weight(w.text, s[i..]) + (if step.next == |s| then w.text('\'') else 0)
  {
    hide Operator, ReadDotted, RunEnd, ReadQuoted, KeywordKind, Weight;
    var c, step := s[i], LexStep(s, i);
    if step.token.Some? {
      assert OfOption(step.token)[1..] == [];
    }
    if c == '\'' || c == '"' {
      QuotedWeighs(w.text, s, i + 1, c);
      WeightSplit(w.text, s, i, i + 1);
      assert s[i..i + 1] == [c];
      WeightChar(w.text, c);
    } else if Digit(c) {
      NumberWeighs(w, s, i);
    } else if WordStart(c) {
      WordWeighs(w, s, i);
    } else {
      OperatorGood(s, i);
      OperatorWeighs(w, s, i);
    }
  }

  /** All tokens together weigh no more than the text, up to one quote that was never closed. */
  lemma {:induction false} LexWeighs(w: Scale, s: string, i: nat)
    requires Fair(w) && i <= |s|
    ensures GoodTokens(Lex(s, i))
    ensures TokensWeight(w, Lex(s, i)) <= Weight(w.text, s[i..]) + w.text('\'')
    decreases |s| - i
  {
    hide LexStep, Weight, Fair, GoodToken;
    var j := RunEnd(s, i, Space);
    WeightSplit(w.text, s, i, j);
    if j >= |s| {
      LexEnds(s, i);
      EndWeighs(w);
    } else {
      var step := LexStep(s, j);
      StepWeighs(w, s, j);
      LexWeighs(w, s, step.next);
      TokensWeightAppend(w, OfOption(step.token), Lex(s, step.next));
      LexUnfold(s, i, j, step);
      if step.next == |s| {
        LexEnds(s, step.next);
        EndWeighs(w);
      }
    }
  }

  lemma EndWeighs(w: Scale)
    ensures TokensWeight(w, [Token(EOF, "")]) == 0 && GoodToken(Token(EOF, ""))
  {
    assert [Token(EOF, "")][1..] == [];
  }
}
