/**
  How PostgreSQL reads a rendered statement (sections 4.1 and 4.1.2 of the
  PostgreSQL documentation): one character at a time, keeping track of string
  constants with their kinds, quoted identifiers, comments and dollar quotes, and
  noting each string constant with its place and value.

  And, over that reader, exactly when the literals that rendering puts in for the
  password and the expiration are read back as what they stand for.
*/
module SqlLexer {
  import opened Results
  import opened Text
  import opened SqlTemplate
  import opened SqlLiteral

  // ---------------------------------------------------------------------------
  // The reader
  // ---------------------------------------------------------------------------

  /** '...', E'...', U&'...', and B'...' or X'...'. */
  datatype Kind = Standard | Escape | Unicode | Bits

  /**
    What follows a closing quote so far: nothing, white space, white space with a
    newline in it, one hyphen, or a comment up to the end of its line.
  */
  datatype Gap = Touching | Spaced | Broken | Hyphen | Remark

  /** How far a number has come: its digits, a point after them, digits after a point, digits of an exponent. */
  datatype Part = Whole | Point | Fraction | Power

  /**
    Between two tokens or in one. `Exponent` has read the letter that may begin one,
    `Sign` a sign after it, `Dot` a point outside a number, and `Param` a dollar sign
    and digits. Only a word may hold a dollar sign.
  */
  datatype Mode =
    | Plain
    | Word(text: string)
    | Number(part: Part)
    | Exponent(letter: char)
    | Sign(minus: bool)
    | Dot
    | Param
    | UAmp
    | Dash
    | Slash
    | LineComment
    | BlockComment(depth: nat, last: char)
    | Identifier
    | Tag(text: string)
    | Dollar(delimiter: string, body: string)
    | InString(kind: Kind)
    | Escaped(kind: Kind)
    | Closed(kind: Kind, gap: Gap)

  predicate Newline(c: char) { c == '\n' || c == '\r' }

  predicate Space(c: char) { c == ' ' || c == '\t' || c == '\U{000B}' || c == '\U{000C}' || Newline(c) }

  predicate Letter(c: char) {
    'a' <= c <= 'z' || 'A' <= c <= 'Z' || c == '_' || c >= '\U{0080}'
  }

  predicate Digit(c: char) { '0' <= c <= '9' }

  /** The kind of a string whose quote directly follows this word. */
  function KindAfter(word: string): Kind {
    if word == "e" || word == "E" then Escape
    else if word == "b" || word == "B" || word == "x" || word == "X" then Bits
    else Standard
  }

  /** The mode a character leads to between two tokens. */
  function Begin(c: char): Mode {
    if c == '\'' then InString(Standard)
    else if c == '"' then Identifier
    else if c == '-' then Dash
    else if c == '/' then Slash
    else if c == '$' then Tag("")
    else if c == '.' then Dot
    else if Digit(c) then Number(Whole)
    else if Letter(c) then Word([c])
    else Plain
  }

  function AfterWord(word: string, c: char): Mode {
    if c == '\'' then InString(KindAfter(word))
    else if Letter(c) || Digit(c) || c == '$' then Word(word + [c])
    else if c == '&' && (word == "u" || word == "U") then UAmp
    else Begin(c)
  }

  /** A number takes one point and one exponent; whatever else follows it is a token of its own. */
  function AfterNumber(part: Part, c: char): Mode {
    if Digit(c) then Number(if part == Point then Fraction else part)
    else if c == '.' && part == Whole then Number(Point)
    else if c == '.' && part == Point then Plain
    else if (c == 'e' || c == 'E') && part != Power then Exponent(c)
    else Begin(c)
  }

  function AfterExponent(letter: char, c: char): Mode {
    if Digit(c) then Number(Power)
    else if c == '+' || c == '-' then Sign(c == '-')
    else AfterWord([letter], c)
  }

  function AfterTag(tag: string, c: char): Mode {
    if c == '$' then Dollar("$" + tag + "$", "")
    else if tag == "" && Digit(c) then Param
    else if Letter(c) || Digit(c) then Tag(tag + [c])
    else if tag == "" then Begin(c)
    else AfterWord(tag, c)
  }

  /**
    A quote that touches the closing one doubles it, but in a bit string; one on a later
    line goes on with the string.
  */
  predicate Continues(kind: Kind, gap: Gap) {
    (gap == Touching && kind != Bits) || gap == Broken
  }

  function AfterQuote(kind: Kind, gap: Gap, c: char): Mode {
    if gap == Remark then Closed(kind, if Newline(c) then Broken else Remark)
    else if gap == Hyphen then (if c == '-' then Closed(kind, Remark) else Begin(c))
    else if c == '\'' && Continues(kind, gap) then InString(kind)
    else if Space(c) then Closed(kind, if gap == Broken || Newline(c) then Broken else Spaced)
    else if c == '-' then Closed(kind, Hyphen)
    else Begin(c)
  }

  function StepMode(m: Mode, c: char): Mode {
    match m
    case Plain => Begin(c)
    case Word(word) => AfterWord(word, c)
    case Number(part) => AfterNumber(part, c)
    case Exponent(letter) => AfterExponent(letter, c)
    case Sign(minus) => if Digit(c) then Number(Power) else if minus && c == '-' then LineComment else Begin(c)
    case Dot => if Digit(c) then Number(Fraction) else if c == '.' then Plain else Begin(c)
    case Param => if Digit(c) then Param else Begin(c)
    case UAmp => if c == '\'' then InString(Unicode) else Begin(c)
    case Dash => if c == '-' then LineComment else Begin(c)
    case Slash => if c == '*' then BlockComment(1, ' ') else Begin(c)
    case LineComment => if Newline(c) then Plain else LineComment
    case BlockComment(depth, last) =>
      if last == '/' && c == '*' then BlockComment(depth + 1, ' ')
      else if last == '*' && c == '/' then (if depth <= 1 then Plain else BlockComment(depth - 1, ' '))
      else BlockComment(depth, c)
    case Identifier => if c == '"' then Plain else Identifier
    case Tag(tag) => AfterTag(tag, c)
    case Dollar(delimiter, body) =>
      var longer := body + [c];
      if |delimiter| <= |longer| && longer[|longer| - |delimiter|..] == delimiter then Plain
      else Dollar(delimiter, longer)
    case InString(kind) =>
      if c == '\'' then Closed(kind, Touching)
      else if c == '\\' && kind == Escape then Escaped(kind)
      else InString(kind)
    case Escaped(kind) => InString(kind)
    case Closed(kind, gap) => AfterQuote(kind, gap, c)
  }

  /** The kind of string a quote read now begins, if it begins one. */
  function Opens(m: Mode): Option<Kind> {
    match m
    case Plain | Number(_) | Sign(_) | Dot | Param | Dash | Slash => Some(Standard)
    case Word(word) => Some(KindAfter(word))
    case Exponent(letter) => Some(KindAfter([letter]))
    case Tag(tag) => Some(KindAfter(tag))
    case UAmp => Some(Unicode)
    case Closed(kind, gap) => if gap == Remark || Continues(kind, gap) then None else Some(Standard)
    case _ => None
  }

  /** A string constant: where it begins and ends, its kind, and what is between its quotes. */
  datatype Str = Str(start: nat, end: nat, kind: Kind, value: string)

  /** `start`, `value` and `end` belong to the string that is open or has just been closed. */
  datatype Lexer = Lexer(at: nat, mode: Mode, start: nat, value: string, end: nat, strings: seq<Str>)

  const BEGIN := Lexer(0, Plain, 0, "", 0, [])

  predicate Begins(m: Mode, c: char) {
    c == '\'' && Opens(m).Some?
  }

  /** The closed string may still go on after this character, or does go on with it. */
  predicate KeepsOpen(m: Mode, c: char) {
    m.Closed? && !Begins(m, c) && (StepMode(m, c).Closed? || StepMode(m, c).InString?)
  }

  predicate Appends(m: Mode, c: char) {
    || (m.InString? && c != '\'')
    || m.Escaped?
    || (m.Closed? && m.gap == Touching && m.kind != Bits && c == '\'')
  }

  function Pending(l: Lexer): Str
    requires l.mode.Closed?
  {
    Str(l.start, l.end, l.mode.kind, l.value)
  }

  function Step(l: Lexer, c: char): Lexer {
    Lexer(
      l.at + 1,
      StepMode(l.mode, c),
      if Begins(l.mode, c) then l.at else l.start,
      if Begins(l.mode, c) then "" else if Appends(l.mode, c) then l.value + [c] else l.value,
      if l.mode.InString? && c == '\'' then l.at + 1 else l.end,
      if l.mode.Closed? && !KeepsOpen(l.mode, c) then l.strings + [Pending(l)] else l.strings)
  }

  function Run(l: Lexer, s: string): Lexer
    decreases |s|
  {
    if s == "" then l else Run(Step(l, s[0]), s[1..])
  }

  /** The string constants read by the end of the text. */
  function Finish(l: Lexer): seq<Str> {
    if l.mode.Closed? then l.strings + [Pending(l)] else l.strings
  }

  function Strings(sql: string): seq<Str> {
    Finish(Run(BEGIN, sql))
  }

  lemma {:induction false} RunConcat(l: Lexer, a: string, b: string)
    ensures Run(l, a + b) == Run(Run(l, a), b)
    decreases |a|
  {
    if a == "" {
      assert a + b == b;
    } else {
      assert (a + b)[1..] == a[1..] + b;
      RunConcat(Step(l, a[0]), a[1..], b);
    }
  }

  lemma RunOne(l: Lexer, c: char, rest: string)
    ensures Run(l, [c] + rest) == Run(Step(l, c), rest)
  {
    assert ([c] + rest)[1..] == rest;
  }

  // ---------------------------------------------------------------------------
  // What the reader can still note
  // ---------------------------------------------------------------------------

  predicate HasOpen(m: Mode) {
    m.InString? || m.Escaped? || m.Closed?
  }

  /** What was noted lies behind, in front of the string that is still open. */
  ghost predicate Sane(l: Lexer) {
    && (forall x | x in l.strings :: x.start < l.at)
    && (HasOpen(l.mode) ==> l.start < l.at && forall x | x in l.strings :: x.start < l.start)
    && (l.mode.Closed? ==> l.end <= l.at)
  }

  lemma StepSane(l: Lexer, c: char)
    requires Sane(l)
    ensures Sane(Step(l, c))
  {
  }

  lemma {:induction false} RunSane(l: Lexer, s: string)
    requires Sane(l)
    ensures Sane(Run(l, s))
    decreases |s|
  {
    if s != "" {
      StepSane(l, s[0]);
      RunSane(Step(l, s[0]), s[1..]);
    }
  }

  /** The least end the open string can have. */
  function Least(l: Lexer): nat {
    if l.mode.Closed? then l.end else l.at + 1
  }

  /** Noted already, or the string that is open, or one that begins later. */
  predicate CanBeNoted(l: Lexer, x: Str) {
    || x in l.strings
    || (HasOpen(l.mode) && x.start == l.start && x.kind == l.mode.kind && x.end >= Least(l))
    || x.start >= l.at
  }

  lemma NotedLaterStill(l: Lexer, c: char, x: Str)
    requires Sane(l) && CanBeNoted(Step(l, c), x)
    ensures CanBeNoted(l, x)
  {
  }

  lemma {:induction false} NotedIsPossible(l: Lexer, s: string, x: Str)
    requires Sane(l) && x in Finish(Run(l, s))
    ensures CanBeNoted(l, x)
    decreases |s|
  {
    if s != "" {
      StepSane(l, s[0]);
      NotedIsPossible(Step(l, s[0]), s[1..], x);
      NotedLaterStill(l, s[0], x);
    }
  }

  lemma {:induction false} NotedStays(l: Lexer, s: string, x: Str)
    requires x in l.strings
    ensures x in Finish(Run(l, s))
    decreases |s|
  {
    if s != "" {
      NotedStays(Step(l, s[0]), s[1..], x);
    }
  }

  /** A quote that begins no standard string is the start of none. */
  lemma NoStandardStart(l: Lexer, rest: string, x: Str)
    requires Sane(l) && Opens(l.mode) != Some(Standard)
    requires x.start == l.at && x.kind == Standard
    ensures x !in Finish(Run(l, "'" + rest))
  {
    RunOne(l, '\'', rest);
    StepSane(l, '\'');
    NoneBegun(l, x);
    if x in Finish(Run(Step(l, '\''), rest)) {
      NotedIsPossible(Step(l, '\''), rest, x);
      assert false;
    }
  }

  lemma NoneBegun(l: Lexer, x: Str)
    requires Sane(l) && Opens(l.mode) != Some(Standard)
    requires x.start == l.at && x.kind == Standard
    ensures !CanBeNoted(Step(l, '\''), x)
  {
    var next := Step(l, '\'');
    assert HasOpen(next.mode) ==> next.start < l.at || next.mode.kind != Standard;
    assert forall y | y in l.strings :: y.start < l.at;
  }

  // ---------------------------------------------------------------------------
  // Reading one literal
  // ---------------------------------------------------------------------------

  /** Where a reader inside a standard string stands once it has read this value and the closing quote. */
  function ClosedAfter(l: Lexer, v: string): Lexer {
    var at := l.at + |ReplaceAll(v, "'", "''")| + 1;
    Lexer(at, Closed(Standard, Touching), l.start, l.value + v, at, l.strings)
  }

  lemma {:induction false} ReadsDoubled(l: Lexer, v: string)
    requires l.mode == InString(Standard)
    ensures Run(l, ReplaceAll(v, "'", "''") + "'") == ClosedAfter(l, v)
    decreases |v|
  {
    if v == "" {
      ReadsQuote(l);
      assert ReplaceAll(v, "'", "''") + "'" == "'";
    } else {
      DoubledStep(v);
      var tail := ReplaceAll(v[1..], "'", "''") + "'";
      assert ReplaceAll(v, "'", "''") + "'" == DoubledChar(v[0]) + tail;
      DoubledCharReads(l, v[0], tail);
      ReadsDoubled(AfterDoubled(l, v[0]), v[1..]);
      ClosedOneLater(l, v);
    }
  }

  lemma ReadsQuote(l: Lexer)
    requires l.mode == InString(Standard)
    ensures Run(l, "'") == ClosedAfter(l, "")
  {
    RunOne(l, '\'', "");
    assert ['\''] + "" == "'" && l.value + "" == l.value;
  }

  lemma ClosedOneLater(l: Lexer, v: string)
    requires l.mode == InString(Standard) && v != ""
    ensures ClosedAfter(AfterDoubled(l, v[0]), v[1..]) == ClosedAfter(l, v)
  {
    DoubledStep(v);
    DoubledCharReads(l, v[0], "");
    assert (l.value + [v[0]]) + v[1..] == l.value + v;
  }

  /** A reader inside a standard string after one character of a value. */
  function AfterDoubled(l: Lexer, c: char): Lexer {
    if c == '\'' then Step(Step(l, c), c) else Step(l, c)
  }

  lemma DoubledCharReads(l: Lexer, c: char, tail: string)
    requires l.mode == InString(Standard)
    ensures Run(l, DoubledChar(c) + tail) == Run(AfterDoubled(l, c), tail)
    ensures AfterDoubled(l, c) ==
      l.(at := l.at + |DoubledChar(c)|, value := l.value + [c], end := AfterDoubled(l, c).end)
  {
    DoubledIs(l, c);
    RunOfDoubled(l, c);
    RunConcat(l, DoubledChar(c), tail);
  }

  lemma RunOfDoubled(l: Lexer, c: char)
    ensures Run(l, DoubledChar(c)) == AfterDoubled(l, c)
  {
    if c == '\'' {
      assert DoubledChar(c) == [c] + ([c] + "");
      RunOne(l, c, [c] + "");
      RunOne(Step(l, c), c, "");
    } else {
      assert DoubledChar(c) == [c] + "";
      RunOne(l, c, "");
    }
  }

  lemma DoubledIs(l: Lexer, c: char)
    requires l.mode == InString(Standard)
    ensures AfterDoubled(l, c) ==
      l.(at := l.at + |DoubledChar(c)|, value := l.value + [c], end := AfterDoubled(l, c).end)
  {
    if c == '\'' {
      var closed := Step(l, c);
      assert closed.mode == Closed(Standard, Touching) && closed.value == l.value && closed.strings == l.strings;
      assert KeepsOpen(closed.mode, c) && StepMode(closed.mode, c) == InString(Standard);
    }
  }

  /** Where a reader that is between tokens stands after the literal of a value. */
  function AfterLiteral(l: Lexer, v: string): Lexer {
    var at := l.at + |QuoteLiteral(v)|;
    Lexer(at, Closed(Standard, Touching), l.at, v, at, Finish(l))
  }

  lemma ReadsLiteral(l: Lexer, v: string)
    requires Opens(l.mode) == Some(Standard)
    ensures Run(l, QuoteLiteral(v)) == AfterLiteral(l, v)
  {
    var tail := ReplaceAll(v, "'", "''") + "'";
    assert QuoteLiteral(v) == "'" + tail;
    RunOne(l, '\'', tail);
    BeginsString(l);
    ReadsDoubled(Step(l, '\''), v);
    assert "" + v == v;
  }

  lemma BeginsString(l: Lexer)
    requires Opens(l.mode) == Some(Standard)
    ensures Step(l, '\'') == Lexer(l.at + 1, InString(Standard), l.at, "", l.end, Finish(l))
  {
  }

  /** Whether a closed string goes on in the text that follows: at once, or after white space with a newline. */
  predicate GoesOn(m: Mode, rest: string)
    decreases |rest|
  {
    && rest != "" && KeepsOpen(m, rest[0])
    && (StepMode(m, rest[0]).InString? || GoesOn(StepMode(m, rest[0]), rest[1..]))
  }

  lemma {:induction false} PendingNotedIff(l: Lexer, rest: string)
    requires Sane(l) && l.mode.Closed?
    ensures Pending(l) in Finish(Run(l, rest)) <==> !GoesOn(l.mode, rest)
    decreases |rest|
  {
    if rest != "" {
      var next := Step(l, rest[0]);
      StepSane(l, rest[0]);
      if !KeepsOpen(l.mode, rest[0]) {
        NotedStays(next, rest[1..], Pending(l));
      } else if next.mode.InString? {
        if Pending(l) in Finish(Run(next, rest[1..])) {
          NotedIsPossible(next, rest[1..], Pending(l));
          assert false;
        }
      } else {
        PendingNotedIff(next, rest[1..]);
      }
    }
  }

  /** A literal with text before and after it, in any statement. */
  lemma {:induction false} LiteralReadsBackIff(before: string, v: string, rest: string)
    ensures Str(|before|, |before| + |QuoteLiteral(v)|, Standard, v) in Strings(before + (QuoteLiteral(v) + rest))
            <==> Opens(ModeAfter(Plain, before)) == Some(Standard) && !GoesOn(Closed(Standard, Touching), rest)
  {
    RunSane(BEGIN, before);
    RunAt(BEGIN, before);
    RunMode(BEGIN, before);
    RunConcat(BEGIN, before, QuoteLiteral(v) + rest);
    LiteralNotedIff(Run(BEGIN, before), v, rest);
  }

  /** The same from any point of a statement. */
  lemma {:induction false} LiteralNotedIff(l: Lexer, v: string, rest: string)
    requires Sane(l)
    ensures Str(l.at, l.at + |QuoteLiteral(v)|, Standard, v) in Finish(Run(l, QuoteLiteral(v) + rest))
            <==> Opens(l.mode) == Some(Standard) && !GoesOn(Closed(Standard, Touching), rest)
  {
    if Opens(l.mode) == Some(Standard) {
      LiteralIsSane(l, v);
      RunLiteral(l, v, rest);
      PendingNotedIff(AfterLiteral(l, v), rest);
    } else {
      LiteralNotBegun(l, v, rest);
    }
  }

  lemma {:induction false} RunLiteral(l: Lexer, v: string, rest: string)
    requires Opens(l.mode) == Some(Standard)
    ensures Run(l, QuoteLiteral(v) + rest) == Run(AfterLiteral(l, v), rest)
    ensures Pending(AfterLiteral(l, v)) == Str(l.at, l.at + |QuoteLiteral(v)|, Standard, v)
  {
    RunConcat(l, QuoteLiteral(v), rest);
    ReadsLiteral(l, v);
  }

  lemma {:induction false} LiteralNotBegun(l: Lexer, v: string, rest: string)
    requires Sane(l) && Opens(l.mode) != Some(Standard)
    ensures Str(l.at, l.at + |QuoteLiteral(v)|, Standard, v) !in Finish(Run(l, QuoteLiteral(v) + rest))
  {
    var tail := ReplaceAll(v, "'", "''") + "'" + rest;
    assert QuoteLiteral(v) + rest == "'" + tail;
    NoStandardStart(l, tail, Str(l.at, l.at + |QuoteLiteral(v)|, Standard, v));
  }

  lemma LiteralIsSane(l: Lexer, v: string)
    requires Sane(l)
    ensures Sane(AfterLiteral(l, v))
  {
  }

  // ---------------------------------------------------------------------------
  // A whole template
  // ---------------------------------------------------------------------------

  /**
    Every value placeholder of a template stands where a quote begins a standard
    string and where nothing that follows carries that string on: read off the
    template and the role name alone. `fresh_` tells that the string closed last is a
    placeholder's.
  */
  predicate Placed(t: string, m: Mode, fresh_: bool, roleName: string)
    decreases |t|
  {
    if t == "" then true
    else if NAME <= t then
      var next := ModeAfter(m, roleName);
      Placed(t[|NAME|..], next, fresh_ && next.Closed?, roleName)
    else if PASSWORD <= t then
      Opens(m) == Some(Standard) && Placed(t[|PASSWORD|..], Closed(Standard, Touching), true, roleName)
    else if EXPIRATION <= t then
      Opens(m) == Some(Standard) && Placed(t[|EXPIRATION|..], Closed(Standard, Touching), true, roleName)
    else
      && !(fresh_ && KeepsOpen(m, t[0]) && StepMode(m, t[0]).InString?)
      && Placed(t[1..], StepMode(m, t[0]), fresh_ && KeepsOpen(m, t[0]), roleName)
  }

  function ModeAfter(m: Mode, s: string): Mode
    decreases |s|
  {
    if s == "" then m else ModeAfter(StepMode(m, s[0]), s[1..])
  }

  lemma {:induction false} RunMode(l: Lexer, s: string)
    ensures Run(l, s).mode == ModeAfter(l.mode, s)
    decreases |s|
  {
    if s != "" {
      RunMode(Step(l, s[0]), s[1..]);
    }
  }

  /** Each value placeholder's literal is noted at its place in the rendering, which begins at `at`. */
  predicate AllReadBack(t: string, at: nat, roleName: string, password: string, expiration: string, strings: seq<Str>)
    decreases |t|
  {
    if t == "" then true
    else if NAME <= t then AllReadBack(t[|NAME|..], at + |roleName|, roleName, password, expiration, strings)
    else if PASSWORD <= t then
      && Str(at, at + |QuoteLiteral(password)|, Standard, password) in strings
      && AllReadBack(t[|PASSWORD|..], at + |QuoteLiteral(password)|, roleName, password, expiration, strings)
    else if EXPIRATION <= t then
      && Str(at, at + |QuoteLiteral(expiration)|, Standard, expiration) in strings
      && AllReadBack(t[|EXPIRATION|..], at + |QuoteLiteral(expiration)|, roleName, password, expiration, strings)
    else AllReadBack(t[1..], at + 1, roleName, password, expiration, strings)
  }

  lemma {:induction false} RunAt(l: Lexer, s: string)
    ensures Run(l, s).at == l.at + |s|
    decreases |s|
  {
    if s != "" {
      RunAt(Step(l, s[0]), s[1..]);
    }
  }

  lemma {:induction false} OutStaysOut(l: Lexer, s: string)
    requires !HasOpen(l.mode) && '\'' !in s
    ensures !HasOpen(Run(l, s).mode)
    decreases |s|
  {
    if s != "" {
      OutStaysOut(Step(l, s[0]), s[1..]);
    }
  }

  /** Text without a quote carries no string on: the closed string is noted, or is pending as it was. */
  lemma {:induction false} QuoteFreeText(l: Lexer, s: string)
    requires l.mode.Closed? && '\'' !in s
    ensures var next := Run(l, s);
            if next.mode.Closed? then Pending(next) == Pending(l) else Pending(l) in next.strings
    decreases |s|
  {
    if s != "" {
      var next := Step(l, s[0]);
      if KeepsOpen(l.mode, s[0]) {
        QuoteFreeText(next, s[1..]);
      } else {
        OutStaysOut(next, s[1..]);
        NotedByEnd(next, s[1..], Pending(l));
      }
    }
  }

  lemma {:induction false} NotedByEnd(l: Lexer, s: string, x: Str)
    requires x in l.strings
    ensures x in Run(l, s).strings
    decreases |s|
  {
    if s != "" {
      NotedByEnd(Step(l, s[0]), s[1..], x);
    }
  }

  /** What has to be noted from here on: the placeholder's literal that is pending, and those still to come. */
  ghost predicate ReadBackFrom(
    t: string, l: Lexer, fresh_: bool, roleName: string, password: string, expiration: string)
    requires fresh_ ==> l.mode.Closed?
  {
    var strings := Finish(Run(l, Substitute(t, Literals(roleName, password, expiration))));
    (fresh_ ==> Pending(l) in strings) && AllReadBack(t, l.at, roleName, password, expiration, strings)
  }

  lemma {:induction false} OverName(
    t: string, l: Lexer, fresh_: bool, roleName: string, password: string, expiration: string)
    requires NAME <= t && ValidRoleName(roleName) && (fresh_ ==> l.mode.Closed?)
    ensures var next := Run(l, roleName);
            ReadBackFrom(t, l, fresh_, roleName, password, expiration)
            <==> ReadBackFrom(t[|NAME|..], next, fresh_ && next.mode.Closed?, roleName, password, expiration)
  {
    var v := Literals(roleName, password, expiration);
    var rest := Substitute(t[|NAME|..], v);
    RunConcat(l, roleName, rest);
    RunAt(l, roleName);
    if fresh_ {
      NoQuoteInName(roleName);
      QuoteFreeText(l, roleName);
      if !Run(l, roleName).mode.Closed? {
        NotedStays(Run(l, roleName), rest, Pending(l));
      }
    }
  }

  lemma NoQuoteInName(roleName: string)
    requires ValidRoleName(roleName)
    ensures '\'' !in roleName
  {
    forall i | 0 <= i < |roleName| ensures roleName[i] != '\'' {
      assert LowerOrDigit(roleName[i]) || roleName[i] == '_';
    }
  }

  lemma {:induction false} ValueLeads(t: string, p: string, v: Values)
    requires (p == PASSWORD || p == EXPIRATION) && p <= t
    ensures Substitute(t, v) == (if p == PASSWORD then v.password else v.expiration) + Substitute(t[|p|..], v)
    ensures !(NAME <= t) && (p == EXPIRATION ==> !(PASSWORD <= t))
  {
    assert t[2] == p[2];
  }

  lemma {:induction false} ValueIsReadBack(
    t: string, p: string, value: string, at: nat, roleName: string, password: string, expiration: string,
    strings: seq<Str>)
    requires (p == PASSWORD || p == EXPIRATION) && p <= t && value == if p == PASSWORD then password else expiration
    ensures AllReadBack(t, at, roleName, password, expiration, strings)
            <==> Str(at, at + |QuoteLiteral(value)|, Standard, value) in strings
                 && AllReadBack(t[|p|..], at + |QuoteLiteral(value)|, roleName, password, expiration, strings)
  {
    assert t[2] == p[2];
  }

  lemma {:induction false} OverPlacedValue(
    t: string, l: Lexer, fresh_: bool, p: string, value: string, roleName: string, password: string, expiration: string)
    requires (p == PASSWORD || p == EXPIRATION) && p <= t && value == if p == PASSWORD then password else expiration
    requires Sane(l) && (fresh_ ==> l.mode.Closed?) && Opens(l.mode) == Some(Standard)
    ensures ReadBackFrom(t, l, fresh_, roleName, password, expiration)
            <==> ReadBackFrom(t[|p|..], AfterLiteral(l, value), true, roleName, password, expiration)
  {
    var v := Literals(roleName, password, expiration);
    var rest := Substitute(t[|p|..], v);
    ValueLeads(t, p, v);
    var next := AfterLiteral(l, value);
    var strings := Finish(Run(next, rest));
    RunLiteral(l, value, rest);
    assert Finish(Run(l, Substitute(t, v))) == strings;
    ValueIsReadBack(t, p, value, l.at, roleName, password, expiration, strings);
    if fresh_ {
      NotedStays(next, rest, Pending(l));
    }
    assert Pending(next) == Str(l.at, l.at + |QuoteLiteral(value)|, Standard, value)
      && next.at == l.at + |QuoteLiteral(value)|;
  }

  lemma {:induction false} OverMisplacedValue(
    t: string, l: Lexer, fresh_: bool, p: string, value: string, roleName: string, password: string, expiration: string)
    requires (p == PASSWORD || p == EXPIRATION) && p <= t && value == if p == PASSWORD then password else expiration
    requires Sane(l) && (fresh_ ==> l.mode.Closed?) && Opens(l.mode) != Some(Standard)
    ensures !ReadBackFrom(t, l, fresh_, roleName, password, expiration)
  {
    var v := Literals(roleName, password, expiration);
    var strings := Finish(Run(l, Substitute(t, v)));
    ValueLeads(t, p, v);
    LiteralNotBegun(l, value, Substitute(t[|p|..], v));
    ValueIsReadBack(t, p, value, l.at, roleName, password, expiration, strings);
  }

  lemma {:induction false} CharLeads(t: string, v: Values)
    requires t != "" && !(NAME <= t) && !(PASSWORD <= t) && !(EXPIRATION <= t)
    ensures Substitute(t, v) == [t[0]] + Substitute(t[1..], v)
  {
  }

  lemma {:induction false} CharIsReadBack(
    t: string, at: nat, roleName: string, password: string, expiration: string, strings: seq<Str>)
    requires t != "" && !(NAME <= t) && !(PASSWORD <= t) && !(EXPIRATION <= t)
    ensures AllReadBack(t, at, roleName, password, expiration, strings)
            <==> AllReadBack(t[1..], at + 1, roleName, password, expiration, strings)
  {
  }

  lemma {:induction false} OverChar(
    t: string, l: Lexer, fresh_: bool, roleName: string, password: string, expiration: string)
    requires t != "" && !(NAME <= t) && !(PASSWORD <= t) && !(EXPIRATION <= t)
    requires Sane(l) && (fresh_ ==> l.mode.Closed?)
    ensures var next := Step(l, t[0]);
            if fresh_ && KeepsOpen(l.mode, t[0]) && next.mode.InString?
            then !ReadBackFrom(t, l, fresh_, roleName, password, expiration)
            else
              ReadBackFrom(t, l, fresh_, roleName, password, expiration)
              <==> ReadBackFrom(t[1..], next, fresh_ && KeepsOpen(l.mode, t[0]), roleName, password, expiration)
  {
    var v := Literals(roleName, password, expiration);
    var rest := Substitute(t[1..], v);
    CharLeads(t, v);
    RunOne(l, t[0], rest);
    var next := Step(l, t[0]);
    var strings := Finish(Run(next, rest));
    CharIsReadBack(t, l.at, roleName, password, expiration, strings);
    if fresh_ {
      OverCharPending(l, t[0], rest);
    }
    assert ReadBackFrom(t, l, fresh_, roleName, password, expiration) <==>
      (fresh_ ==> Pending(l) in strings) && AllReadBack(t, l.at, roleName, password, expiration, strings);
  }

  /** A closed string and one more character: it goes on and is noted no more, stays pending, or is noted. */
  lemma {:induction false} OverCharPending(l: Lexer, c: char, rest: string)
    requires Sane(l) && l.mode.Closed?
    ensures var next := Step(l, c);
            var strings := Finish(Run(next, rest));
            if !KeepsOpen(l.mode, c) then Pending(l) in strings
            else if next.mode.InString? then Pending(l) !in strings
            else next.mode.Closed? && Pending(next) == Pending(l)
  {
    RunOne(l, c, rest);
    if !KeepsOpen(l.mode, c) {
      NotedStays(Step(l, c), rest, Pending(l));
    } else if Step(l, c).mode.InString? {
      PendingNotedIff(l, [c] + rest);
    }
  }

  lemma {:induction false} PlacedFrom(
    t: string, l: Lexer, fresh_: bool, roleName: string, password: string, expiration: string)
    requires ValidRoleName(roleName) && Sane(l) && (fresh_ ==> l.mode.Closed?)
    ensures ReadBackFrom(t, l, fresh_, roleName, password, expiration) <==> Placed(t, l.mode, fresh_, roleName)
    decreases |t|
  {
    if t == "" {
    } else if NAME <= t {
      var next := Run(l, roleName);
      RunSane(l, roleName);
      RunMode(l, roleName);
      PlacedFrom(t[|NAME|..], next, fresh_ && next.mode.Closed?, roleName, password, expiration);
      OverName(t, l, fresh_, roleName, password, expiration);
    } else if PASSWORD <= t {
      if Opens(l.mode) == Some(Standard) {
        OverPlacedValue(t, l, fresh_, PASSWORD, password, roleName, password, expiration);
        LiteralIsSane(l, password);
        PlacedFrom(t[|PASSWORD|..], AfterLiteral(l, password), true, roleName, password, expiration);
      } else {
        OverMisplacedValue(t, l, fresh_, PASSWORD, password, roleName, password, expiration);
      }
    } else if EXPIRATION <= t {
      if Opens(l.mode) == Some(Standard) {
        OverPlacedValue(t, l, fresh_, EXPIRATION, expiration, roleName, password, expiration);
        LiteralIsSane(l, expiration);
        PlacedFrom(t[|EXPIRATION|..], AfterLiteral(l, expiration), true, roleName, password, expiration);
      } else {
        OverMisplacedValue(t, l, fresh_, EXPIRATION, expiration, roleName, password, expiration);
      }
    } else {
      StepSane(l, t[0]);
      var open_ := fresh_ && KeepsOpen(l.mode, t[0]) && !StepMode(l.mode, t[0]).InString?;
      PlacedFrom(t[1..], Step(l, t[0]), open_, roleName, password, expiration);
      OverChar(t, l, fresh_, roleName, password, expiration);
    }
  }

  /**
    The whole template. With any accepted role name, every password and every instant:
    all the literals rendering puts in are read back as exactly what they stand for,
    each as one standard string constant, if and only if every value placeholder is
    well placed. The condition looks at the template and the role name only.
  */
  lemma {:induction false} AllReadBackIff(t: string, roleName: string, password: string, expiration: string)
    requires ValidRoleName(roleName) && '_' in roleName && Instant(expiration)
    ensures Render(t, roleName, password, expiration) == Ok(Substitute(t, Literals(roleName, password, expiration)))
    ensures AllReadBack(t, 0, roleName, password, expiration, Strings(Render(t, roleName, password, expiration).value))
            <==> Placed(t, Plain, false, roleName)
  {
    UnderscoreIsNoPiece(roleName);
    RenderIsSimultaneous(t, roleName, password, expiration);
    PlacedFrom(t, BEGIN, false, roleName, password, expiration);
  }

  /**
    One placeholder, wherever it stands: its literal is read back if and only if the
    statement in front of it ends where a quote begins a standard string, and the
    statement after it does not carry that string on.
  */
  lemma {:induction false} SubstitutedValueReadsBackIff(
    before: string, p: string, after: string, roleName: string, password: string, expiration: string)
    requires ValidRoleName(roleName) && '_' in roleName && Instant(expiration)
    requires p == PASSWORD || p == EXPIRATION
    ensures var v := Literals(roleName, password, expiration);
            var value := if p == PASSWORD then password else expiration;
            var rendered := Render(before + (p + after), roleName, password, expiration);
            var front := Substitute(before, v);
            && rendered == Ok(front + (QuoteLiteral(value) + Substitute(after, v)))
            && (Str(|front|, |front| + |QuoteLiteral(value)|, Standard, value) in Strings(rendered.value)
                <==> Opens(ModeAfter(Plain, front)) == Some(Standard)
                     && !GoesOn(Closed(Standard, Touching), Substitute(after, v)))
  {
    var v := Literals(roleName, password, expiration);
    var value := if p == PASSWORD then password else expiration;
    RenderedAround(before, p, after, roleName, password, expiration);
    LiteralReadsBackIff(Substitute(before, v), value, Substitute(after, v));
  }

  lemma {:induction false} RenderedAround(
    before: string, p: string, after: string, roleName: string, password: string, expiration: string)
    requires ValidRoleName(roleName) && '_' in roleName && Instant(expiration)
    requires p == PASSWORD || p == EXPIRATION
    ensures var v := Literals(roleName, password, expiration);
            var value := if p == PASSWORD then password else expiration;
            Render(before + (p + after), roleName, password, expiration)
            == Ok(Substitute(before, v) + (QuoteLiteral(value) + Substitute(after, v)))
  {
    var v := Literals(roleName, password, expiration);
    UnderscoreIsNoPiece(roleName);
    RenderIsSimultaneous(before + (p + after), roleName, password, expiration);
    SubstituteSplits(before, p, after, v);
    assert (p + after)[|p|..] == after;
    ValueLeads(p + after, p, v);
  }
}
