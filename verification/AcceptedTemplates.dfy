/**
  What the check of a role configuration lets through: templates it stores, and what
  becomes of the password when they are rendered (internal/dynamic/dynamic.go,
  internal/dynamic/provisioner.go).
*/
module AcceptedTemplates {
  import opened Results
  import opened Text
  import opened SqlTemplate
  import SqlLiteral
  import opened SqlLexer
  import opened Redaction
  import Credentials
  import RoleConfig

  const HEAD := "create role "
  const TAIL := " password "
  const FRONT := HEAD + NAME + TAIL

  /** The start of every template here, rendered. */
  function RenderedFront(roleName: string): string {
    HEAD + roleName + TAIL
  }

  /** A creation template the configuration check accepts. */
  ghost predicate Storable(t: string) {
    RoleConfig.ValidTemplate(t, "create role") && Contains(t, PASSWORD) && SqlLiteral.Accepted(t)
  }

  lemma {:induction false} ContainsAt(s: string, pat: string, k: nat)
    requires k <= |s| && pat <= s[k..]
    ensures Contains(s, pat)
  {
    IndexIsFirst(s, pat);
  }

  /** No quote stands next to a brace, so none next to a placeholder. */
  predicate QuotesApart(t: string) {
    && (forall i | 0 < i < |t| && t[i] == '\'' :: t[i - 1] != '}')
    && (forall i | 0 < i < |t| && t[i - 1] == '\'' :: t[i] != '{')
  }

  lemma {:induction false} QuotesApartIsAccepted(t: string)
    requires QuotesApart(t)
    ensures SqlLiteral.Accepted(t)
  {
    forall p, at | (p == PASSWORD || p == EXPIRATION) && 0 <= at <= |t| ensures !SqlLiteral.QuotedAt(t, p, at) {
      if p <= t[at..] {
        assert t[at] == p[0] == '{';
        assert t[at + |p| - 1] == p[|p| - 1] == '}';
      }
    }
  }

  /**
    Such a start makes a storable template of any short text with a password placeholder
    and no quote next to a brace.
  */
  lemma {:induction false} FrontIsStorable(rest: string, k: nat)
    requires k <= |rest| <= 200 && PASSWORD <= rest[k..]
    requires !Blank(rest[|rest| - 1]) && '\0' !in rest && QuotesApart(rest)
    ensures Storable(FRONT + rest)
  {
    var t := FRONT + rest;
    assert |FRONT| == 30;
    assert t[|FRONT| + k..] == rest[k..];
    ContainsAt(t, PASSWORD, |FRONT| + k);
    FrontIsTemplate(rest);
    FrontQuotesApart(rest);
    QuotesApartIsAccepted(t);
  }

  lemma {:induction false} FrontQuotesApart(rest: string)
    requires QuotesApart(rest)
    ensures QuotesApart(FRONT + rest)
  {
    var t := FRONT + rest;
    assert forall i | 0 <= i < |FRONT| :: FRONT[i] != '\'';
    assert FRONT[|FRONT| - 1] == ' ';
    forall i | 0 < i < |t| && t[i] == '\'' ensures t[i - 1] != '}' {
      assert i >= |FRONT| && t[i] == rest[i - |FRONT|];
      assert i > |FRONT| ==> t[i - 1] == rest[i - |FRONT| - 1];
    }
    forall i | 0 < i < |t| && t[i - 1] == '\'' ensures t[i] != '{' {
      assert i > |FRONT| && t[i] == rest[i - |FRONT|] && t[i - 1] == rest[i - |FRONT| - 1];
    }
  }

  lemma {:induction false} FrontIsTemplate(rest: string)
    requires rest != "" && |rest| <= 200 && !Blank(rest[|rest| - 1]) && '\0' !in rest
    ensures RoleConfig.ValidTemplate(FRONT + rest, "create role")
  {
    var t := FRONT + rest;
    FrontIsTrimmed(rest);
    FrontHasNoNul(rest);
    assert t[|HEAD|..] == NAME + (TAIL + rest);
    ContainsAt(t, NAME, |HEAD|);
    assert HEAD <= t;
    VerbStays(t);
  }

  lemma {:induction false} FrontIsTrimmed(rest: string)
    requires rest != "" && |rest| <= 200 && !Blank(rest[|rest| - 1])
    ensures TrimSpace(FRONT + rest) == FRONT + rest && 30 < |FRONT + rest| <= 230
  {
    var t := FRONT + rest;
    assert |FRONT| == 30 && t[0] == 'c' && t[|t| - 1] == rest[|rest| - 1];
  }

  lemma {:induction false} FrontHasNoNul(rest: string)
    requires '\0' !in rest
    ensures '\0' !in FRONT + rest
  {
    assert forall i | 0 <= i < |FRONT| :: FRONT[i] != '\0';
  }

  lemma {:induction false} VerbStays(t: string)
    requires HEAD <= t
    ensures Contains(Credentials.ToLower(t), "create role")
  {
    var lower := Credentials.ToLower(t);
    assert lower[..11] == "create role" by {
      assert forall i | 0 <= i < 11 :: t[i] == HEAD[i] == "create role"[i];
    }
    assert lower[0..] == lower;
    ContainsAt(lower, "create role", 0);
  }

  lemma {:induction false} FrontRenders(rest: string, v: Values)
    ensures Substitute(FRONT + rest, v) == HEAD + v.name + TAIL + Substitute(rest, v)
  {
    assert FRONT + rest == HEAD + (NAME + (TAIL + rest));
    SubstituteSkipsNoBrace(HEAD, NAME + (TAIL + rest), v);
    var tail := NAME + (TAIL + rest);
    assert tail[|NAME|..] == TAIL + rest;
    assert Substitute(tail, v) == v.name + Substitute(TAIL + rest, v);
    SubstituteSkipsNoBrace(TAIL, rest, v);
  }

  predicate WordChar(c: char) {
    Letter(c) || Digit(c)
  }

  predicate InWords(m: Mode) {
    m == Plain || m.Word? || m.Number? || m.Exponent?
  }

  /** Words and single spaces, with a space at the end, lead from between two tokens to between two tokens. */
  lemma {:induction false} WordsThenSpace(s: string, m: Mode)
    requires InWords(m)
    requires s != "" && s[|s| - 1] == ' ' && forall i | 0 <= i < |s| :: s[i] == ' ' || WordChar(s[i])
    ensures ModeAfter(m, s) == Plain
    decreases |s|
  {
    var next := StepMode(m, s[0]);
    assert InWords(next) && (s[0] == ' ' ==> next == Plain);
    if |s| > 1 {
      assert forall i | 0 <= i < |s[1..]| :: s[1..][i] == s[i + 1];
      WordsThenSpace(s[1..], next);
    } else {
      assert s[1..] == "";
    }
  }

  lemma {:induction false} FrontEndsPlain(roleName: string)
    requires ValidRoleName(roleName)
    ensures ModeAfter(Plain, RenderedFront(roleName)) == Plain
  {
    var s := RenderedFront(roleName);
    forall i | 0 <= i < |s| ensures s[i] == ' ' || WordChar(s[i]) {
      if |HEAD| <= i < |HEAD| + |roleName| {
        assert s[i] == roleName[i - |HEAD|];
        assert LowerOrDigit(roleName[i - |HEAD|]) || roleName[i - |HEAD|] == '_';
      }
    }
    WordsThenSpace(s, Plain);
  }

  /** The start of these templates places nothing and leaves the rest to stand between two tokens. */
  lemma {:induction false} FrontPlaces(rest: string, roleName: string)
    requires ValidRoleName(roleName)
    ensures Placed(FRONT + rest, Plain, false, roleName) <==> Placed(rest, Plain, false, roleName)
  {
    assert FRONT + rest == HEAD + (NAME + (TAIL + rest));
    HeadPlaces(NAME + (TAIL + rest), roleName);
    NamePlaces(TAIL + rest, Plain, roleName);
    TailPlaces(rest, roleName);
  }

  lemma {:induction false} HeadPlaces(rest: string, roleName: string)
    ensures Placed(HEAD + rest, Plain, false, roleName) <==> Placed(rest, Plain, false, roleName)
  {
    HeadIsWords();
    WordsPlace(HEAD, rest, roleName);
  }

  /** Words and spaces, a space at the end. */
  predicate Words(a: string) {
    a != "" && a[|a| - 1] == ' ' && forall i | 0 <= i < |a| :: a[i] == ' ' || WordChar(a[i])
  }

  lemma {:induction false} HeadIsWords()
    ensures Words(HEAD) && Words("valid until ")
  {
  }

  lemma {:induction false} WordsPlace(a: string, rest: string, roleName: string)
    requires Words(a)
    ensures Placed(a + rest, Plain, false, roleName) <==> Placed(rest, Plain, false, roleName)
  {
    forall i | 0 <= i < |a| ensures a[i] != '{' {
      assert a[i] == ' ' || WordChar(a[i]);
    }
    WordsThenSpace(a, Plain);
    TextPlaces(a, rest, Plain, roleName);
  }

  lemma {:induction false} NamePlaces(rest: string, m: Mode, roleName: string)
    ensures Placed(NAME + rest, m, false, roleName) <==> Placed(rest, ModeAfter(m, roleName), false, roleName)
  {
    assert (NAME + rest)[|NAME|..] == rest;
  }

  lemma {:induction false} TailPlaces(rest: string, roleName: string)
    requires ValidRoleName(roleName)
    ensures Placed(TAIL + rest, ModeAfter(Plain, roleName), false, roleName) <==> Placed(rest, Plain, false, roleName)
  {
    TextPlaces(TAIL, rest, ModeAfter(Plain, roleName), roleName);
    NameThenTail(roleName);
    ModeConcat(Plain, roleName, TAIL);
  }

  lemma {:induction false} NameThenTail(roleName: string)
    requires ValidRoleName(roleName)
    ensures ModeAfter(Plain, roleName + TAIL) == Plain
  {
    var s := roleName + TAIL;
    forall i | 0 <= i < |s| ensures s[i] == ' ' || WordChar(s[i]) {
      if i < |roleName| {
        assert s[i] == roleName[i];
        assert LowerOrDigit(roleName[i]) || roleName[i] == '_';
      } else {
        assert s[i] == TAIL[i - |roleName|];
      }
    }
    WordsThenSpace(s, Plain);
  }

  lemma {:induction false} ModeConcat(m: Mode, a: string, b: string)
    ensures ModeAfter(m, a + b) == ModeAfter(ModeAfter(m, a), b)
    decreases |a|
  {
    if a == "" {
      assert a + b == b;
    } else {
      assert (a + b)[1..] == a[1..] + b;
      ModeConcat(StepMode(m, a[0]), a[1..], b);
    }
  }

  /** Text without a brace only moves the reader on. */
  lemma {:induction false} TextPlaces(a: string, rest: string, m: Mode, roleName: string)
    requires NoBrace(a)
    ensures Placed(a + rest, m, false, roleName) <==> Placed(rest, ModeAfter(m, a), false, roleName)
    decreases |a|
  {
    if a == "" {
      assert a + rest == rest;
    } else {
      var t := a + rest;
      assert t[0] == a[0] != '{' && t[1..] == a[1..] + rest;
      TextPlaces(a[1..], rest, StepMode(m, a[0]), roleName);
    }
  }

  /** A placeholder in the wrong place spoils the template. */
  lemma {:induction false} ValueSpoils(p: string, rest: string, m: Mode, roleName: string)
    requires (p == PASSWORD || p == EXPIRATION) && Opens(m) != Some(Standard)
    ensures !Placed(p + rest, m, false, roleName)
  {
    assert (p + rest)[2] == p[2];
  }

  // ---------------------------------------------------------------------------
  // A template as it should be
  // ---------------------------------------------------------------------------

  /** The ordinary template: with every role name both of its values are read back. */
  lemma {:induction false} OrdinaryTemplateIsPlaced(roleName: string)
    requires ValidRoleName(roleName)
    ensures var t := FRONT + (PASSWORD + (" valid until " + EXPIRATION));
            Storable(t) && Placed(t, Plain, false, roleName)
  {
    var rest := PASSWORD + (" valid until " + EXPIRATION);
    assert rest[0..] == rest;
    FrontIsStorable(rest, 0);
    FrontPlaces(rest, roleName);
    PlacedValue(PASSWORD, " valid until " + EXPIRATION, Plain, false, roleName);
    UntilIsPlaced(roleName);
  }

  lemma {:induction false} UntilIsPlaced(roleName: string)
    ensures Placed(" valid until " + EXPIRATION, Closed(Standard, Touching), true, roleName)
  {
    HeadIsWords();
    ValueAfterWords("valid until ", roleName);
    assert " " + ("valid until " + EXPIRATION) == " valid until " + EXPIRATION;
  }

  lemma {:induction false} ValueAfterWords(a: string, roleName: string)
    requires Words(a) && Letter(a[0])
    ensures Placed(" " + (a + EXPIRATION), Closed(Standard, Touching), true, roleName)
  {
    forall i | 0 <= i < |a| ensures a[i] != '{' {
      assert a[i] == ' ' || WordChar(a[i]);
    }
    WordsThenSpace(a, Plain);
    AfterAValue(a, EXPIRATION, roleName);
    PlacedValue(EXPIRATION, "", Plain, false, roleName);
    assert EXPIRATION + "" == EXPIRATION;
  }

  lemma {:induction false} PlacedValue(p: string, rest: string, m: Mode, fresh_: bool, roleName: string)
    requires (p == PASSWORD || p == EXPIRATION) && Opens(m) == Some(Standard)
    ensures Placed(p + rest, m, fresh_, roleName) <==> Placed(rest, Closed(Standard, Touching), true, roleName)
  {
    assert (p + rest)[2] == p[2] && (p + rest)[|p|..] == rest;
  }

  /** A space and then a word end a value's literal. */
  lemma {:induction false} AfterAValue(a: string, rest: string, roleName: string)
    requires NoBrace(a) && a != "" && Letter(a[0])
    ensures Placed(" " + (a + rest), Closed(Standard, Touching), true, roleName)
            <==> Placed(rest, ModeAfter(Plain, a), false, roleName)
  {
    var t := " " + (a + rest);
    assert t[0] == ' ' && t[1..] == a + rest;
    WordAfterSpace(a, rest, roleName);
  }

  lemma {:induction false} WordAfterSpace(a: string, rest: string, roleName: string)
    requires NoBrace(a) && a != "" && Letter(a[0])
    ensures Placed(a + rest, Closed(Standard, Spaced), true, roleName) <==>
      Placed(rest, ModeAfter(Plain, a), false, roleName)
  {
    assert (a + rest)[0] == a[0] != '{' && (a + rest)[1..] == a[1..] + rest;
    assert StepMode(Closed(Standard, Spaced), a[0]) == Word([a[0]]) == StepMode(Plain, a[0]);
    TextPlaces(a[1..], rest, Word([a[0]]), roleName);
  }

  // ---------------------------------------------------------------------------
  // Templates that are stored and do not do what they seem to
  // ---------------------------------------------------------------------------

  const IN_A_RUN := "'x {{password}} y'"

  /**
    In a quoted run that does not touch it: the check stores this template, no rendering
    of it has the password read back as a string, and the scrubbed rendering shows the
    password in the open.
  */
  lemma {:induction false} AcceptedTemplateCanShowPassword(roleName: string, password: string, expiration: string)
    requires ValidRoleName(roleName) && '_' in roleName && Instant(expiration) && Generated(password)
    ensures var t := FRONT + IN_A_RUN;
            var rendered := Render(t, roleName, password, expiration);
            && Storable(t) && !PasswordOutsideRuns(t, false)
            && rendered == Ok(RenderedFront(roleName) + ("'x " + QuoteLiteral(password) + " y'"))
            && Scrub(rendered.value) == RenderedFront(roleName) + (RUN + (password + RUN))
            && !Placed(t, Plain, false, roleName)
  {
    FrontIsStorable(IN_A_RUN, 3) by {
      assert IN_A_RUN[3..] == PASSWORD + " y'";
    }
    RunRendered(roleName, password, expiration);
    RunIsMisplaced(roleName);
    RunScrubs(roleName, password);
    FrontOutside(roleName, password, expiration);
  }

  lemma {:induction false} RunRendered(roleName: string, password: string, expiration: string)
    requires ValidRoleName(roleName) && '_' in roleName && Instant(expiration)
    ensures Render(FRONT + IN_A_RUN, roleName, password, expiration)
         == Ok(RenderedFront(roleName) + ("'x " + QuoteLiteral(password) + " y'"))
  {
    UnderscoreIsNoPiece(roleName);
    RenderIsSimultaneous(FRONT + IN_A_RUN, roleName, password, expiration);
    FrontRenders(IN_A_RUN, Literals(roleName, password, expiration));
    RunRenders(Literals(roleName, password, expiration));
  }

  lemma {:induction false} RunIsMisplaced(roleName: string)
    requires ValidRoleName(roleName)
    ensures !Placed(FRONT + IN_A_RUN, Plain, false, roleName)
  {
    RunIsOpen();
    MisplacedAfter("'x ", " y'", roleName);
    RunIsAround();
  }

  lemma {:induction false} RunIsAround()
    ensures FRONT + IN_A_RUN == Around("'x ", " y'")
  {
    assert IN_A_RUN == "'x " + (PASSWORD + " y'");
  }

  lemma {:induction false} RunIsOpen()
    ensures ModeAfter(Plain, "'x ") == InString(Standard)
  {
    assert "'x "[1..] == "x " && "x "[1..] == " " && " "[1..] == "";
  }

  lemma {:induction false} RunRenders(v: Values)
    ensures Substitute(IN_A_RUN, v) == "'x " + v.password + " y'"
  {
    assert IN_A_RUN == "'x " + (PASSWORD + " y'");
    SubstituteSkipsNoBrace("'x ", PASSWORD + " y'", v);
    SqlLexer.ValueLeads(PASSWORD + " y'", PASSWORD, v);
    assert (PASSWORD + " y'")[|PASSWORD|..] == " y'";
    SubstituteSkipsNoBrace(" y'", "", v);
    assert " y'" + "" == " y'";
  }

  lemma {:induction false} RunScrubs(roleName: string, password: string)
    requires ValidRoleName(roleName) && Generated(password)
    ensures Scrub(RenderedFront(roleName) + ("'x " + QuoteLiteral(password) + " y'"))
         == RenderedFront(roleName) + (RUN + (password + RUN))
  {
    GeneratedIsQuoteFree(password);
    QuoteFreeLiteral(password);
    SqlLexer.NoQuoteInName(roleName);
    var front := RenderedFront(roleName);
    assert QuoteFree(HEAD) && QuoteFree(TAIL) && QuoteFree(front);
    var last := "'" + (" y" + ("'" + ""));
    var rest := "'" + ("x " + ("'" + (password + last)));
    assert "'x " + QuoteLiteral(password) + " y'" == rest;
    Copied(front, rest);
    Elided("x ", password + last);
    Copied(password, last);
    Elided(" y", "");
    assert RUN + "" == RUN;
  }

  /** The scrubbed text would not be constant: so the placeholder is in a run. */
  lemma {:induction false} FrontOutside(roleName: string, password: string, expiration: string)
    requires ValidRoleName(roleName) && Instant(expiration) && Generated(password)
    ensures !PasswordOutsideRuns(FRONT + IN_A_RUN, false)
  {
    var p, q := seq(PASSWORD_LENGTH, i => 'a'), seq(PASSWORD_LENGTH, i => 'b');
    assert Generated(p) && Generated(q) && p[0] != q[0];
    GeneratedIsQuoteFree(p);
    GeneratedIsQuoteFree(q);
    forall o | Generated(o)
      ensures Shown(FRONT + IN_A_RUN, roleName, o, expiration) == RenderedFront(roleName) + (RUN + (o + RUN))
    {
      FrontRenders(IN_A_RUN, Literals(roleName, o, expiration));
      RunRenders(Literals(roleName, o, expiration));
      RunScrubs(roleName, o);
    }
    var front := RenderedFront(roleName);
    SameHeadSameTail(front, RUN + (p + RUN), RUN + (q + RUN));
    SameHeadSameTail(RUN, p + RUN, q + RUN);
    assert (p + RUN)[0] != (q + RUN)[0];
    ToldApartIff(FRONT + IN_A_RUN, roleName, p, q, expiration);
  }

  lemma {:induction false} DoublingSplits(a: string, b: string)
    ensures ReplaceAll(a + b, "'", "''") == ReplaceAll(a, "'", "''") + ReplaceAll(b, "'", "''")
    decreases |a|
  {
    if a == "" {
      assert a + b == b;
    } else {
      assert (a + b)[1..] == a[1..] + b;
      SqlLiteral.DoubledStep(a + b);
      SqlLiteral.DoubledStep(a);
      DoublingSplits(a[1..], b);
    }
  }

  /** Two literals side by side are one literal of both values with a quote between them. */
  lemma {:induction false} NeighboursAreOne(a: string, b: string)
    ensures QuoteLiteral(a) + QuoteLiteral(b) == QuoteLiteral(a + "'" + b)
  {
    DoublingSplits(a + "'", b);
    DoublingSplits(a, "'");
    OneQuoteDoubled();
    Joins(ReplaceAll(a, "'", "''"), ReplaceAll(b, "'", "''"));
  }

  lemma {:induction false} Joins(x: string, y: string)
    ensures ("'" + x + "'") + ("'" + y + "'") == "'" + (x + "''" + y) + "'"
  {
  }

  lemma {:induction false} OneQuoteDoubled()
    ensures ReplaceAll("'", "'", "''") == "''"
  {
    SqlLiteral.DoubledStep("'");
    assert "'"[1..] == "" && "''" + "" == "''";
  }

  /**
    Side by side: the check stores this template, and in every rendering of it the two
    values are read back as one string constant that is neither.
  */
  lemma {:induction false} AcceptedNeighboursRunTogether(roleName: string, password: string, expiration: string)
    requires ValidRoleName(roleName) && '_' in roleName && Instant(expiration)
    ensures var t := FRONT + (PASSWORD + EXPIRATION);
            var rendered := Render(t, roleName, password, expiration);
            && Storable(t) && rendered.Ok?
            && Str(|RenderedFront(roleName)|, |rendered.value|, Standard, password + "'" + expiration)
               in Strings(rendered.value)
            && !Placed(t, Plain, false, roleName)
  {
    FrontIsStorable(PASSWORD + EXPIRATION, 0) by {
      assert (PASSWORD + EXPIRATION)[0..] == PASSWORD + EXPIRATION;
    }
    NeighboursRendered(roleName, password, expiration);
    LastLiteralReads(roleName, password + "'" + expiration);
    NeighboursAreMisplaced(roleName);
  }

  lemma {:induction false} LastLiteralReads(roleName: string, value: string)
    requires ValidRoleName(roleName)
    ensures var sql := RenderedFront(roleName) + QuoteLiteral(value);
            Str(|RenderedFront(roleName)|, |sql|, Standard, value) in Strings(sql)
  {
    FrontEndsPlain(roleName);
    LiteralReadsBackIff(RenderedFront(roleName), value, "");
    assert QuoteLiteral(value) + "" == QuoteLiteral(value);
  }

  lemma {:induction false} NeighboursRendered(roleName: string, password: string, expiration: string)
    requires ValidRoleName(roleName) && '_' in roleName && Instant(expiration)
    ensures Render(FRONT + (PASSWORD + EXPIRATION), roleName, password, expiration)
         == Ok(RenderedFront(roleName) + QuoteLiteral(password + "'" + expiration))
  {
    var t, v := FRONT + (PASSWORD + EXPIRATION), Literals(roleName, password, expiration);
    UnderscoreIsNoPiece(roleName);
    RenderIsSimultaneous(t, roleName, password, expiration);
    FrontRenders(PASSWORD + EXPIRATION, v);
    NeighboursRender(v);
    NeighboursAreOne(password, expiration);
  }

  lemma {:induction false} NeighboursAreMisplaced(roleName: string)
    requires ValidRoleName(roleName)
    ensures !Placed(FRONT + (PASSWORD + EXPIRATION), Plain, false, roleName)
  {
    FrontPlaces(PASSWORD + EXPIRATION, roleName);
    PlacedValue(PASSWORD, EXPIRATION, Plain, false, roleName);
    assert EXPIRATION[2] != NAME[2] && EXPIRATION[2] != PASSWORD[2];
  }

  lemma {:induction false} NeighboursRender(v: Values)
    ensures Substitute(PASSWORD + EXPIRATION, v) == v.password + v.expiration
  {
    SqlLexer.ValueLeads(PASSWORD + EXPIRATION, PASSWORD, v);
    assert (PASSWORD + EXPIRATION)[|PASSWORD|..] == EXPIRATION;
    SqlLexer.ValueLeads(EXPIRATION, EXPIRATION, v);
    assert EXPIRATION[|EXPIRATION|..] == "" && v.expiration + "" == v.expiration;
  }

  /** Text the check has nothing against, around a placeholder. */
  predicate Unsuspicious(a: string, b: string) {
    && NoBrace(a) && QuotesApart(a + (PASSWORD + b)) && |a| + |b| < 100
    && '\0' !in a && '\0' !in b && (b != "" ==> !Blank(b[|b| - 1]))
  }

  /** The template with its password placeholder between these texts. */
  function Around(a: string, b: string): string {
    FRONT + (a + (PASSWORD + b))
  }

  lemma {:induction false} MisplacedAfter(a: string, b: string, roleName: string)
    requires ValidRoleName(roleName) && NoBrace(a) && Opens(ModeAfter(Plain, a)) != Some(Standard)
    ensures !Placed(Around(a, b), Plain, false, roleName)
  {
    FrontPlaces(a + (PASSWORD + b), roleName);
    TextPlaces(a, PASSWORD + b, Plain, roleName);
    ValueSpoils(PASSWORD, b, ModeAfter(Plain, a), roleName);
  }

  /**
    Whatever text leads to a place where a quote begins no standard string: the check
    stores a template with the password there, and no role name makes it right.
  */
  lemma {:induction false} StoredAndMisplaced(a: string, b: string, roleName: string)
    requires ValidRoleName(roleName) && Opens(ModeAfter(Plain, a)) != Some(Standard) && Unsuspicious(a, b)
    ensures Storable(Around(a, b)) && !Placed(Around(a, b), Plain, false, roleName)
  {
    var rest := a + (PASSWORD + b);
    assert rest[|a|..] == PASSWORD + b;
    assert rest[|rest| - 1] == if b == "" then '}' else b[|b| - 1];
    assert forall i | 0 <= i < |PASSWORD| :: PASSWORD[i] != '\0';
    FrontIsStorable(rest, |a|);
    MisplacedAfter(a, b, roleName);
  }

  /**
    Such text: a literal and a newline, an escape prefix, the start of a comment, and
    an open dollar quote, on its own or directly after a number or a parameter. The
    check stores all six templates, and no role name makes any of them right.
  */
  lemma {:induction false} SixStoredAndMisplaced(roleName: string)
    requires ValidRoleName(roleName)
    ensures Storable(Around("'a'\n", "")) && !Placed(Around("'a'\n", ""), Plain, false, roleName)
    ensures Storable(Around("E", "")) && !Placed(Around("E", ""), Plain, false, roleName)
    ensures Storable(Around("-- ", "")) && !Placed(Around("-- ", ""), Plain, false, roleName)
    ensures Storable(Around("$$ ", " $$")) && !Placed(Around("$$ ", " $$"), Plain, false, roleName)
    ensures Storable(Around("1$$ ", " $$")) && !Placed(Around("1$$ ", " $$"), Plain, false, roleName)
    ensures Storable(Around("$1$$ ", " $$")) && !Placed(Around("$1$$ ", " $$"), Plain, false, roleName)
  {
    LiteralAndNewline();
    StoredAndMisplaced("'a'\n", "", roleName);
    EscapePrefix();
    StoredAndMisplaced("E", "", roleName);
    CommentStart();
    StoredAndMisplaced("-- ", "", roleName);
    DollarQuote();
    StoredAndMisplaced("$$ ", " $$", roleName);
    DollarQuoteAfterNumber();
    StoredAndMisplaced("1$$ ", " $$", roleName);
    DollarQuoteAfterParameter();
    StoredAndMisplaced("$1$$ ", " $$", roleName);
  }

  lemma {:induction false} LiteralAndNewline()
    ensures Unsuspicious("'a'\n", "") && Opens(ModeAfter(Plain, "'a'\n")) == None
  {
    assert "'a'\n"[1..] == "a'\n" && "a'\n"[1..] == "'\n" && "'\n"[1..] == "\n" && "\n"[1..] == "";
    assert ModeAfter(InString(Standard), "a'\n") == ModeAfter(InString(Standard), "'\n");
    assert ModeAfter(InString(Standard), "'\n") == ModeAfter(Closed(Standard, Touching), "\n");
  }

  lemma {:induction false} EscapePrefix()
    ensures Unsuspicious("E", "") && Opens(ModeAfter(Plain, "E")) == Some(Escape)
  {
    assert "E"[1..] == "";
  }

  lemma {:induction false} CommentStart()
    ensures Unsuspicious("-- ", "") && Opens(ModeAfter(Plain, "-- ")) == None
  {
    assert "-- "[1..] == "- " && "- "[1..] == " " && " "[1..] == "";
  }

  lemma {:induction false} DollarQuote()
    ensures Unsuspicious("$$ ", " $$") && Opens(ModeAfter(Plain, "$$ ")) == None
  {
    NoQuoteAround("$$ ");
    DollarOpens(Plain);
  }

  lemma {:induction false} DollarQuoteAfterNumber()
    ensures Unsuspicious("1$$ ", " $$") && Opens(ModeAfter(Plain, "1$$ ")) == None
  {
    NoQuoteAround("1$$ ");
    assert "1$$ "[1..] == "$$ ";
    DollarOpens(Number(Whole));
  }

  lemma {:induction false} DollarQuoteAfterParameter()
    ensures Unsuspicious("$1$$ ", " $$") && Opens(ModeAfter(Plain, "$1$$ ")) == None
  {
    NoQuoteAround("$1$$ ");
    assert "$1$$ "[1..] == "1$$ " && "1$$ "[1..] == "$$ ";
    DollarOpens(Param);
  }

  lemma {:induction false} NoQuoteAround(a: string)
    requires '\'' !in a
    ensures QuotesApart(a + (PASSWORD + " $$"))
  {
    var t := a + (PASSWORD + " $$");
    assert forall i | 0 <= i < |t| :: t[i] != '\'';
  }

  /** Where a dollar sign belongs to no word, two of them open a dollar quote. */
  lemma {:induction false} DollarOpens(m: Mode)
    requires StepMode(m, '$') == Tag("")
    ensures Opens(ModeAfter(m, "$$ ")) == None
  {
    assert "$$ "[1..] == "$ " && "$ "[1..] == " " && " "[1..] == "";
    assert ModeAfter(m, "$$ ") == ModeAfter(Tag(""), "$ ") == ModeAfter(Dollar("$$", ""), " ");
  }

  // ---------------------------------------------------------------------------
  // A revocation that revokes nothing
  // ---------------------------------------------------------------------------

  const COMMENTED := "-- drop role "

  /**
    The check looks for the words of a drop and for the name, not for where they stand:
    it stores this revocation template, whose rendering is one comment for every role
    name.
  */
  lemma {:induction false} CommentedDropIsStored(roleName: string, password: string, expiration: string)
    requires ValidRoleName(roleName) && '_' in roleName && Instant(expiration)
    ensures RoleConfig.ValidTemplate(COMMENTED + NAME, "drop role") && !Contains(COMMENTED + NAME, PASSWORD)
    ensures Render(COMMENTED + NAME, roleName, password, expiration) == Ok(COMMENTED + roleName)
    ensures ModeAfter(Plain, COMMENTED + roleName) == LineComment && Strings(COMMENTED + roleName) == []
  {
    CommentedHasVerb();
    CommentedHasName();
    CommentedHasNoPassword();
    CommentedIsTrimmed();
    CommentedRenders(roleName, password, expiration);
    CommentedReads(roleName);
  }

  lemma {:induction false} CommentedReads(roleName: string)
    requires ValidRoleName(roleName)
    ensures ModeAfter(Plain, COMMENTED + roleName) == LineComment && Strings(COMMENTED + roleName) == []
  {
    var rest := COMMENTED[2..] + roleName;
    assert COMMENTED + roleName == ['-'] + (['-'] + rest);
    CommentStays(rest, roleName);
    RunOne(BEGIN, '-', ['-'] + rest);
    RunOne(Step(BEGIN, '-'), '-', rest);
    CommentNotesNothing(Step(Step(BEGIN, '-'), '-'), rest);
    RunMode(BEGIN, COMMENTED + roleName);
  }

  lemma {:induction false} CommentedIsTrimmed()
    ensures TrimSpace(COMMENTED + NAME) == COMMENTED + NAME && |COMMENTED + NAME| == 21
  {
    var t := COMMENTED + NAME;
    assert |COMMENTED| == 13 && t[0] == '-' && t[|t| - 1] == '}';
  }

  lemma {:induction false} CommentedHasName()
    ensures Contains(COMMENTED + NAME, NAME)
  {
    assert |COMMENTED| == 13 && (COMMENTED + NAME)[13..] == NAME;
    ContainsAt(COMMENTED + NAME, NAME, 13);
  }

  lemma {:induction false} CommentedHasVerb()
    ensures Contains(Credentials.ToLower(COMMENTED + NAME), "drop role")
  {
    var t := COMMENTED + NAME;
    var lower := Credentials.ToLower(t);
    assert lower[3..][..9] == "drop role" by {
      assert forall i | 0 <= i < 9 :: t[i + 3] == COMMENTED[i + 3] == "drop role"[i];
    }
    ContainsAt(lower, "drop role", 3);
  }

  lemma {:induction false} CommentedHasNoPassword()
    ensures !Contains(COMMENTED + NAME, PASSWORD) && '\0' !in COMMENTED + NAME
  {
    var t := COMMENTED + NAME;
    assert forall i | 0 <= i < |t| :: t[i] != '\0' && t[i] != 'w';
    IndexIsFirst(t, PASSWORD);
    forall k | 0 <= k <= |t| ensures !(PASSWORD <= t[k..]) {
      assert |t[k..]| > 6 ==> t[k..][6] == t[k + 6] != PASSWORD[6];
    }
  }

  lemma {:induction false} CommentedRenders(roleName: string, password: string, expiration: string)
    requires ValidRoleName(roleName) && '_' in roleName && Instant(expiration)
    ensures Render(COMMENTED + NAME, roleName, password, expiration) == Ok(COMMENTED + roleName)
  {
    var v := Literals(roleName, password, expiration);
    UnderscoreIsNoPiece(roleName);
    RenderIsSimultaneous(COMMENTED + NAME, roleName, password, expiration);
    SubstituteSkipsNoBrace(COMMENTED, NAME, v);
    assert NAME[|NAME|..] == "" && roleName + "" == roleName;
  }

  lemma {:induction false} CommentStays(s: string, roleName: string)
    requires ValidRoleName(roleName) && s == COMMENTED[2..] + roleName
    ensures forall i | 0 <= i < |s| :: !Newline(s[i])
  {
    forall i | 0 <= i < |s| ensures !Newline(s[i]) {
      if i < |COMMENTED| - 2 {
        assert s[i] == COMMENTED[i + 2];
      } else {
        assert s[i] == roleName[i - (|COMMENTED| - 2)];
        assert LowerOrDigit(s[i]) || s[i] == '_';
      }
    }
  }

  lemma {:induction false} CommentNotesNothing(l: Lexer, s: string)
    requires l.mode == LineComment && forall i | 0 <= i < |s| :: !Newline(s[i])
    ensures Run(l, s).mode == LineComment && Run(l, s).strings == l.strings
    decreases |s|
  {
    if s != "" {
      assert forall i | 0 <= i < |s[1..]| :: s[1..][i] == s[i + 1];
      CommentNotesNothing(Step(l, s[0]), s[1..]);
    }
  }
}
