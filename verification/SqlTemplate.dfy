/**
  Rendering of the SQL templates of dynamic credentials, and how PostgreSQL reads
  the result back (internal/dynamic/dynamic.go).
*/
module SqlTemplate {
  import opened Results
  import opened Text

  const NAME := "{{name}}"
  const PASSWORD := "{{password}}"
  const EXPIRATION := "{{expiration}}"

  const ROLE_NAME_MAX_LEN := 63

  predicate LowerOrDigit(c: char) {
    'a' <= c <= 'z' || '0' <= c <= '9'
  }

  /** ValidateRoleName: the allowlist every interpolated role name has to meet. */
  predicate ValidRoleName(name: string) {
    && 0 < |name| <= ROLE_NAME_MAX_LEN
    && ('a' <= name[0] <= 'z' || name[0] == '_')
    && forall i | 0 <= i < |name| :: LowerOrDigit(name[i]) || name[i] == '_'
  }

  /** The characters an RFC 3339 instant in UTC is written with. */
  predicate Instant(s: string) {
    forall i | 0 <= i < |s| :: '0' <= s[i] <= '9' || s[i] in {'-', ':', 'T', 'Z'}
  }

  /** A value as a PostgreSQL string literal, embedded quotes doubled. */
  function QuoteLiteral(s: string): string {
    "'" + ReplaceAll(s, "'", "''") + "'"
  }

  /** The three substitutions, one after the other, the password last. */
  function Render(template: string, roleName: string, password: string, expiration: string): Result<string, AppError> {
    if !ValidRoleName(roleName) then Err(Validation)
    else
      var named := ReplaceAll(template, NAME, roleName);
      var dated := ReplaceAll(named, EXPIRATION, QuoteLiteral(expiration));
      Ok(ReplaceAll(dated, PASSWORD, QuoteLiteral(password)))
  }

  /** Whatever the template, rendering refuses exactly the names that are not in the allowlist. */
  lemma RenderRefusesIff(template: string, roleName: string, password: string, expiration: string)
    ensures Render(template, roleName, password, expiration) == Err(Validation) <==> !ValidRoleName(roleName)
    ensures Render(template, roleName, password, expiration).Ok? <==> ValidRoleName(roleName)
  {
  }

  // ---------------------------------------------------------------------------
  // One simultaneous substitution
  // ---------------------------------------------------------------------------

  /** The values the placeholders stand for, already rendered as SQL text. */
  datatype Values = Values(name: string, password: string, expiration: string)

  function Literals(roleName: string, password: string, expiration: string): Values {
    Values(roleName, QuoteLiteral(password), QuoteLiteral(expiration))
  }

  /** What a template means: every placeholder in it replaced at once, nothing read twice. */
  function Substitute(t: string, v: Values): string
    decreases |t|
  {
    if t == "" then ""
    else if NAME <= t then v.name + Substitute(t[|NAME|..], v)
    else if PASSWORD <= t then v.password + Substitute(t[|PASSWORD|..], v)
    else if EXPIRATION <= t then v.expiration + Substitute(t[|EXPIRATION|..], v)
    else [t[0]] + Substitute(t[1..], v)
  }

  predicate Placeholder(p: string) {
    p == NAME || p == PASSWORD || p == EXPIRATION
  }

  ghost predicate Substring(part: string, whole: string) {
    exists before, after :: whole == before + part + after
  }

  predicate NoBrace(s: string) {
    forall i | 0 <= i < |s| :: s[i] != '{'
  }

  /** Text without an opening brace passes through a substitution untouched. */
  lemma {:induction false} NoBraceSkips(a: string, rest: string, p: string, value: string)
    requires Placeholder(p) && NoBrace(a)
    ensures ReplaceAll(a + rest, p, value) == a + ReplaceAll(rest, p, value)
  {
    forall i | 0 <= i < |a| ensures !(p <= (a + rest)[i..]) {
      assert (a + rest)[i..][0] == a[i];
      assert p[0] == '{';
    }
    ReplaceAllSkips(a, rest, p, value);
  }

  /** A different placeholder passes through a substitution untouched. */
  lemma {:induction false} OtherPlaceholderSkips(q: string, rest: string, p: string, value: string)
    requires Placeholder(p) && Placeholder(q) && p != q
    ensures ReplaceAll(q + rest, p, value) == q + ReplaceAll(rest, p, value)
  {
    forall i | 0 <= i < |q| ensures !(p <= (q + rest)[i..]) {
      if i == 0 {
        assert (q + rest)[i..][2] == q[2] != p[2];
      } else if i == 1 {
        assert (q + rest)[i..][1] == q[2] != p[1];
      } else {
        assert (q + rest)[i..][0] == q[i] != p[0];
      }
    }
    ReplaceAllSkips(q, rest, p, value);
  }

  /**
    A substitution creates no placeholder: whatever tail of `p` begins the output
    began the input already, unless the value put in is itself a piece of `p`.
  */
  lemma {:induction false} NothingCreated(t: string, q: string, value: string, p: string, tail: string)
    requires Placeholder(p) && Placeholder(q) && p != q
    requires value != "" && !Substring(value, p)
    requires forall i | 0 <= i < |value| :: value[i] != '}'
    requires tail != "" ==> Substring(tail, p) && tail[|tail| - 1] == '}'
    requires tail <= ReplaceAll(t, q, value)
    ensures tail <= t
    decreases |t|
  {
    if tail == "" || t == "" {
    } else if q <= t {
      ValueCoversNoTail(value, ReplaceAll(t[|q|..], q, value), p, tail);
      assert false;
    } else {
      TailOfTail(p, tail);
      NothingCreated(t[1..], q, value, p, tail[1..]);
    }
  }

  lemma ValueCoversNoTail(value: string, rest: string, p: string, tail: string)
    requires value != "" && !Substring(value, p)
    requires forall i | 0 <= i < |value| :: value[i] != '}'
    requires tail != "" && Substring(tail, p) && tail[|tail| - 1] == '}'
    ensures !(tail <= value + rest)
  {
    if |tail| <= |value| {
      assert tail[|tail| - 1] != (value + rest)[|tail| - 1];
    } else {
      HeadOfPiece(p, tail, |value|);
      assert (value + rest)[..|value|] == value != tail[..|value|];
      HeadsDiffer(tail, value + rest, |value|);
    }
  }

  lemma HeadOfPiece(p: string, tail: string, k: nat)
    requires Substring(tail, p) && k <= |tail|
    ensures Substring(tail[..k], p)
  {
    var before, after :| p == before + tail + after;
    assert tail == tail[..k] + tail[k..];
    assert p == before + tail[..k] + (tail[k..] + after);
  }

  lemma HeadsDiffer(a: string, b: string, k: nat)
    requires k <= |a| && k <= |b| && a[..k] != b[..k]
    ensures !(a <= b)
  {
    var i :| 0 <= i < k && a[..k][i] != b[..k][i];
    assert a[i] != b[i];
  }

  lemma TailOfTail(p: string, tail: string)
    requires tail != "" && Substring(tail, p)
    ensures Substring(tail[1..], p)
  {
    var before, after :| p == before + tail + after;
    assert tail == [tail[0]] + tail[1..];
    assert p == (before + [tail[0]]) + tail[1..] + after;
  }

  lemma {:induction false} PlaceholderNotCreated(t: string, q: string, value: string, p: string)
    requires Placeholder(p) && Placeholder(q) && p != q
    requires value != "" && !Substring(value, p)
    requires forall i | 0 <= i < |value| :: value[i] != '}'
    requires p <= ReplaceAll(t, q, value)
    ensures p <= t
  {
    assert p == "" + p + "";
    NothingCreated(t, q, value, p, p);
  }

  // ---------------------------------------------------------------------------
  // Quoting
  // ---------------------------------------------------------------------------

  lemma {:induction false} DoublingKeepsOthers(s: string)
    ensures forall i | 0 <= i < |ReplaceAll(s, "'", "''")| ::
      ReplaceAll(s, "'", "''")[i] == '\'' || ReplaceAll(s, "'", "''")[i] in s
    decreases |s|
  {
    if s != "" {
      DoublingKeepsOthers(s[1..]);
    }
  }

  /** An instant's literal can neither open nor complete a placeholder. */
  lemma InstantLiteral(expiration: string)
    requires Instant(expiration)
    ensures NoBrace(QuoteLiteral(expiration))
    ensures forall i | 0 <= i < |QuoteLiteral(expiration)| :: QuoteLiteral(expiration)[i] != '}'
    ensures !Substring(QuoteLiteral(expiration), PASSWORD)
  {
    DoublingKeepsOthers(expiration);
    var lit := QuoteLiteral(expiration);
    forall i | 0 <= i < |lit| ensures lit[i] != '{' && lit[i] != '}' {
      if 0 < i < |lit| - 1 {
        assert lit[i] == ReplaceAll(expiration, "'", "''")[i - 1];
      }
    }
    StrangeCharNoPiece(lit, 0, PASSWORD);
  }

  /** A string with a character that `p` does not contain is no piece of `p`. */
  lemma StrangeCharNoPiece(part: string, i: nat, p: string)
    requires i < |part| && part[i] !in p
    ensures !Substring(part, p)
  {
    forall before, after ensures p != before + part + after {
      assert (before + part + after)[|before| + i] == part[i];
    }
  }

  // ---------------------------------------------------------------------------
  // Sequential equals simultaneous
  // ---------------------------------------------------------------------------

  function Sequential(t: string, v: Values): string {
    ReplaceAll(ReplaceAll(ReplaceAll(t, NAME, v.name), EXPIRATION, v.expiration), PASSWORD, v.password)
  }

  /** The values that no template can turn into a placeholder. */
  ghost predicate Inert(v: Values) {
    && v.name != "" && NoBrace(v.name) && (forall i | 0 <= i < |v.name| :: v.name[i] != '}')
    && v.expiration != "" && NoBrace(v.expiration) && (forall i | 0 <= i < |v.expiration| :: v.expiration[i] != '}')
    && !Substring(v.name, PASSWORD) && !Substring(v.name, EXPIRATION) && !Substring(v.expiration, PASSWORD)
  }

  lemma {:induction false} SequentialIsSimultaneous(t: string, v: Values)
    requires Inert(v)
    ensures Sequential(t, v) == Substitute(t, v)
    decreases |t|
  {
    if t == "" {
    } else if NAME <= t {
      var rest := t[|NAME|..];
      SequentialIsSimultaneous(rest, v);
      NoBraceSkips(v.name, ReplaceAll(rest, NAME, v.name), EXPIRATION, v.expiration);
      NoBraceSkips(v.name, ReplaceAll(ReplaceAll(rest, NAME, v.name), EXPIRATION, v.expiration), PASSWORD, v.password);
    } else if PASSWORD <= t {
      var rest := t[|PASSWORD|..];
      assert t == PASSWORD + rest;
      SequentialIsSimultaneous(rest, v);
      OtherPlaceholderSkips(PASSWORD, rest, NAME, v.name);
      var named := ReplaceAll(rest, NAME, v.name);
      OtherPlaceholderSkips(PASSWORD, named, EXPIRATION, v.expiration);
      ReplaceAllTakes(ReplaceAll(named, EXPIRATION, v.expiration), PASSWORD, v.password);
    } else if EXPIRATION <= t {
      var rest := t[|EXPIRATION|..];
      assert t == EXPIRATION + rest;
      SequentialIsSimultaneous(rest, v);
      OtherPlaceholderSkips(EXPIRATION, rest, NAME, v.name);
      var named := ReplaceAll(rest, NAME, v.name);
      ReplaceAllTakes(named, EXPIRATION, v.expiration);
      NoBraceSkips(v.expiration, ReplaceAll(named, EXPIRATION, v.expiration), PASSWORD, v.password);
    } else {
      SequentialIsSimultaneous(t[1..], v);
      var named := ReplaceAll(t, NAME, v.name);
      if EXPIRATION <= named {
        PlaceholderNotCreated(t, NAME, v.name, EXPIRATION);
      }
      var dated := ReplaceAll(named, EXPIRATION, v.expiration);
      if PASSWORD <= dated {
        PlaceholderNotCreated(named, EXPIRATION, v.expiration, PASSWORD);
        PlaceholderNotCreated(t, NAME, v.name, PASSWORD);
      }
      assert named[1..] == ReplaceAll(t[1..], NAME, v.name);
      assert dated[1..] == ReplaceAll(named[1..], EXPIRATION, v.expiration);
    }
  }

  /**
    Render means the simultaneous substitution, for every template, password and
    instant, whenever the role name is not itself a piece of a placeholder.
  */
  lemma {:induction false} RenderIsSimultaneous(t: string, roleName: string, password: string, expiration: string)
    requires ValidRoleName(roleName) && Instant(expiration)
    requires !Substring(roleName, PASSWORD) && !Substring(roleName, EXPIRATION)
    ensures Render(t, roleName, password, expiration) == Ok(Substitute(t, Literals(roleName, password, expiration)))
  {
    InstantLiteral(expiration);
    SequentialIsSimultaneous(t, Literals(roleName, password, expiration));
  }

  /** A role name with an underscore, as every generated one has, is no piece of a placeholder. */
  lemma UnderscoreIsNoPiece(roleName: string)
    requires '_' in roleName
    ensures !Substring(roleName, PASSWORD) && !Substring(roleName, EXPIRATION)
  {
    var i :| 0 <= i < |roleName| && roleName[i] == '_';
    StrangeCharNoPiece(roleName, i, PASSWORD);
    StrangeCharNoPiece(roleName, i, EXPIRATION);
  }

  /** The template a role name that is a piece of a placeholder completes: the placeholder with that piece taken out. */
  function Trap(before: string, after: string): string {
    "{{" + before + (NAME + (after + "}}"))
  }

  /** `p` is a later placeholder, and `roleName` lies strictly inside its braces. */
  predicate Inside(p: string, before: string, roleName: string, after: string) {
    && (p == PASSWORD || p == EXPIRATION)
    && roleName != "" && p == "{{" + before + (roleName + (after + "}}"))
  }

  lemma InsideHasNoBrace(p: string, before: string, roleName: string, after: string)
    requires Inside(p, before, roleName, after)
    ensures NoBrace(after + "}}") && NoBrace(before) && NoBrace(roleName)
  {
    forall i | 0 <= i < |before| ensures before[i] != '{' {
      assert before[i] == p[2 + i];
    }
    forall i | 0 <= i < |roleName| ensures roleName[i] != '{' {
      assert roleName[i] == p[2 + |before| + i];
    }
    forall i | 0 <= i < |after| ensures after[i] != '{' {
      assert after[i] == p[2 + |before| + |roleName| + i];
    }
  }

  /** No placeholder starts inside the front of a trap. */
  lemma TrapFront(p: string, before: string, roleName: string, after: string, i: nat, q: string)
    requires Inside(p, before, roleName, after) && Placeholder(q)
    requires i < 2 + |before|
    ensures !(q <= Trap(before, after)[i..])
  {
    var t := Trap(before, after);
    InsideHasNoBrace(p, before, roleName, after);
    if i >= 2 {
      assert t[i..][0] == before[i - 2] != q[0];
    } else if before == "" {
      assert t[2] == '{' && t[3] == '{';
      assert t[i..][2] != q[2];
    } else if i == 1 {
      assert t[i..][1] == before[0] != q[1];
    } else if q == p {
      var k := 2 + |before|;
      assert t[i..][k] == t[k] == '{';
      assert q[k] == roleName[0];
    } else {
      assert t[i..][2] == before[0] == p[2] != q[2];
    }
  }

  /** With such a role name the first pass writes the placeholder `p` itself. */
  lemma {:induction false} TrapBuildsPlaceholder(p: string, before: string, roleName: string, after: string)
    requires Inside(p, before, roleName, after)
    ensures ReplaceAll(Trap(before, after), NAME, roleName) == p
  {
    var front, back := "{{" + before, after + "}}";
    forall i | 0 <= i < |front| ensures !(NAME <= (front + (NAME + back))[i..]) {
      TrapFront(p, before, roleName, after, i, NAME);
    }
    ReplaceAllSkips(front, NAME + back, NAME, roleName);
    ReplaceAllTakes(back, NAME, roleName);
    InsideHasNoBrace(p, before, roleName, after);
    NoBraceSkips(back, "", NAME, roleName);
    assert back + "" == back;
  }

  /** Substituting at once leaves the trap as text. */
  lemma {:induction false} TrapStaysText(p: string, before: string, roleName: string, after: string, v: Values)
    requires Inside(p, before, roleName, after) && v.name == roleName
    ensures Substitute(Trap(before, after), v) == p
  {
    var front, back := "{{" + before, after + "}}";
    forall i, q | 0 <= i < |front| && Placeholder(q) ensures !(q <= (front + (NAME + back))[i..]) {
      TrapFront(p, before, roleName, after, i, q);
    }
    SubstituteSkips(front, NAME + back, v);
    assert (NAME + back)[|NAME|..] == back;
    InsideHasNoBrace(p, before, roleName, after);
    SubstituteSkipsNoBrace(back, "", v);
    assert back + "" == back;
  }

  /** Text without an opening brace is copied by the simultaneous substitution. */
  lemma {:induction false} SubstituteSkipsNoBrace(a: string, rest: string, v: Values)
    requires NoBrace(a)
    ensures Substitute(a + rest, v) == a + Substitute(rest, v)
  {
    forall i, q | 0 <= i < |a| && Placeholder(q) ensures !(q <= (a + rest)[i..]) {
      assert (a + rest)[i..][0] == a[i] != q[0];
    }
    SubstituteSkips(a, rest, v);
  }

  lemma {:induction false} SubstituteSkips(a: string, rest: string, v: Values)
    requires forall i, q | 0 <= i < |a| && Placeholder(q) :: !(q <= (a + rest)[i..])
    ensures Substitute(a + rest, v) == a + Substitute(rest, v)
    decreases |a|
  {
    if a == "" {
      assert a + rest == rest;
    } else {
      assert (a + rest)[0..] == a + rest;
      assert (a + rest)[1..] == a[1..] + rest;
      assert !(NAME <= a + rest) && !(PASSWORD <= a + rest) && !(EXPIRATION <= a + rest) by {
        assert forall q | Placeholder(q) :: !(q <= (a + rest)[0..]);
        assert Placeholder(NAME) && Placeholder(PASSWORD) && Placeholder(EXPIRATION);
      }
      forall i, q | 0 <= i < |a[1..]| && Placeholder(q) ensures !(q <= (a[1..] + rest)[i..]) {
        assert (a[1..] + rest)[i..] == (a + rest)[i + 1..];
      }
      SubstituteSkips(a[1..], rest, v);
    }
  }

  /** A name made of letters, digits and underscores lies strictly inside the braces of `p`. */
  lemma PieceIsInside(roleName: string, p: string) returns (before: string, after: string)
    requires p == PASSWORD || p == EXPIRATION
    requires ValidRoleName(roleName) && Substring(roleName, p)
    ensures Inside(p, before, roleName, after)
  {
    var b, a :| p == b + roleName + a;
    assert p[0] == '{' && p[1] == '{' && p[|p| - 1] == '}' && p[|p| - 2] == '}';
    BracesStayOutside(p, b, roleName, a);
    before, after := b[2..], a[..|a| - 2];
  }

  lemma BracesStayOutside(p: string, b: string, name: string, a: string)
    requires p == b + name + a && |p| >= 4
    requires p[0] == '{' && p[1] == '{' && p[|p| - 1] == '}' && p[|p| - 2] == '}'
    requires name != "" && forall i | 0 <= i < |name| :: name[i] != '{' && name[i] != '}'
    ensures |b| >= 2 && |a| >= 2
    ensures p == "{{" + b[2..] + (name + (a[..|a| - 2] + "}}"))
  {
    assert p[|b|] == name[0];
    assert p[|b| + |name| - 1] == name[|name| - 1];
    assert b[0] == p[0] && b[1] == p[1];
    assert a[|a| - 1] == p[|p| - 1] && a[|a| - 2] == p[|p| - 2];
    assert b == "{{" + b[2..];
    assert a == a[..|a| - 2] + "}}";
    assert p == "{{" + b[2..] + (name + (a[..|a| - 2] + "}}"));
  }

  /**
    Exactly which accepted role names make the three passes safe in every
    template: those that are not a piece of a later placeholder. The allowlist of
    ValidateRoleName alone does not ensure it.
  */
  lemma RenderSafeIff(roleName: string, password: string, expiration: string)
    requires ValidRoleName(roleName) && Instant(expiration)
    ensures (forall t ::
               Render(t, roleName, password, expiration) == Ok(Substitute(t, Literals(roleName, password, expiration))))
            <==> !Substring(roleName, PASSWORD) && !Substring(roleName, EXPIRATION)
  {
    if !Substring(roleName, PASSWORD) && !Substring(roleName, EXPIRATION) {
      forall t
        ensures Render(t, roleName, password, expiration) == Ok(Substitute(t, Literals(roleName, password, expiration)))
      {
        RenderIsSimultaneous(t, roleName, password, expiration);
      }
    } else {
      var p := if Substring(roleName, PASSWORD) then PASSWORD else EXPIRATION;
      var before, after := PieceIsInside(roleName, p);
      var t := Trap(before, after);
      TrapBuildsPlaceholder(p, before, roleName, after);
      TrapStaysText(p, before, roleName, after, Literals(roleName, password, expiration));
      InstantLiteral(expiration);
      PlaceholderIsReplaced(p, Literals(roleName, password, expiration));
      assert Render(t, roleName, password, expiration) != Ok(Substitute(t, Literals(roleName, password, expiration)));
    }
  }

  lemma {:induction false} PlaceholderIsReplaced(p: string, v: Values)
    requires p == PASSWORD || p == EXPIRATION
    requires NoBrace(v.expiration) && v.expiration != "" && v.password != "" && v.password[0] == '\''
      && v.expiration[0] == '\''
    ensures ReplaceAll(ReplaceAll(p, EXPIRATION, v.expiration), PASSWORD, v.password) != p
  {
    assert p + "" == p;
    if p == PASSWORD {
      OtherPlaceholderSkips(PASSWORD, "", EXPIRATION, v.expiration);
      ReplaceAllTakes("", PASSWORD, v.password);
    } else {
      ReplaceAllTakes("", EXPIRATION, v.expiration);
      NoBraceSkips(v.expiration, "", PASSWORD, v.password);
      assert v.expiration + "" == v.expiration;
    }
  }

  /** The smallest such name: `sswo` inside `{{pa…rd}}` makes the first pass write the password placeholder. */
  lemma AcceptedNameCanBeUnsafe()
    ensures ValidRoleName("sswo") && Substring("sswo", PASSWORD)
    ensures !(forall t :: Render(t, "sswo", "x", "2026") == Ok(Substitute(t, Literals("sswo", "x", "2026"))))
  {
    assert PASSWORD == "{{pa" + "sswo" + "rd}}";
    RenderSafeIff("sswo", "x", "2026");
  }
}
