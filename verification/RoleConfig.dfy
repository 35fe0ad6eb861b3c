/**
  The configuration of a dynamic role (internal/dynamic/dynamic.go): the check it
  passes before it is stored, the lease lengths it grants, and what the check
  guarantees about the statements it renders to. Durations are in nanoseconds.
*/
module RoleConfig {
  import opened Results
  import opened Text
  import opened SqlTemplate
  import SqlLiteral
  import opened Credentials
  import Redaction

  const SECOND := 1_000_000_000
  const MIN_TTL := 60 * SECOND
  const DEFAULT_TTL := 3600 * SECOND
  const MAX_TTL_CEILING := 7 * 24 * 3600 * SECOND

  const MIN_TEMPLATE_LEN := 10
  const MAX_TEMPLATE_LEN := 8 * 1024

  /** ValidateConfigName. */
  predicate ValidConfigName(name: string) {
    && 0 < |name| <= 63
    && forall i | 0 <= i < |name| :: LowerOrDigit(name[i]) || (name[i] == '-' && 0 < i < |name| - 1)
  }

  /** validateTemplate: the shape every template has to have, with the statement it must hold. */
  predicate ValidTemplate(sql: string, verb: string) {
    var trimmed := TrimSpace(sql);
    && MIN_TEMPLATE_LEN <= |trimmed| <= MAX_TEMPLATE_LEN
    && Contains(ToLower(trimmed), verb) && Contains(trimmed, NAME) && '\0' !in trimmed
  }

  /** The ceiling on a request, clamped whatever the stored row says. */
  function Ceiling(defaultTtl: int, maxTtl: int): int {
    var ceiling := if maxTtl <= 0 then StandardTTL(defaultTtl) else maxTtl;
    if ceiling > MAX_TTL_CEILING then MAX_TTL_CEILING else ceiling
  }

  function StandardTTL(defaultTtl: int): int {
    var standard := if defaultTtl <= 0 then DEFAULT_TTL else defaultTtl;
    if standard > MAX_TTL_CEILING then MAX_TTL_CEILING else standard
  }

  /**
    No stored row, validated or not, is ever granted more than the hard ceiling; a
    positive request is granted as asked or refused, never changed; and one that names
    no lifetime gets the row's own. A row whose limits are valid grants exactly the
    requests from a minute up to its maximum, and any row those its first limit allows.
  */
  function ResolveTTL(defaultTtl: int, maxTtl: int, requested: int): (r: Result<int, AppError>)
    ensures r.Ok? ==> 0 < r.value <= MAX_TTL_CEILING
    ensures r.Ok? && requested > 0 ==> r.value == requested >= MIN_TTL
    ensures requested <= 0 && 0 < defaultTtl <= MAX_TTL_CEILING ==> r == Ok(defaultTtl)
    ensures requested <= 0 && defaultTtl <= 0 ==> r == Ok(DEFAULT_TTL)
    ensures requested <= 0 && defaultTtl > MAX_TTL_CEILING ==> r == Ok(MAX_TTL_CEILING)
    ensures requested > 0 ==>
      var limit := if maxTtl > 0 then maxTtl else if defaultTtl > 0 then defaultTtl else DEFAULT_TTL;
      r.Ok? <==> MIN_TTL <= requested <= MAX_TTL_CEILING && requested <= limit
    ensures r.Err? ==> r.error == Validation
    ensures MIN_TTL <= defaultTtl <= maxTtl <= MAX_TTL_CEILING ==>
      && (r.Ok? <==> requested <= 0 || MIN_TTL <= requested <= maxTtl)
      && (r.Ok? ==> MIN_TTL <= r.value <= maxTtl)
  {
    if requested <= 0 then Ok(StandardTTL(defaultTtl))
    else if requested < MIN_TTL || requested > Ceiling(defaultTtl, maxTtl) then Err(Validation)
    else Ok(requested)
  }

  ghost predicate ValidFields(
    name: string, creationSql: string, revocationSql: string, defaultTtl: int, maxTtl: int, prefix: string) {
    && ValidConfigName(name) && prefix != "" && ValidPrefix(prefix)
    && MIN_TTL <= defaultTtl <= maxTtl <= MAX_TTL_CEILING
    && ValidTemplate(creationSql, "create role") && ValidTemplate(revocationSql, "drop role")
    && Contains(creationSql, PASSWORD) && !Contains(revocationSql, PASSWORD)
    && SqlLiteral.Accepted(creationSql)
  }

  class Config {
    var name: string
    var creationSql: string
    var revocationSql: string
    var defaultTtl: int
    var maxTtl: int
    var roleNamePrefix: string

    constructor (
      name: string, creationSql: string, revocationSql: string, defaultTtl: int, maxTtl: int, roleNamePrefix: string)
      ensures this.name == name && this.creationSql == creationSql && this.revocationSql == revocationSql
      ensures this.defaultTtl == defaultTtl && this.maxTtl == maxTtl && this.roleNamePrefix == roleNamePrefix
    {
      this.name, this.creationSql, this.revocationSql := name, creationSql, revocationSql;
      this.defaultTtl, this.maxTtl, this.roleNamePrefix := defaultTtl, maxTtl, roleNamePrefix;
    }

    /** What a stored configuration has. */
    ghost predicate Valid() reads this {
      ValidFields(name, creationSql, revocationSql, defaultTtl, maxTtl, roleNamePrefix)
    }

    /** The configuration would be valid once its defaults are filled in. */
    ghost predicate Acceptable() reads this {
      var standard := if defaultTtl <= 0 then DEFAULT_TTL else defaultTtl;
      ValidFields(name, creationSql, revocationSql, standard, if maxTtl <= 0 then standard else maxTtl,
                  if roleNamePrefix == "" then DEFAULT_PREFIX else roleNamePrefix)
    }

    /** Validate: accepts exactly what is valid with its defaults, and fills those in. */
    method Validate() returns (r: Result<(), AppError>)
      modifies this
      ensures r.Ok? <==> old(Acceptable())
      ensures r.Err? ==> r.error == Validation
      ensures r.Ok? ==> Valid()
      ensures name == old(name) && creationSql == old(creationSql) && revocationSql == old(revocationSql)
      ensures r.Ok? ==>
        && roleNamePrefix == (if old(roleNamePrefix) == "" then DEFAULT_PREFIX else old(roleNamePrefix))
        && defaultTtl == (if old(defaultTtl) <= 0 then DEFAULT_TTL else old(defaultTtl))
        && maxTtl == (if old(maxTtl) <= 0 then defaultTtl else old(maxTtl))
    {
      if !ValidConfigName(name) {
        return Err(Validation);
      }
      if roleNamePrefix == "" {
        roleNamePrefix := DEFAULT_PREFIX;
      }
      if !ValidPrefix(roleNamePrefix) {
        return Err(Validation);
      }
      if defaultTtl <= 0 {
        defaultTtl := DEFAULT_TTL;
      }
      if defaultTtl < MIN_TTL {
        return Err(Validation);
      }
      if maxTtl <= 0 {
        maxTtl := defaultTtl;
      }
      if maxTtl < defaultTtl || maxTtl > MAX_TTL_CEILING {
        return Err(Validation);
      }
      if !ValidTemplate(creationSql, "create role") || !ValidTemplate(revocationSql, "drop role") {
        return Err(Validation);
      }
      if !Contains(creationSql, PASSWORD) {
        return Err(Validation);
      }
      var unquoted := SqlLiteral.RefuseQuotedPlaceholder(creationSql);
      if !unquoted {
        return Err(Validation);
      }
      if Contains(revocationSql, PASSWORD) {
        return Err(Validation);
      }
      r := Ok(());
    }
  }

  lemma {:induction false} SameLengths(t: string, v: Values, w: Values)
    requires |v.name| == |w.name| && |v.password| == |w.password| && |v.expiration| == |w.expiration|
    ensures |Substitute(t, v)| == |Substitute(t, w)|
    decreases |t|
  {
    if t != "" {
      SqlLiteral.LeadStep(t, v);
      SqlLiteral.LeadStep(t, w);
      SameLengths(t[SqlLiteral.Lead(t)..], v, w);
    }
  }

  function ValueOf(p: string, v: Values): string {
    if p == NAME then v.name else if p == PASSWORD then v.password else v.expiration
  }

  /** A value a placeholder stands for can be read off the text: what it is tells two texts apart. */
  lemma {:induction false} ValueShows(t: string, p: string, v: Values, w: Values)
    requires Placeholder(p) && Contains(t, p)
    requires |v.name| == |w.name| && |v.password| == |w.password| && |v.expiration| == |w.expiration|
    requires Substitute(t, v) == Substitute(t, w)
    ensures ValueOf(p, v) == ValueOf(p, w)
  {
    var k := Index(t, p);
    var before, after := t[..k], t[k + |p|..];
    assert t == before + (p + after);
    ValueStands(before, p, after, v);
    ValueStands(before, p, after, w);
    SameLengths(before, v, w);
    var n := |Substitute(before, v)|;
    assert ValueOf(p, v) == Substitute(t, v)[n..n + |ValueOf(p, v)|];
    assert ValueOf(p, w) == Substitute(t, w)[n..n + |ValueOf(p, w)|];
  }

  lemma {:induction false} ValueStands(before: string, p: string, after: string, v: Values)
    requires Placeholder(p)
    ensures Substitute(before + (p + after), v) == Substitute(before, v) + (ValueOf(p, v) + Substitute(after, v))
  {
    SqlLiteral.SubstituteSplits(before, p, after, v);
    var t := p + after;
    assert t[|p|..] == after && t[..|p|] == p && t[2] == p[2];
    assert p <= t;
    assert p != NAME ==> !(NAME <= t) by {
      assert NAME[2] == 'n' && p[2] == if p == PASSWORD then 'p' else if p == NAME then 'n' else 'e';
    }
    assert p == EXPIRATION ==> !(PASSWORD <= t) by {
      assert PASSWORD[2] == 'p';
    }
    assert SqlLiteral.Lead(t) == |p|;
    SqlLiteral.LeadStep(t, v);
  }

  /**
    The statements of a validated configuration are about the account they are rendered
    for: for two generated role names of one length both differ, and the creation differs
    for any two passwords of one length without quotes, so that the account gets the
    password that is handed out and no other.
  */
  lemma StatementsTellAccounts(
    config: Config, roleName: string, other: string, p: string, q: string, expiration: string)
    requires config.Valid() && Instant(expiration) && |roleName| == |other| && |p| == |q|
    requires ValidRoleName(roleName) && '_' in roleName && ValidRoleName(other) && '_' in other
    requires Redaction.QuoteFree(p) && Redaction.QuoteFree(q)
    ensures Render(config.creationSql, roleName, p, expiration) == Render(config.creationSql, other, q, expiration)
      <==> roleName == other && p == q
    ensures Render(config.revocationSql, roleName, p, expiration) == Render(config.revocationSql, other, q, expiration)
      <==> roleName == other
  {
    var v, w := Literals(roleName, p, expiration), Literals(other, q, expiration);
    BothSimultaneous(config.creationSql, roleName, other, p, q, expiration);
    BothSimultaneous(config.revocationSql, roleName, other, p, q, expiration);
    Redaction.QuoteFreeLiteral(p);
    Redaction.QuoteFreeLiteral(q);
    NamesItsRole(config.creationSql, "create role");
    NamesItsRole(config.revocationSql, "drop role");
    if Substitute(config.creationSql, v) == Substitute(config.creationSql, w) {
      ValueShows(config.creationSql, NAME, v, w);
      ValueShows(config.creationSql, PASSWORD, v, w);
      assert v.password[1..|p| + 1] == p && w.password[1..|q| + 1] == q;
    }
    if Substitute(config.revocationSql, v) == Substitute(config.revocationSql, w) {
      ValueShows(config.revocationSql, NAME, v, w);
    }
    if roleName == other {
      RevocationNeedsNoPassword(config, roleName, p, q, expiration);
    }
  }

  lemma BothSimultaneous(t: string, roleName: string, other: string, p: string, q: string, expiration: string)
    requires ValidRoleName(roleName) && '_' in roleName && ValidRoleName(other) && '_' in other && Instant(expiration)
    ensures Render(t, roleName, p, expiration) == Ok(Substitute(t, Literals(roleName, p, expiration)))
    ensures Render(t, other, q, expiration) == Ok(Substitute(t, Literals(other, q, expiration)))
  {
    UnderscoreIsNoPiece(roleName);
    UnderscoreIsNoPiece(other);
    RenderIsSimultaneous(t, roleName, p, expiration);
    RenderIsSimultaneous(t, other, q, expiration);
  }

  lemma {:induction false} NamesItsRole(sql: string, verb: string)
    requires ValidTemplate(sql, verb)
    ensures Contains(sql, NAME)
  {
    var at := TrimmedPart(sql);
    PartContains(sql, at, |TrimSpace(sql)|, NAME);
  }

  lemma {:induction false} PartContains(s: string, at: nat, n: nat, part: string)
    requires at + n <= |s| && Contains(s[at..at + n], part)
    ensures Contains(s, part)
  {
    var k := Index(s[at..at + n], part);
    assert s[at..at + n][k..] <= s[at + k..];
    IndexIsFirst(s, part);
  }

  /** What is left of a trimmed text is a part of it. */
  lemma {:induction false} TrimmedPart(s: string) returns (at: nat)
    ensures at + |TrimSpace(s)| <= |s| && s[at..at + |TrimSpace(s)|] == TrimSpace(s)
    decreases |s|
  {
    at := 0;
    if s != "" && Blank(s[0]) {
      at := TrimmedPart(s[1..]);
      assert s[1..][at..at + |TrimSpace(s)|] == s[at + 1..at + 1 + |TrimSpace(s)|];
      at := at + 1;
    } else if s != "" && Blank(s[|s| - 1]) {
      at := TrimmedPart(s[..|s| - 1]);
      assert s[..|s| - 1][at..at + |TrimSpace(s)|] == s[at..at + |TrimSpace(s)|];
    }
  }

  lemma {:induction false} PasswordUnused(t: string, v: Values, w: Values)
    requires v.name == w.name && v.expiration == w.expiration
    requires forall k | 0 <= k <= |t| :: !(PASSWORD <= t[k..])
    ensures Substitute(t, v) == Substitute(t, w)
    decreases |t|
  {
    if t != "" {
      assert t[0..] == t;
      var n := SqlLiteral.Lead(t);
      SqlLiteral.LeadStep(t, v);
      SqlLiteral.LeadStep(t, w);
      assert t[..n] != PASSWORD by {
        assert !(PASSWORD <= t[0..]);
      }
      forall k | 0 <= k <= |t[n..]| ensures !(PASSWORD <= t[n..][k..]) {
        assert t[n..][k..] == t[n + k..];
      }
      PasswordUnused(t[n..], v, w);
    }
  }

  /**
    A validated revocation template needs no password: with a generated role name it
    renders to the same statement whatever is passed for one, so that a lease can be
    revoked although the password was never stored.
  */
  lemma RevocationNeedsNoPassword(config: Config, roleName: string, p: string, q: string, expiration: string)
    requires config.Valid() && ValidRoleName(roleName) && '_' in roleName && Instant(expiration)
    ensures Render(config.revocationSql, roleName, p, expiration) ==
      Render(config.revocationSql, roleName, q, expiration)
    ensures Render(config.revocationSql, roleName, p, expiration).Ok?
  {
    UnderscoreIsNoPiece(roleName);
    RenderIsSimultaneous(config.revocationSql, roleName, p, expiration);
    RenderIsSimultaneous(config.revocationSql, roleName, q, expiration);
    IndexIsFirst(config.revocationSql, PASSWORD);
    PasswordUnused(config.revocationSql, Literals(roleName, p, expiration), Literals(roleName, q, expiration));
  }
}
