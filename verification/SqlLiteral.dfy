/**
  The literals a template's values are put in as, and the write-time check on quoted
  placeholders (internal/dynamic/dynamic.go).
*/
module SqlLiteral {
  import opened Results
  import opened Text
  import opened SqlTemplate

  // ---------------------------------------------------------------------------
  // Quoting, one character at a time
  // ---------------------------------------------------------------------------

  /** A character of a value as it stands inside a literal. */
  function DoubledChar(c: char): string {
    if c == '\'' then "''" else [c]
  }

  lemma {:induction false} DoubledStep(v: string)
    requires v != ""
    ensures ReplaceAll(v, "'", "''") == DoubledChar(v[0]) + ReplaceAll(v[1..], "'", "''")
  {
    assert "'" <= v <==> v[0] == '\'';
    assert v[|"'"|..] == v[1..];
  }

  // ---------------------------------------------------------------------------
  // A rendering around one placeholder
  // ---------------------------------------------------------------------------

  /** Text in which every placeholder is replaced, split where a placeholder begins. */
  lemma {:induction false} SubstituteSplits(before: string, p: string, after: string, v: Values)
    requires Placeholder(p)
    ensures Substitute(before + (p + after), v) == Substitute(before, v) + Substitute(p + after, v)
    decreases |before|
  {
    var t := before + (p + after);
    if before == "" {
      assert t == p + after;
    } else {
      SubstituteSplits(before[Lead(before)..], p, after, v);
      SplitsOneStepOn(before, p, after, v);
    }
  }

  lemma {:induction false} SplitsOneStepOn(before: string, p: string, after: string, v: Values)
    requires Placeholder(p) && before != ""
    requires var rest := before[Lead(before)..];
             Substitute(rest + (p + after), v) == Substitute(rest, v) + Substitute(p + after, v)
    ensures Substitute(before + (p + after), v) == Substitute(before, v) + Substitute(p + after, v)
  {
    var k := Lead(before);
    SameLead(before, p, after);
    LeadStep(before + (p + after), v);
    LeadStep(before, v);
    Associates(LeadValue(before[..k], v), Substitute(before[k..], v), Substitute(p + after, v));
  }

  lemma Associates(x: string, y: string, z: string)
    ensures x + (y + z) == (x + y) + z
  {
  }

  /** How much of a template its first substitution step reads. */
  function Lead(t: string): (k: nat)
    requires t != ""
    ensures 0 < k <= |t|
  {
    if NAME <= t then |NAME| else if PASSWORD <= t then |PASSWORD| else if EXPIRATION <= t then |EXPIRATION| else 1
  }

  function LeadValue(lead: string, v: Values): string {
    if lead == NAME then v.name
    else if lead == PASSWORD then v.password
    else if lead == EXPIRATION then v.expiration
    else lead
  }

  lemma {:induction false} LeadStep(t: string, v: Values)
    requires t != ""
    ensures Substitute(t, v) == LeadValue(t[..Lead(t)], v) + Substitute(t[Lead(t)..], v)
  {
  }

  lemma SameLead(before: string, p: string, after: string)
    requires Placeholder(p) && before != ""
    ensures Lead(before + (p + after)) == Lead(before)
    ensures (before + (p + after))[..Lead(before)] == before[..Lead(before)]
    ensures (before + (p + after))[Lead(before)..] == before[Lead(before)..] + (p + after)
  {
    NoneStraddles(before, p, after, NAME);
    NoneStraddles(before, p, after, PASSWORD);
    NoneStraddles(before, p, after, EXPIRATION);
  }

  /** A placeholder that begins before `p` ends before `p`. */
  lemma NoneStraddles(before: string, p: string, after: string, q: string)
    requires Placeholder(p) && Placeholder(q) && before != ""
    ensures q <= before + (p + after) <==> q <= before
  {
    var t := before + (p + after);
    if |before| == 1 {
      assert t[2] == p[1] != q[2];
    } else if |before| < |q| {
      assert t[|before|] == p[0] != q[|before|];
    }
  }

  // ---------------------------------------------------------------------------
  // refuseQuotedPlaceholder
  // ---------------------------------------------------------------------------

  /** The placeholder `p` stands at `at`, and one of its neighbours is a quote. */
  predicate QuotedAt(sql: string, p: string, at: nat) {
    && at <= |sql| && p <= sql[at..]
    && ((at > 0 && sql[at - 1] == '\'') || (at + |p| < |sql| && sql[at + |p|] == '\''))
  }

  lemma OccurrencesDoNotOverlap(sql: string, p: string, i: nat, j: nat)
    requires Placeholder(p) && i < j < i + |p| && j <= |sql| && i <= |sql|
    requires p <= sql[i..]
    ensures !(p <= sql[j..])
  {
    if j + 1 < |sql| && |sql[j..]| >= |p| {
      assert sql[j] == p[j - i];
      if j == i + 1 {
        assert sql[j..][1] == sql[j + 1] == p[2] != p[1];
      } else {
        assert sql[j..][0] == p[j - i] != p[0];
      }
    }
  }

  /** No occurrence of `p` before position `i` touches a quote. */
  ghost predicate NoneQuoted(sql: string, p: string, i: nat) {
    forall at: nat | at < i :: !QuotedAt(sql, p, at)
  }

  /** What a search that starts at `i` tells about positions of the whole text. */
  lemma IndexFrom(sql: string, i: nat, p: string)
    requires i <= |sql| && NoneQuoted(sql, p, i)
    ensures var idx := Index(sql[i..], p);
            if idx < 0 then NoneQuoted(sql, p, |sql| + 1)
            else i + idx + |p| <= |sql| && p <= sql[i + idx..] && NoneQuoted(sql, p, i + idx)
  {
    IndexIsFirst(sql[i..], p);
    forall k | i <= k <= |sql| ensures sql[k..] == sql[i..][k - i..] {}
  }

  /** An occurrence that touches no quote can be stepped over. */
  lemma StepOver(sql: string, at: nat, p: string)
    requires Placeholder(p) && at + |p| <= |sql| && p <= sql[at..]
    requires NoneQuoted(sql, p, at) && !QuotedAt(sql, p, at)
    ensures NoneQuoted(sql, p, at + |p|)
  {
    forall k: nat | at < k < at + |p| ensures !QuotedAt(sql, p, k) {
      OccurrencesDoNotOverlap(sql, p, at, k);
    }
  }

  /** The inner loop of refuseQuotedPlaceholder. */
  method RefuseQuoted(sql: string, p: string) returns (refused: bool)
    requires Placeholder(p)
    ensures refused <==> !NoneQuoted(sql, p, |sql| + 1)
  {
    var i := 0;
    while true
      invariant 0 <= i <= |sql| && NoneQuoted(sql, p, i)
      decreases |sql| - i
    {
      var idx := Index(sql[i..], p);
      IndexFrom(sql, i, p);
      if idx < 0 {
        return false;
      }
      var at := i + idx;
      var before := at > 0 && sql[at - 1] == '\'';
      var afterAt := at + |p|;
      var after := afterAt < |sql| && sql[afterAt] == '\'';
      if before || after {
        assert QuotedAt(sql, p, at);
        return true;
      }
      StepOver(sql, at, p);
      i := afterAt;
    }
  }

  /** A template whose placeholders touch no quote. */
  ghost predicate Accepted(sql: string) {
    forall p, at | (p == PASSWORD || p == EXPIRATION) && 0 <= at <= |sql| :: !QuotedAt(sql, p, at)
  }

  predicate TouchesQuote(before: string, after: string) {
    || (before != "" && before[|before| - 1] == '\'')
    || (after != "" && after[0] == '\'')
  }

  /** However a template is cut at such a placeholder, no quote stands at the cut, before it or after it. */
  lemma AcceptedIff(sql: string)
    ensures Accepted(sql) <==>
      forall before, p, after | (p == PASSWORD || p == EXPIRATION) && sql == before + (p + after) ::
        !TouchesQuote(before, after)
  {
    forall before, p, after | (p == PASSWORD || p == EXPIRATION) && sql == before + (p + after)
      ensures TouchesQuote(before, after) <==> QuotedAt(sql, p, |before|)
    {
      assert sql[|before|..] == p + after && p <= p + after;
      assert after != "" ==> sql[|before| + |p|] == after[0];
    }
    if !Accepted(sql) {
      var p, at :| (p == PASSWORD || p == EXPIRATION) && 0 <= at <= |sql| && QuotedAt(sql, p, at);
      assert sql == sql[..at] + (p + sql[at + |p|..]);
    }
  }

  /** refuseQuotedPlaceholder: no placeholder that becomes a literal may touch a quote. */
  method RefuseQuotedPlaceholder(sql: string) returns (ok: bool)
    ensures ok <==> Accepted(sql)
  {
    for n := 0 to 2
      invariant n > 0 ==> forall at | 0 <= at <= |sql| :: !QuotedAt(sql, PASSWORD, at)
      invariant n > 1 ==> forall at | 0 <= at <= |sql| :: !QuotedAt(sql, EXPIRATION, at)
    {
      var p := if n == 0 then PASSWORD else EXPIRATION;
      var refused := RefuseQuoted(sql, p);
      if refused {
        return false;
      }
    }
    ok := true;
  }
}
