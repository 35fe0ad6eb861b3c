/**
  Redaction of quoted runs in database errors (internal/dynamic/provisioner.go),
  and what it keeps secret about a rendered statement.
*/
module Redaction {
  import opened Results
  import opened Text
  import opened SqlTemplate
  import opened SqlLiteral

  const MARKER := "[REDACTED]"

  /** What an elided run renders as between two visible pieces. */
  const RUN := "'" + MARKER + "'"

  /** The scrubber's output for the rest of a message, by the side of a quote it is on. */
  function ScrubFrom(msg: string, inLiteral: bool): string {
    if msg == "" then (if inLiteral then "'" else "")
    else if msg[0] == '\'' then
      (if inLiteral then "'" else "'" + MARKER) + ScrubFrom(msg[1..], !inLiteral)
    else
      (if inLiteral then "" else [msg[0]]) + ScrubFrom(msg[1..], inLiteral)
  }

  function Scrub(msg: string): string {
    ScrubFrom(msg, false)
  }

  /** scrubbed: the byte loop with its early exit for a message without quotes. */
  method Scrubbed(msg: string) returns (b: string)
    ensures b == Scrub(msg)
  {
    if !Contains(msg, "'") {
      NothingToScrub(msg);
      return msg;
    }
    b := "";
    var inLiteral := false;
    for i := 0 to |msg|
      invariant b + ScrubFrom(msg[i..], inLiteral) == Scrub(msg)
    {
      assert msg[i..][1..] == msg[i + 1..];
      ghost var rest := ScrubFrom(msg[i + 1..], if msg[i] == '\'' then !inLiteral else inLiteral);
      ghost var b0 := b;
      if msg[i] == '\'' {
        b := b + "'";
        if !inLiteral {
          b := b + MARKER;
          assert b + rest == b0 + (("'" + MARKER) + rest);
        }
        inLiteral := !inLiteral;
      } else if !inLiteral {
        b := b + [msg[i]];
      } else {
        assert "" + rest == rest;
      }
      assert b + rest == b0 + ScrubFrom(msg[i..], if msg[i] == '\'' then !inLiteral else inLiteral);
    }
    assert msg[|msg|..] == "";
    if inLiteral {
      b := b + "'";
    }
  }

  lemma {:induction false} NothingToScrub(msg: string)
    requires !Contains(msg, "'")
    ensures Scrub(msg) == msg
    decreases |msg|
  {
    if msg != "" {
      IndexIsFirst(msg, "'");
      assert msg[0..] == msg;
      assert !("'" <= msg) && msg[0] != '\'';
      forall k | 0 <= k <= |msg[1..]| ensures !("'" <= msg[1..][k..]) {
        assert msg[1..][k..] == msg[k + 1..];
      }
      NothingToScrub(msg[1..]);
    }
  }

  // ---------------------------------------------------------------------------
  // What the output depends on
  // ---------------------------------------------------------------------------

  /** The visible pieces of a message: the text outside the quoted runs, in order. */
  function Visible(msg: string, inLiteral: bool): (pieces: seq<string>)
    ensures pieces != []
    ensures forall k | 0 <= k < |pieces| :: '\'' !in pieces[k]
  {
    if msg == "" then [""]
    else if msg[0] == '\'' then
      if inLiteral then Visible(msg[1..], false) else [""] + Visible(msg[1..], true)
    else
      var pieces := Visible(msg[1..], inLiteral);
      if inLiteral then pieces else [[msg[0]] + pieces[0]] + pieces[1..]
  }

  /** The pieces with an elided run between each two of them. */
  function Joined(pieces: seq<string>): string
    requires pieces != []
  {
    if |pieces| == 1 then pieces[0] else pieces[0] + RUN + Joined(pieces[1..])
  }

  lemma {:induction false} ScrubJoinsVisible(msg: string, inLiteral: bool)
    ensures ScrubFrom(msg, inLiteral) == (if inLiteral then "'" else "") + Joined(Visible(msg, inLiteral))
    decreases |msg|
  {
    if msg != "" {
      ScrubJoinsVisible(msg[1..], if msg[0] == '\'' then !inLiteral else inLiteral);
      if msg[0] == '\'' && !inLiteral {
        JoinedOpens(Visible(msg[1..], true));
      } else if msg[0] != '\'' && !inLiteral {
        JoinedGrows(msg[0], Visible(msg[1..], false));
      }
    }
  }

  lemma JoinedOpens(rest: seq<string>)
    requires rest != []
    ensures "'" + MARKER + ("'" + Joined(rest)) == Joined([""] + rest)
  {
    assert ([""] + rest)[1..] == rest;
    assert "'" + MARKER + ("'" + Joined(rest)) == "" + RUN + Joined(rest);
  }

  lemma JoinedGrows(c: char, pieces: seq<string>)
    requires pieces != []
    ensures [c] + Joined(pieces) == Joined([[c] + pieces[0]] + pieces[1..])
  {
    assert ([[c] + pieces[0]] + pieces[1..])[1..] == pieces[1..];
    if |pieces| > 1 {
      assert [c] + (pieces[0] + RUN + Joined(pieces[1..])) == ([c] + pieces[0]) + RUN + Joined(pieces[1..]);
    }
  }

  /** Joined pieces fall apart again in only one way, since no piece contains a quote. */
  lemma {:induction false} JoinedInjective(a: seq<string>, b: seq<string>)
    requires a != [] && b != []
    requires forall k | 0 <= k < |a| :: '\'' !in a[k]
    requires forall k | 0 <= k < |b| :: '\'' !in b[k]
    requires Joined(a) == Joined(b)
    ensures a == b
    decreases |a|
  {
    var x := Joined(a);
    HeadEnds(a);
    HeadEnds(b);
    SameHead(a[0], b[0], x);
    if |a| > 1 {
      assert Joined(a[1..]) == x[|a[0]| + |RUN|..];
      assert Joined(b[1..]) == x[|b[0]| + |RUN|..];
      JoinedInjective(a[1..], b[1..]);
      assert a == [a[0]] + a[1..] && b == [b[0]] + b[1..];
    }
  }

  /** `head` is the part of `x` before its first quote. */
  predicate UpToQuote(head: string, x: string) {
    head <= x && '\'' !in head && (|head| < |x| ==> x[|head|] == '\'')
  }

  lemma {:induction false} HeadEnds(a: seq<string>)
    requires a != [] && '\'' !in a[0]
    ensures UpToQuote(a[0], Joined(a)) && (|a| == 1 <==> Joined(a) == a[0])
  {
    if |a| > 1 {
      assert Joined(a) == a[0] + (RUN + Joined(a[1..]));
      assert Joined(a)[|a[0]|] == RUN[0];
    }
  }

  lemma SameHead(h: string, k: string, x: string)
    requires UpToQuote(h, x) && UpToQuote(k, x)
    ensures h == k
  {
    assert forall i | 0 <= i < |h| :: x[i] == h[i] != '\'';
    assert forall i | 0 <= i < |k| :: x[i] == k[i] != '\'';
    assert h == x[..|h|] && k == x[..|k|];
  }

  /** The output tells apart exactly the messages whose visible pieces differ. */
  lemma {:induction false} ScrubEqualIff(m: string, n: string)
    ensures Scrub(m) == Scrub(n) <==> Visible(m, false) == Visible(n, false)
  {
    ScrubJoinsVisible(m, false);
    ScrubJoinsVisible(n, false);
    assert "" + Joined(Visible(m, false)) == Joined(Visible(m, false));
    assert "" + Joined(Visible(n, false)) == Joined(Visible(n, false));
    if Scrub(m) == Scrub(n) {
      JoinedInjective(Visible(m, false), Visible(n, false));
    }
  }

  /** Scrubbing keeps the visible pieces. */
  lemma {:induction false} ScrubKeepsVisible(msg: string, inLiteral: bool)
    ensures Visible(ScrubFrom(msg, inLiteral), inLiteral) == Visible(msg, inLiteral)
    decreases |msg|
  {
    if msg == "" {
    } else {
      var tail := if msg[0] == '\'' then !inLiteral else inLiteral;
      ScrubKeepsVisible(msg[1..], tail);
      var out := ScrubFrom(msg[1..], tail);
      if msg[0] == '\'' && !inLiteral {
        MarkerIsElided(MARKER, out);
        assert ScrubFrom(msg, false) == "'" + (MARKER + out);
        assert ("'" + (MARKER + out))[1..] == MARKER + out;
      } else if inLiteral && msg[0] != '\'' {
        assert "" + out == out;
      } else {
        assert ScrubFrom(msg, inLiteral)[1..] == out;
      }
    }
  }

  lemma {:induction false} MarkerIsElided(run: string, rest: string)
    requires '\'' !in run
    ensures Visible(run + rest, true) == Visible(rest, true)
    decreases |run|
  {
    if run == "" {
      assert run + rest == rest;
    } else {
      assert (run + rest)[1..] == run[1..] + rest;
      MarkerIsElided(run[1..], rest);
    }
  }

  lemma ScrubIdempotent(msg: string)
    ensures Scrub(Scrub(msg)) == Scrub(msg)
  {
    ScrubKeepsVisible(msg, false);
    ScrubEqualIff(Scrub(msg), msg);
  }

  // ---------------------------------------------------------------------------
  // The password in a rendered statement
  // ---------------------------------------------------------------------------

  function Quotes(s: string): nat {
    if s == "" then 0 else (if s[0] == '\'' then 1 else 0) + Quotes(s[1..])
  }

  /** Every password placeholder of the template sits outside its quoted runs. */
  predicate PasswordOutsideRuns(t: string, inLiteral: bool)
    decreases |t|
  {
    if t == "" then true
    else if NAME <= t then PasswordOutsideRuns(t[|NAME|..], inLiteral)
    else if PASSWORD <= t then !inLiteral && PasswordOutsideRuns(t[|PASSWORD|..], inLiteral)
    else if EXPIRATION <= t then PasswordOutsideRuns(t[|EXPIRATION|..], inLiteral)
    else PasswordOutsideRuns(t[1..], if t[0] == '\'' then !inLiteral else inLiteral)
  }

  /** A stretch with an even number of quotes leaves the scrubber on the side it was. */
  lemma {:induction false} EvenStretch(a: string, x: string, y: string, inLiteral: bool)
    ensures var after := if Quotes(a) % 2 == 0 then inLiteral else !inLiteral;
            ScrubFrom(a + x, inLiteral) == ScrubFrom(a + y, inLiteral) <==> ScrubFrom(x, after) == ScrubFrom(y, after)
    decreases |a|
  {
    if a == "" {
      assert a + x == x && a + y == y;
    } else {
      assert (a + x)[1..] == a[1..] + x && (a + y)[1..] == a[1..] + y;
      var next := if a[0] == '\'' then !inLiteral else inLiteral;
      EvenStretch(a[1..], x, y, next);
      var head := if a[0] == '\'' then (if inLiteral then "'" else "'" + MARKER)
        else (if inLiteral then "" else [a[0]]);
      SameHeadSameTail(head, ScrubFrom(a[1..] + x, next), ScrubFrom(a[1..] + y, next));
    }
  }

  lemma SameHeadSameTail(head: string, x: string, y: string)
    ensures head + x == head + y <==> x == y
  {
    assert (head + x)[|head|..] == x && (head + y)[|head|..] == y;
  }

  lemma {:induction false} LiteralQuotes(v: string)
    ensures Quotes(ReplaceAll(v, "'", "''")) == 2 * Quotes(v)
    decreases |v|
  {
    if v != "" {
      LiteralQuotes(v[1..]);
      DoubledStep(v);
      var d := ReplaceAll(v[1..], "'", "''");
      assert (DoubledChar(v[0]) + d)[1..] == (if v[0] == '\'' then "'" + d else d);
      if v[0] == '\'' {
        assert ("'" + d)[1..] == d;
      }
    }
  }

  lemma {:induction false} QuotesOfSum(a: string, b: string)
    ensures Quotes(a + b) == Quotes(a) + Quotes(b)
    decreases |a|
  {
    if a == "" {
      assert a + b == b;
    } else {
      assert (a + b)[1..] == a[1..] + b;
      QuotesOfSum(a[1..], b);
    }
  }

  lemma {:induction false} LiteralIsEven(v: string)
    ensures Quotes(QuoteLiteral(v)) == 2 * Quotes(v) + 2
  {
    LiteralQuotes(v);
    QuotesOfSum("'" + ReplaceAll(v, "'", "''"), "'");
    assert ("'" + ReplaceAll(v, "'", "''"))[1..] == ReplaceAll(v, "'", "''");
  }

  /** The elided runs one literal scrubs to: one, and one more per quote in the value. */
  function Runs(n: nat): string {
    if n == 0 then "" else RUN + Runs(n - 1)
  }

  lemma {:induction false} LiteralScrubs(v: string, rest: string)
    ensures ScrubFrom(ReplaceAll(v, "'", "''") + ("'" + rest), true) == "'" + (Runs(Quotes(v)) + ScrubFrom(rest, false))
    decreases |v|
  {
    if v == "" {
      assert ReplaceAll(v, "'", "''") + ("'" + rest) == "'" + rest;
      assert ("'" + rest)[1..] == rest;
      assert "" + ScrubFrom(rest, false) == ScrubFrom(rest, false);
    } else {
      LiteralScrubs(v[1..], rest);
      DoubledStep(v);
      var tail := ReplaceAll(v[1..], "'", "''") + ("'" + rest);
      assert ReplaceAll(v, "'", "''") + ("'" + rest) == DoubledChar(v[0]) + tail;
      DoubledCharScrubs(v[0], tail);
      if v[0] == '\'' {
        RunsAssociate(Runs(Quotes(v[1..])), ScrubFrom(rest, false));
      }
    }
  }

  lemma {:induction false} DoubledCharScrubs(c: char, tail: string)
    ensures ScrubFrom(DoubledChar(c) + tail, true)
         == if c == '\'' then "'" + (("'" + MARKER) + ScrubFrom(tail, true)) else ScrubFrom(tail, true)
  {
    var whole := DoubledChar(c) + tail;
    if c == '\'' {
      assert whole[1..] == "'" + tail && ("'" + tail)[1..] == tail;
    } else {
      assert whole[1..] == tail;
      assert "" + ScrubFrom(tail, true) == ScrubFrom(tail, true);
    }
  }

  lemma RunsAssociate(runs: string, rest: string)
    ensures ("'" + MARKER) + ("'" + (runs + rest)) == (RUN + runs) + rest
  {
  }

  lemma {:induction false} LiteralOutside(v: string, rest: string)
    ensures ScrubFrom(QuoteLiteral(v) + rest, false) == Runs(Quotes(v) + 1) + ScrubFrom(rest, false)
  {
    LiteralScrubs(v, rest);
    var inner := ReplaceAll(v, "'", "''") + ("'" + rest);
    assert QuoteLiteral(v) + rest == "'" + inner && ("'" + inner)[1..] == inner;
    RunsAssociate(Runs(Quotes(v)), ScrubFrom(rest, false));
  }

  /** Two renderings that differ only in their password, with nothing else shifting the quotes. */
  predicate DifferInPassword(v: Values, w: Values, p: string, q: string) {
    && v.name == w.name && v.expiration == w.expiration
    && '\'' !in v.name && Quotes(v.expiration) % 2 == 0
    && v.password == QuoteLiteral(p) && w.password == QuoteLiteral(q)
  }

  lemma {:induction false} SameQuotesScrubAlike(t: string, v: Values, w: Values, p: string, q: string, inLiteral: bool)
    requires DifferInPassword(v, w, p, q) && Quotes(p) == Quotes(q)
    requires PasswordOutsideRuns(t, inLiteral)
    ensures ScrubFrom(Substitute(t, v), inLiteral) == ScrubFrom(Substitute(t, w), inLiteral)
    decreases |t|
  {
    if t == "" {
    } else if NAME <= t {
      var rest := t[|NAME|..];
      SameQuotesScrubAlike(rest, v, w, p, q, inLiteral);
      NoQuotes(v.name);
      EvenStretch(v.name, Substitute(rest, v), Substitute(rest, w), inLiteral);
    } else if PASSWORD <= t {
      var rest := t[|PASSWORD|..];
      SameQuotesScrubAlike(rest, v, w, p, q, inLiteral);
      LiteralOutside(p, Substitute(rest, v));
      LiteralOutside(q, Substitute(rest, w));
    } else if EXPIRATION <= t {
      var rest := t[|EXPIRATION|..];
      SameQuotesScrubAlike(rest, v, w, p, q, inLiteral);
      EvenStretch(v.expiration, Substitute(rest, v), Substitute(rest, w), inLiteral);
    } else {
      SameQuotesScrubAlike(t[1..], v, w, p, q, if t[0] == '\'' then !inLiteral else inLiteral);
      OneChar(t[0], Substitute(t[1..], v), Substitute(t[1..], w), inLiteral);
    }
  }

  lemma {:induction false} OneChar(c: char, x: string, y: string, inLiteral: bool)
    ensures var next := if c == '\'' then !inLiteral else inLiteral;
            ScrubFrom([c] + x, inLiteral) == ScrubFrom([c] + y, inLiteral) <==> ScrubFrom(x, next) == ScrubFrom(y, next)
  {
    assert [c][1..] == "";
    EvenStretch([c], x, y, inLiteral);
  }

  lemma {:induction false} NoQuotes(s: string)
    requires '\'' !in s
    ensures Quotes(s) == 0
    decreases |s|
  {
    if s != "" {
      NoQuotes(s[1..]);
    }
  }

  /** The passwords that need no escaping; every generated one is such. */
  predicate QuoteFree(p: string) { '\'' !in p }

  lemma QuoteFreeLiteral(p: string)
    requires QuoteFree(p)
    ensures QuoteLiteral(p) == "'" + p + "'"
  {
    forall i | 0 <= i < |p| ensures !("'" <= (p + "")[i..]) {
      assert (p + "")[i..][0] == p[i];
    }
    ReplaceAllSkips(p, "", "'", "''");
    assert p + "" == p;
  }

  /** Inside a run, the literal of a quote-free password leaves the password itself in the open. */
  lemma {:induction false} ShownInside(p: string, rest: string)
    requires QuoteFree(p)
    ensures ScrubFrom(QuoteLiteral(p) + rest, true) == "'" + (p + ScrubFrom("'" + rest, false))
  {
    QuoteFreeLiteral(p);
    var tail := p + ("'" + rest);
    assert QuoteLiteral(p) + rest == "'" + tail && ("'" + tail)[1..] == tail;
    Copied(p, "'" + rest);
  }

  /** Outside the runs, text without a quote is copied. */
  lemma {:induction false} Copied(a: string, rest: string)
    requires QuoteFree(a)
    ensures ScrubFrom(a + rest, false) == a + ScrubFrom(rest, false)
    decreases |a|
  {
    if a == "" {
      assert a + rest == rest;
    } else {
      assert (a + rest)[1..] == a[1..] + rest;
      Copied(a[1..], rest);
    }
  }

  /** And a run without a quote in it is elided. */
  lemma {:induction false} Elided(run: string, rest: string)
    requires QuoteFree(run)
    ensures ScrubFrom("'" + (run + ("'" + rest)), false) == RUN + ScrubFrom(rest, false)
  {
    var s := run + ("'" + rest);
    assert ("'" + s)[1..] == s;
    RunElided(run, rest);
    assert ("'" + MARKER) + ("'" + ScrubFrom(rest, false)) == RUN + ScrubFrom(rest, false);
  }

  lemma {:induction false} RunElided(run: string, rest: string)
    requires QuoteFree(run)
    ensures ScrubFrom(run + ("'" + rest), true) == "'" + ScrubFrom(rest, false)
    decreases |run|
  {
    if run == "" {
      assert run + ("'" + rest) == "'" + rest && ("'" + rest)[1..] == rest;
    } else {
      assert (run + ("'" + rest))[1..] == run[1..] + ("'" + rest);
      RunElided(run[1..], rest);
    }
  }

  lemma {:induction false} PasswordTokenShows(p: string, q: string, x: string, y: string, inLiteral: bool)
    requires QuoteFree(p) && QuoteFree(q) && |p| == |q| && p != q
    requires inLiteral || ScrubFrom(x, false) != ScrubFrom(y, false)
    ensures ScrubFrom(QuoteLiteral(p) + x, inLiteral) != ScrubFrom(QuoteLiteral(q) + y, inLiteral)
  {
    if inLiteral {
      ShownInside(p, x);
      ShownInside(q, y);
      var a, b := "'" + (p + ScrubFrom("'" + x, false)), "'" + (q + ScrubFrom("'" + y, false));
      assert a[1..1 + |p|] == p && b[1..1 + |p|] == q;
    } else {
      LiteralOutside(p, x);
      LiteralOutside(q, y);
      NoQuotes(p);
      NoQuotes(q);
      SameHeadSameTail(Runs(1), ScrubFrom(x, false), ScrubFrom(y, false));
    }
  }

  /** A placeholder inside a quoted run tells any two such passwords of one length apart. */
  lemma {:induction false} PasswordInsideRunShows(
    t: string, v: Values, w: Values, p: string, q: string, inLiteral: bool)
    requires QuoteFree(p) && QuoteFree(q) && |p| == |q| && p != q
    requires DifferInPassword(v, w, p, q) && !PasswordOutsideRuns(t, inLiteral)
    ensures ScrubFrom(Substitute(t, v), inLiteral) != ScrubFrom(Substitute(t, w), inLiteral)
    decreases |t|
  {
    if t == "" {
    } else if NAME <= t {
      var rest := t[|NAME|..];
      PasswordInsideRunShows(rest, v, w, p, q, inLiteral);
      NoQuotes(v.name);
      EvenStretch(v.name, Substitute(rest, v), Substitute(rest, w), inLiteral);
    } else if PASSWORD <= t {
      var rest := t[|PASSWORD|..];
      if !inLiteral {
        PasswordInsideRunShows(rest, v, w, p, q, false);
      }
      PasswordTokenShows(p, q, Substitute(rest, v), Substitute(rest, w), inLiteral);
    } else if EXPIRATION <= t {
      var rest := t[|EXPIRATION|..];
      PasswordInsideRunShows(rest, v, w, p, q, inLiteral);
      EvenStretch(v.expiration, Substitute(rest, v), Substitute(rest, w), inLiteral);
    } else {
      PasswordInsideRunShows(t[1..], v, w, p, q, if t[0] == '\'' then !inLiteral else inLiteral);
      OneChar(t[0], Substitute(t[1..], v), Substitute(t[1..], w), inLiteral);
    }
  }

  const PASSWORD_LENGTH := 40

  /** A password NewPassword can return. */
  predicate Generated(p: string) {
    |p| == PASSWORD_LENGTH && forall i | 0 <= i < |p| :: 'A' <= p[i] <= 'Z' || LowerOrDigit(p[i])
  }

  function Shown(t: string, roleName: string, password: string, expiration: string): string {
    Scrub(Substitute(t, Literals(roleName, password, expiration)))
  }

  /** Two different quote-free passwords of one length are told apart exactly by a placeholder in a quoted run. */
  lemma {:induction false} ToldApartIff(t: string, roleName: string, p: string, q: string, expiration: string)
    requires ValidRoleName(roleName) && Instant(expiration)
    requires QuoteFree(p) && QuoteFree(q) && |p| == |q| && p != q
    ensures Shown(t, roleName, p, expiration) == Shown(t, roleName, q, expiration) <==> PasswordOutsideRuns(t, false)
  {
    var v, w := Literals(roleName, p, expiration), Literals(roleName, q, expiration);
    LiteralIsEven(expiration);
    NoQuotes(p);
    NoQuotes(q);
    if PasswordOutsideRuns(t, false) {
      SameQuotesScrubAlike(t, v, w, p, q, false);
    } else {
      PasswordInsideRunShows(t, v, w, p, q, false);
    }
  }

  /**
    Over rendered statements: with equal numbers of quotes two passwords cannot be
    told apart if no password placeholder sits in a quoted run of the template; and
    the scrubbed statement is the same for all the passwords the service generates if
    and only if none does. If one does, it differs for any two of them.
  */
  lemma {:induction false} RedactionHidesPasswordIff(t: string, roleName: string, expiration: string)
    requires ValidRoleName(roleName) && '_' in roleName && Instant(expiration)
    ensures forall p :: Render(t, roleName, p, expiration) == Ok(Substitute(t, Literals(roleName, p, expiration)))
    ensures PasswordOutsideRuns(t, false) ==>
      forall p, q | Quotes(p) == Quotes(q) :: Shown(t, roleName, p, expiration) == Shown(t, roleName, q, expiration)
    ensures (forall p, q | Generated(p) && Generated(q) ::
               Shown(t, roleName, p, expiration) == Shown(t, roleName, q, expiration))
            <==> PasswordOutsideRuns(t, false)
    ensures !PasswordOutsideRuns(t, false) ==>
      forall p, q | Generated(p) && Generated(q) && p != q ::
        Shown(t, roleName, p, expiration) != Shown(t, roleName, q, expiration)
  {
    UnderscoreIsNoPiece(roleName);
    forall p ensures Render(t, roleName, p, expiration) == Ok(Substitute(t, Literals(roleName, p, expiration))) {
      RenderIsSimultaneous(t, roleName, p, expiration);
    }
    LiteralIsEven(expiration);
    if PasswordOutsideRuns(t, false) {
      forall p, q | Quotes(p) == Quotes(q)
        ensures Shown(t, roleName, p, expiration) == Shown(t, roleName, q, expiration)
      {
        SameQuotesScrubAlike(t, Literals(roleName, p, expiration), Literals(roleName, q, expiration), p, q, false);
      }
    }
    forall p | Generated(p) ensures QuoteFree(p) && Quotes(p) == 0 {
      GeneratedIsQuoteFree(p);
    }
    forall p, q | Generated(p) && Generated(q) && p != q
      ensures Shown(t, roleName, p, expiration) == Shown(t, roleName, q, expiration) <==> PasswordOutsideRuns(t, false)
    {
      ToldApartIff(t, roleName, p, q, expiration);
    }
    TwoGenerated();
  }

  lemma {:induction false} GeneratedIsQuoteFree(p: string)
    requires Generated(p)
    ensures QuoteFree(p) && Quotes(p) == 0
  {
    forall i | 0 <= i < |p| ensures p[i] != '\'' {
      assert 'A' <= p[i] <= 'Z' || LowerOrDigit(p[i]);
    }
    NoQuotes(p);
  }

  lemma TwoGenerated()
    ensures exists p, q :: Generated(p) && Generated(q) && p != q
  {
    var p, q := seq(PASSWORD_LENGTH, i => 'a'), seq(PASSWORD_LENGTH, i => 'b');
    assert Generated(p) && Generated(q) && p[0] != q[0];
  }
}
