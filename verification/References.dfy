/**
  The reference resolver (internal/api/reference.go): expansion of
  ${project/environment/folder/KEY} placeholders with a cycle chain, a depth
  bound, a grant check and an audit row per hop; and the write-time check of
  reference values (internal/api/validation.go).
*/
module References {
  import opened Results
  import opened Text
  import opened Audit

  const OPEN := "${"
  const CLOSE := "}"

  // ---------------------------------------------------------------------------
  // Templates
  // ---------------------------------------------------------------------------

  /** A piece of a template. `Unterminated` stands for a placeholder that never closes. */
  datatype Piece = Literal(text: string) | Placeholder(address: string) | Unterminated

  /** A template read character by character: literal text, placeholder, literal text, and so on. */
  function Pieces(t: string): seq<Piece> {
    ReadText(t, "")
  }

  function ReadText(t: string, literal: string): (ps: seq<Piece>)
    decreases |t|
  {
    if t == "" then [Literal(literal)]
    else if OPEN <= t then ReadAddress(t[2..], literal, "")
    else ReadText(t[1..], literal + [t[0]])
  }

  function ReadAddress(t: string, literal: string, address: string): (ps: seq<Piece>)
    decreases |t|
  {
    if t == "" then [Unterminated]
    else if t[0] == '}' then [Literal(literal), Placeholder(address)] + ReadText(t[1..], "")
    else ReadAddress(t[1..], literal, address + [t[0]])
  }

  predicate Scans(t: string) {
    Unterminated !in Pieces(t)
  }

  /** The text a list of pieces is written as. */
  function Unparse(ps: seq<Piece>): string {
    if ps == [] then ""
    else
      (match ps[0]
       case Literal(text) => text
       case Placeholder(address) => OPEN + address + CLOSE
       case Unterminated => "")
      + Unparse(ps[1..])
  }

  predicate OpensNothing(s: string) {
    forall k | 0 <= k < |s| - 1 :: !(s[k] == '$' && s[k + 1] == '{')
  }

  /** Literals and placeholders in turn; literals open nothing, addresses close nothing. */
  predicate Canonical(ps: seq<Piece>) {
    && ps != [] && ps[0].Literal? && OpensNothing(ps[0].text)
    && (|ps| > 1 ==> |ps| > 2 && ps[1].Placeholder? && '}' !in ps[1].address && Canonical(ps[2..]))
  }

  /** Reading a template and writing it back gives the template, and the reading is canonical. */
  lemma UnparsePieces(t: string)
    requires Scans(t)
    ensures Unparse(Pieces(t)) == t && Canonical(Pieces(t))
  {
    UnparseText(t, "");
    assert "" + t == t;
  }

  function Head(t: string): string {
    if t == "" then "" else [t[0]]
  }

  lemma {:induction false} UnparseText(t: string, literal: string)
    requires Unterminated !in ReadText(t, literal)
    requires OpensNothing(literal + Head(t))
    ensures Unparse(ReadText(t, literal)) == literal + t && Canonical(ReadText(t, literal))
    decreases |t|
  {
    if t == "" {
      assert literal + "" == literal;
    } else if OPEN <= t {
      assert forall k | 0 <= k < |literal| :: (literal + [t[0]])[k] == literal[k];
      UnparseAddress(t[2..], literal, "");
      assert OPEN + "" + t[2..] == t;
    } else {
      var next := literal + [t[0]];
      assert next + t[1..] == literal + t;
      if t[1..] != "" {
        assert t[1..][0] == t[1];
        OneMoreOpensNothing(next, t[1]);
      } else {
        assert next + "" == next;
      }
      UnparseText(t[1..], next);
    }
  }

  lemma OneMoreOpensNothing(s: string, c: char)
    requires OpensNothing(s) && s != "" && !(s[|s| - 1] == '$' && c == '{')
    ensures OpensNothing(s + [c])
  {
    assert forall k | 0 <= k < |s| :: (s + [c])[k] == s[k];
  }

  lemma {:induction false} UnparseAddress(t: string, literal: string, address: string)
    requires Unterminated !in ReadAddress(t, literal, address)
    requires OpensNothing(literal) && '}' !in address
    ensures Unparse(ReadAddress(t, literal, address)) == literal + (OPEN + address + t)
    ensures Canonical(ReadAddress(t, literal, address))
    decreases |t|
  {
    if t == "" {
      assert false;
    } else if t[0] == '}' {
      var rest := ReadText(t[1..], "");
      var ps := [Literal(literal), Placeholder(address)] + rest;
      assert ps[2..] == rest && ps[1..][0] == Placeholder(address) && ps[1..][1..] == rest;
      forall p | p in rest ensures p != Unterminated {
        assert p in ps[2..];
      }
      UnparseText(t[1..], "");
      assert literal + ((OPEN + address + CLOSE) + ("" + t[1..])) == literal + (OPEN + address + t);
    } else {
      UnparseAddress(t[1..], literal, address + [t[0]]);
      assert OPEN + (address + [t[0]]) + t[1..] == OPEN + address + t;
    }
  }

  /** And writing canonical pieces and reading them gives the pieces: the reading is the only one. */
  lemma {:induction false} PiecesUnparse(ps: seq<Piece>)
    requires Canonical(ps)
    ensures Pieces(Unparse(ps)) == ps
    decreases |ps|
  {
    var literal := ps[0].text;
    if |ps| == 1 {
      assert ps[1..] == [] && ps == [Literal(literal)];
      assert literal + "" == literal && "" + literal == literal;
      SkipText(literal, "", "");
    } else {
      PiecesUnparse(ps[2..]);
      assert ps[1..][1..] == ps[2..];
      ReadOnePair(literal, ps[1].address, Unparse(ps[2..]));
      assert ps == [ps[0], ps[1]] + ps[2..];
    }
  }

  lemma ReadOnePair(literal: string, address: string, tail: string)
    requires OpensNothing(literal) && '}' !in address
    ensures Pieces(literal + ((OPEN + address + CLOSE) + tail)) ==
      [Literal(literal), Placeholder(address)] + Pieces(tail)
  {
    var closed := CLOSE + tail;
    var after := OPEN + (address + closed);
    assert (OPEN + address + CLOSE) + tail == after;
    SkipText(literal, after, "");
    assert "" + literal == literal && after[2..] == address + closed;
    SkipAddress(address, closed, literal, "");
    assert "" + address == address && closed[1..] == tail;
  }

  /** Text in front of the next placeholder, or of the end, becomes part of the literal. */
  lemma {:induction false} SkipText(a: string, rest: string, literal: string)
    requires OpensNothing(a) && (rest == "" || OPEN <= rest)
    ensures ReadText(a + rest, literal) == ReadText(rest, literal + a)
    decreases |a|
  {
    if a == "" {
      assert a + rest == rest && literal + a == literal;
    } else {
      var t := a + rest;
      assert t[1..] == a[1..] + rest && literal + a == (literal + [a[0]]) + a[1..];
      assert |a| > 1 ==> t[1] == a[1];
      assert |a| == 1 && rest != "" ==> t[1] == '$';
      SkipText(a[1..], rest, literal + [a[0]]);
    }
  }

  /** Text in front of the closing brace becomes part of the address. */
  lemma {:induction false} SkipAddress(a: string, rest: string, literal: string, address: string)
    requires '}' !in a
    ensures ReadAddress(a + rest, literal, address) == ReadAddress(rest, literal, address + a)
    decreases |a|
  {
    if a == "" {
      assert a + rest == rest && address + a == address;
    } else {
      assert (a + rest)[1..] == a[1..] + rest && address + a == (address + [a[0]]) + a[1..];
      SkipAddress(a[1..], rest, literal, address + [a[0]]);
    }
  }

  // The scanner's two searches, against that reading.

  lemma NoOpenLeft(t: string)
    requires Index(t, OPEN) < 0
    ensures Pieces(t) == [Literal(t)]
  {
    FreeOfOpen(t, |t|);
    assert t[..|t|] == t && t + "" == t && "" + t == t;
    SkipText(t, "", "");
  }

  lemma NoCloseLeft(t: string)
    requires Index(t, OPEN) >= 0 && Index(t[Index(t, OPEN)..], CLOSE) < 0
    ensures Unterminated in Pieces(t) && Pieces(t) == [Unterminated]
  {
    var start := Index(t, OPEN);
    OpenFound(t);
    var u := t[start..];
    IndexIsFirst(u, CLOSE);
    forall k | 0 <= k < |u[2..]| ensures u[2..][k] != '}' {
      assert !(CLOSE <= u[k + 2..]);
      assert u[k + 2..][0] == u[2..][k];
    }
    assert u[2..] + "" == u[2..];
    SkipAddress(u[2..], "", t[..start], "");
  }

  /** One placeholder cut out of a template. */
  lemma Cut(t: string)
    requires Index(t, OPEN) >= 0 && Index(t[Index(t, OPEN)..], CLOSE) >= 0
    ensures var start := Index(t, OPEN);
            var end := Index(t[start..], CLOSE);
            && end >= |OPEN|
            && Pieces(t) == [Literal(t[..start]), Placeholder(t[start + |OPEN|..start + end])]
               + Pieces(t[start + end + |CLOSE|..])
  {
    var start := Index(t, OPEN);
    var u := t[start..];
    OpenFound(t);
    AddressFound(u, t[..start]);
    var end := Index(u, CLOSE);
    assert u[2..end] == t[start + |OPEN|..start + end];
    assert u[end + 1..] == t[start + end + |CLOSE|..];
  }

  lemma {:induction false} AddressFound(u: string, literal: string)
    requires OPEN <= u && Index(u, CLOSE) >= 0
    ensures var end := Index(u, CLOSE);
            end >= |OPEN| && ReadAddress(u[2..], literal, "") ==
              [Literal(literal), Placeholder(u[2..end])] + Pieces(u[end + 1..])
  {
    var end := Index(u, CLOSE);
    assert u[end..][0] == '}' && u[0] == '$' && u[1] == '{';
    var address, rest := u[2..end], u[end..];
    assert u[2..] == address + rest;
    IndexIsFirst(u, CLOSE);
    forall k | 0 <= k < |address| ensures address[k] != '}' {
      assert !(CLOSE <= u[k + 2..]);
      assert u[k + 2..][0] == address[k];
    }
    SkipAddress(address, rest, literal, "");
    assert "" + address == address && rest[1..] == u[end + 1..];
  }

  lemma OpenFound(t: string)
    requires Index(t, OPEN) >= 0
    ensures var start := Index(t, OPEN); Pieces(t) == ReadAddress(t[start..][2..], t[..start], "")
  {
    var start := Index(t, OPEN);
    FreeOfOpen(t, start);
    assert t == t[..start] + t[start..] && "" + t[..start] == t[..start];
    SkipText(t[..start], t[start..], "");
  }

  /** In front of the first occurrence nothing opens. */
  lemma FreeOfOpen(t: string, n: nat)
    requires n <= |t| && (Index(t, OPEN) < 0 || n <= Index(t, OPEN))
    ensures OpensNothing(t[..n])
  {
    IndexIsFirst(t, OPEN);
    forall k | 0 <= k < n - 1 ensures !(t[..n][k] == '$' && t[..n][k + 1] == '{') {
      assert !(OPEN <= t[k..]);
      assert t[k..][0] == t[..n][k] && t[k..][1] == t[..n][k + 1];
    }
  }

  // ---------------------------------------------------------------------------
  // Addresses
  // ---------------------------------------------------------------------------

  datatype Address = Address(project: string, environment: string, folderPath: string, key: string)

  /** store.SplitReferencePath. */
  function SplitReferencePath(raw: string): Option<Address> {
    var parts := Split(TrimSlashes(TrimSpace(raw)));
    if |parts| < 3 then None
    else
      var middle := parts[2..|parts| - 1];
      Some(Address(parts[0], parts[1], if middle == [] then "/" else "/" + Join(middle), parts[|parts| - 1]))
  }

  /** Writing out the parts of an address and splitting it gives the parts back. */
  lemma {:induction false} SplitReferencePathFormats(
    project: string, environment: string, folders: seq<string>, key: string)
    requires forall part | part in [project, environment] + folders + [key] :: '/' !in part
    requires project != "" && !Blank(project[0]) && key != "" && !Blank(key[|key| - 1])
    ensures SplitReferencePath(Join([project, environment] + folders + [key]))
            == Some(Address(project, environment, if folders == [] then "/" else "/" + Join(folders), key))
  {
    var parts := [project, environment] + folders + [key];
    var raw := Join(parts);
    forall k | 0 <= k < |parts| ensures '/' !in parts[k] {
      assert parts[k] in parts;
    }
    SplitJoin(parts);
    JoinEnds(parts);
    assert project[0] != '/' && key[|key| - 1] != '/';
    assert TrimSpace(raw) == raw && TrimSlashes(raw) == raw;
    assert parts[2..|parts| - 1] == folders;
  }

  /** Names to be written with slashes between them, the ends neither empty nor blank. */
  predicate Writable(parts: seq<string>) {
    && parts != [] && (forall part | part in parts :: '/' !in part)
    && parts[0] != "" && !Blank(parts[0][0])
    && var last := parts[|parts| - 1]; last != "" && !Blank(last[|last| - 1])
  }

  /**
    However it is set about with slashes, and these with space, a text of three names or
    more is the address they make; one of fewer names is no address.
  */
  lemma {:induction false} SplitReferencePathReads(
    left: string, before: string, parts: seq<string>, after: string, right: string)
    requires AllSpaces(left) && AllSlashes(before) && AllSlashes(after) && AllSpaces(right)
    requires parts == [] || Writable(parts)
    ensures var n := |parts|;
            SplitReferencePath(left + (before + Join(parts) + after) + right) ==
              if n < 3 then None
              else Some(Address(parts[0], parts[1], if n == 3 then "/" else "/" + Join(parts[2..n - 1]), parts[n - 1]))
  {
    var joined := Join(parts);
    var body := before + joined + after;
    SpacesAroundAreTrimmed(left, body, right);
    SlashesAroundAreTrimmed(before, joined, after);
    if parts == [] {
      SlashesAroundAreTrimmed(before, "", after);
      assert forall i | 0 <= i < |body| :: body[i] == '/';
      assert TrimSpace(body) == body;
    } else {
      JoinEnds(parts);
      assert parts[0] in parts && parts[|parts| - 1] in parts;
      assert TrimSlashes(joined) == joined;
      EndsStay(before, joined, after);
      forall k | 0 <= k < |parts| ensures '/' !in parts[k] {
        assert parts[k] in parts;
      }
      SplitJoin(parts);
    }
  }

  lemma {:induction false} EndsStay(before: string, s: string, after: string)
    requires AllSlashes(before) && AllSlashes(after) && s != "" && !Blank(s[0]) && !Blank(s[|s| - 1])
    ensures TrimSpace(before + s + after) == before + s + after
  {
    var body := before + s + after;
    assert body[0] == if before == "" then s[0] else before[0];
    assert body[|body| - 1] == if after == "" then s[|s| - 1] else after[|after| - 1];
  }

  lemma {:induction false} JoinEnds(parts: seq<string>)
    requires parts != [] && parts[0] != "" && parts[|parts| - 1] != ""
    ensures Join(parts) != "" && Join(parts)[0] == parts[0][0]
    ensures Join(parts)[|Join(parts)| - 1] == parts[|parts| - 1][|parts[|parts| - 1]| - 1]
    decreases |parts|
  {
    if |parts| > 1 {
      JoinLast(parts);
    }
  }

  lemma {:induction false} JoinLast(parts: seq<string>)
    requires parts != [] && parts[|parts| - 1] != ""
    ensures Join(parts) != "" && Join(parts)[|Join(parts)| - 1] == parts[|parts| - 1][|parts[|parts| - 1]| - 1]
    decreases |parts|
  {
    if |parts| > 1 {
      JoinLast(parts[1..]);
    }
  }

  // ---------------------------------------------------------------------------
  // The world a resolution runs in
  // ---------------------------------------------------------------------------

  datatype Secret = Secret(isReference: bool, value: string)

  /**
    A fixed snapshot: what SecretMRN and GetSecret answer for each address, which
    MRNs the caller holds the read grant on, the depth bound, and how each audit
    write turns out.
  */
  datatype World = World(
    mrnOf: Address -> Result<Mrn, AppError>,
    secretOf: Address -> Result<Secret, AppError>,
    granted: Mrn -> bool,
    maxDepth: nat,
    log: AuditLog)

  datatype Error =
    | TooDeep(chain: seq<Mrn>)
    | NeverCloses
    | BadAddress(text: string)
    | Cycle(chain: seq<Mrn>, target: Mrn)
    | NotGranted(mrn: Mrn)
    | Store(cause: AppError)
    | AuditFailed

  /** The class of error the transports see. */
  function Class(e: Error): AppError {
    match e
    case TooDeep(_) | NeverCloses | BadAddress(_) | Cycle(_, _) => Validation
    case NotGranted(_) => Forbidden
    case Store(cause) => cause
    case AuditFailed => Internal
  }

  /** A rendered value and the MRNs traversed to get it. */
  datatype Rendering = Rendering(value: string, hops: seq<Mrn>)

  datatype Run = Run(result: Result<Rendering, Error>, events: seq<Event>)

  /** A run with text and hops that came before it put in front of its result. */
  function After(value: string, hops: seq<Mrn>, run: Run): Run {
    match run.result
    case Ok(r) => Run(Ok(Rendering(value + r.value, hops + r.hops)), run.events)
    case Err(_) => run
  }

  // ---------------------------------------------------------------------------
  // What the resolver computes
  // ---------------------------------------------------------------------------

  function Expand(w: World, template: string, chain: seq<Mrn>, depth: nat, events: seq<Event>): Run
    requires chain != []
    decreases if depth < w.maxDepth then w.maxDepth - depth else 0, 2, 0
  {
    if depth >= w.maxDepth then Run(Err(TooDeep(chain)), events)
    else ExpandPieces(w, Pieces(template), chain, depth, events)
  }

  function ExpandPieces(w: World, ps: seq<Piece>, chain: seq<Mrn>, depth: nat, events: seq<Event>): Run
    requires chain != [] && depth < w.maxDepth
    decreases w.maxDepth - depth, 1, |ps|
  {
    if ps == [] then Run(Ok(Rendering("", [])), events)
    else
      match ps[0]
      case Literal(text) => After(text, [], ExpandPieces(w, ps[1..], chain, depth, events))
      case Unterminated => Run(Err(NeverCloses), events)
      case Placeholder(address) =>
        var one := ResolveOne(w, address, chain, depth, events);
        if one.result.Err? then one
        else After(one.result.value.value, one.result.value.hops, ExpandPieces(w, ps[1..], chain, depth, one.events))
  }

  function ResolveOne(w: World, text: string, chain: seq<Mrn>, depth: nat, events: seq<Event>): Run
    requires chain != [] && depth < w.maxDepth
    decreases w.maxDepth - depth, 0, 0
  {
    var address := SplitReferencePath(text);
    if address == None then Run(Err(BadAddress(text)), events)
    else if w.mrnOf(address.value).Err? then Run(Err(Store(w.mrnOf(address.value).error)), events)
    else
      var target := w.mrnOf(address.value).value;
      if target in chain then Run(Err(Cycle(chain, target)), events)
      else
        var checked := Guard(w.log, w.granted(target), ActionReferenceResolve, target, events);
        if !w.granted(target) then Run(Err(NotGranted(target)), checked)
        else if w.secretOf(address.value).Err? then
          Run(Err(Store(w.secretOf(address.value).error)),
              Write(w.log, Row(ActionReferenceResolve, Failure, target, "", 0), checked))
        else
          var secret := w.secretOf(address.value).value;
          var decrypted := checked + [Decrypted(target)];
          var recorded := Write(w.log, Row(ActionReferenceResolve, Success, target, chain[|chain| - 1], depth + 1),
            decrypted);
          if !w.log(|decrypted|) then Run(Err(AuditFailed), recorded + [Wiped(target)])
          else if !secret.isReference then Run(Ok(Rendering(secret.value, [target])), recorded + [Wiped(target)])
          else
            var nested := Expand(w, secret.value, chain + [target], depth + 1, recorded);
            var wiped := Run(nested.result, nested.events + [Wiped(target)]);
            After("", [target], wiped)
  }

  /** The whole resolution of a value stored under `origin`. */
  function Resolve(w: World, origin: Mrn, raw: string, events: seq<Event>): Run {
    Expand(w, raw, [origin], 0, events)
  }

  // ---------------------------------------------------------------------------
  // The resolver itself
  // ---------------------------------------------------------------------------

  class Resolver {
    const w: World
    var events: seq<Event>

    constructor (w: World)
      ensures this.w == w && events == []
    {
      this.w := w;
      events := [];
    }

    method RecordRow(row: Row) returns (written: bool)
      modifies this
      ensures events == Write(w.log, row, old(events)) && written == w.log(|old(events)|)
    {
      written := w.log(|events|);
      events := events + [Audited(row, written)];
    }

    method CheckGrant(action: Action, mrn: Mrn) returns (allowed: bool)
      modifies this
      ensures allowed == w.granted(mrn)
      ensures events == Guard(w.log, w.granted(mrn), action, mrn, old(events))
    {
      allowed := w.granted(mrn);
      events := events + [Guarded(mrn, allowed)];
      if !allowed {
        var _ := RecordRow(Row(action, Denied, mrn, "", 0));
      }
    }

    method ResolveReferences(origin: Mrn, raw: string) returns (r: Result<Rendering, Error>)
      modifies this
      ensures Run(r, events) == Resolve(w, origin, raw, old(events))
    {
      var chain := [origin];
      r := ExpandTemplate(raw, chain, 0);
    }

    /** expand: one pass over the template, resolving each placeholder as it is met. */
    method ExpandTemplate(template: string, chain: seq<Mrn>, depth: nat) returns (r: Result<Rendering, Error>)
      requires chain != []
      modifies this
      ensures Run(r, events) == Expand(w, template, chain, depth, old(events))
      decreases if depth < w.maxDepth then w.maxDepth - depth else 0, 1
    {
      if depth >= w.maxDepth {
        return Err(TooDeep(chain));
      }
      var out := "";
      var hops := [];
      var rest := template;
      AfterNothing(Expand(w, template, chain, depth, events));
      while true
        invariant After(out, hops, ExpandPieces(w, Pieces(rest), chain, depth, events))
               == Expand(w, template, chain, depth, old(events))
        decreases |rest|
      {
        var start := Index(rest, OPEN);
        if start < 0 {
          LastPiece(w, rest, chain, depth, events);
          assert hops + [] == hops;
          out := out + rest;
          break;
        }
        var end := Index(rest[start..], CLOSE);
        if end < 0 {
          NoCloseLeft(rest);
          return Err(NeverCloses);
        }
        Cut(rest);
        var text := rest[start + |OPEN|..start + end];
        var tail := rest[start + end + |CLOSE|..];
        NextPieces(w, rest[..start], text, Pieces(tail), chain, depth, events);
        var one := ResolveOneReference(text, chain, depth);
        if one.Err? {
          return one;
        }
        AfterTwice(out, hops, rest[..start], one.value, ExpandPieces(w, Pieces(tail), chain, depth, events));
        out := out + rest[..start] + one.value.value;
        hops := hops + one.value.hops;
        rest := tail;
      }
      r := Ok(Rendering(out, hops));
    }

    /** resolveOneReference: address, cycle check, grant check, read, audit row, and the nested expansion. */
    method ResolveOneReference(text: string, chain: seq<Mrn>, depth: nat) returns (r: Result<Rendering, Error>)
      requires chain != [] && depth < w.maxDepth
      modifies this
      ensures Run(r, events) == ResolveOne(w, text, chain, depth, old(events))
      decreases w.maxDepth - depth, 0
    {
      var address := SplitReferencePath(text);
      if address == None {
        return Err(BadAddress(text));
      }
      var mrn := w.mrnOf(address.value);
      if mrn.Err? {
        return Err(Store(mrn.error));
      }
      var target := mrn.value;
      for i := 0 to |chain|
        invariant target !in chain[..i]
        invariant events == old(events)
      {
        if chain[i] == target {
          return Err(Cycle(chain, target));
        }
      }
      assert chain[..|chain|] == chain;
      var allowed := CheckGrant(ActionReferenceResolve, target);
      if !allowed {
        return Err(NotGranted(target));
      }
      var revealed := w.secretOf(address.value);
      if revealed.Err? {
        var _ := RecordRow(Row(ActionReferenceResolve, Failure, target, "", 0));
        return Err(Store(revealed.error));
      }
      events := events + [Decrypted(target)];
      var written := RecordRow(Row(ActionReferenceResolve, Success, target, chain[|chain| - 1], depth + 1));
      if !written {
        events := events + [Wiped(target)];
        return Err(AuditFailed);
      }
      if !revealed.value.isReference {
        events := events + [Wiped(target)];
        return Ok(Rendering(revealed.value.value, [target]));
      }
      var extended := chain + [target];
      var nested := ExpandTemplate(revealed.value.value, extended, depth + 1);
      events := events + [Wiped(target)];
      if nested.Err? {
        return nested;
      }
      assert "" + nested.value.value == nested.value.value;
      r := Ok(Rendering(nested.value.value, [target] + nested.value.hops));
    }
  }

  lemma {:induction false} LastPiece(w: World, rest: string, chain: seq<Mrn>, depth: nat, events: seq<Event>)
    requires chain != [] && depth < w.maxDepth && Index(rest, OPEN) < 0
    ensures ExpandPieces(w, Pieces(rest), chain, depth, events) == Run(Ok(Rendering(rest, [])), events)
  {
    var hops: seq<Mrn> := [];
    NoOpenLeft(rest);
    assert Pieces(rest)[1..] == [];
    assert rest + "" == rest && hops + [] == [];
  }

  lemma {:induction false} NextPieces(
    w: World, literal: string, address: string, ps: seq<Piece>, chain: seq<Mrn>, depth: nat, events: seq<Event>)
    requires chain != [] && depth < w.maxDepth
    ensures var one := ResolveOne(w, address, chain, depth, events);
            ExpandPieces(w, [Literal(literal), Placeholder(address)] + ps, chain, depth, events)
            == After(literal, [],
                     if one.result.Err? then one
                     else After(one.result.value.value, one.result.value.hops,
                       ExpandPieces(w, ps, chain, depth, one.events)))
  {
    var all := [Literal(literal), Placeholder(address)] + ps;
    assert all[1..][0] == Placeholder(address) && all[1..][1..] == ps;
  }

  lemma AfterNothing(run: Run)
    ensures After("", [], run) == run
  {
    if run.result.Ok? {
      assert "" + run.result.value.value == run.result.value.value;
      assert [] + run.result.value.hops == run.result.value.hops;
    }
  }

  lemma AfterTwice(out: string, hops: seq<Mrn>, literal: string, one: Rendering, rest: Run)
    ensures After(out, hops, After(literal, [], After(one.value, one.hops, rest)))
         == After(out + literal + one.value, hops + one.hops, rest)
  {
    if rest.result.Ok? {
      var r := rest.result.value;
      assert out + (literal + (one.value + r.value)) == out + literal + one.value + r.value;
      assert hops + ([] + (one.hops + r.hops)) == hops + one.hops + r.hops;
    }
  }

  // ---------------------------------------------------------------------------
  // The write-time check
  // ---------------------------------------------------------------------------

  /** A reference value a write accepts; `shapeOk` is the check of the address's own parts. */
  predicate ValidTemplate(text: string, shapeOk: Address -> bool) {
    Contains(text, OPEN) && AllGood(text, shapeOk)
  }

  predicate AllGood(text: string, shapeOk: Address -> bool) {
    forall p | p in Pieces(text) :: GoodPiece(p, shapeOk)
  }

  method CheckAddress(address: string, shapeOk: Address -> bool) returns (ok: bool)
    ensures ok <==> GoodPiece(Placeholder(address), shapeOk)
  {
    var parts := SplitReferencePath(address);
    ok := parts.Some? && shapeOk(parts.value);
  }

  /** validateReferenceTemplate. */
  method ValidateReferenceTemplate(text: string, shapeOk: Address -> bool) returns (ok: bool)
    ensures ok <==> ValidTemplate(text, shapeOk)
  {
    if !Contains(text, OPEN) {
      return false;
    }
    ok := CheckPlaceholders(text, shapeOk);
  }

  /** Its loop: each placeholder in turn, until none is left or one is not well formed. */
  method CheckPlaceholders(text: string, shapeOk: Address -> bool) returns (ok: bool)
    ensures ok <==> AllGood(text, shapeOk)
  {
    var rest := text;
    ghost var good := AllGood(text, shapeOk);
    while true
      invariant AllGood(rest, shapeOk) == good
      decreases |rest|
    {
      var start := Index(rest, OPEN);
      if start < 0 {
        NothingLeftToCheck(rest, shapeOk);
        return true;
      }
      var end := Index(rest[start..], CLOSE);
      if end < 0 {
        UnclosedIsBad(rest, shapeOk);
        return false;
      }
      GoodAfterCut(rest, shapeOk);
      var addressOk := CheckAddress(rest[start + |OPEN|..start + end], shapeOk);
      if !addressOk {
        return false;
      }
      rest := rest[start + end + |CLOSE|..];
    }
  }

  lemma UnclosedIsBad(t: string, shapeOk: Address -> bool)
    requires Index(t, OPEN) >= 0 && Index(t[Index(t, OPEN)..], CLOSE) < 0
    ensures !AllGood(t, shapeOk)
  {
    NoCloseLeft(t);
  }

  lemma NothingLeftToCheck(t: string, shapeOk: Address -> bool)
    requires Index(t, OPEN) < 0
    ensures AllGood(t, shapeOk)
  {
    NoOpenLeft(t);
  }

  lemma GoodAfterCut(t: string, shapeOk: Address -> bool)
    requires Index(t, OPEN) >= 0 && Index(t[Index(t, OPEN)..], CLOSE) >= 0
    ensures var start := Index(t, OPEN);
            var end := Index(t[start..], CLOSE);
            && end >= |OPEN|
            && (AllGood(t, shapeOk) <==>
                  && GoodPiece(Placeholder(t[start + |OPEN|..start + end]), shapeOk)
                  && AllGood(t[start + end + |CLOSE|..], shapeOk))
  {
    Cut(t);
    var start := Index(t, OPEN);
    var end := Index(t[start..], CLOSE);
    GoodPrefix(Literal(t[..start]), Placeholder(t[start + |OPEN|..start + end]), Pieces(t),
      Pieces(t[start + end + |CLOSE|..]), shapeOk);
  }

  lemma GoodPrefix(a: Piece, b: Piece, ps: seq<Piece>, rest: seq<Piece>, shapeOk: Address -> bool)
    requires ps == [a, b] + rest && GoodPiece(a, shapeOk)
    ensures (forall p | p in ps :: GoodPiece(p, shapeOk)) <==>
      GoodPiece(b, shapeOk) && forall p | p in rest :: GoodPiece(p, shapeOk)
  {
    assert ps[0] == a && ps[1] == b;
    forall p | p in rest ensures p in ps {}
  }

  predicate GoodPiece(p: Piece, shapeOk: Address -> bool) {
    p != Unterminated
    && (p.Placeholder? ==> SplitReferencePath(p.address).Some? && shapeOk(SplitReferencePath(p.address).value))
  }
}
