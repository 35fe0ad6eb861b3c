/**
  What a resolution means and when it succeeds, stated over the graph of
  references rather than over the resolver's recursion.
*/
module ReferenceGraph {
  import opened Results
  import opened Text
  import opened Audit
  import opened References

  // ---------------------------------------------------------------------------
  // The graph
  // ---------------------------------------------------------------------------

  /** An address names a secret that can be read. */
  predicate Names(w: World, text: string) {
    && SplitReferencePath(text).Some?
    && w.mrnOf(SplitReferencePath(text).value).Ok?
    && w.secretOf(SplitReferencePath(text).value).Ok?
  }

  function MrnAt(w: World, text: string): Mrn {
    if SplitReferencePath(text).Some? && w.mrnOf(SplitReferencePath(text).value).Ok?
    then w.mrnOf(SplitReferencePath(text).value).value else ""
  }

  function SecretAt(w: World, text: string): Secret
    requires Names(w, text)
  {
    w.secretOf(SplitReferencePath(text).value).value
  }

  /** The address leads on: its secret is itself a reference. */
  predicate LeadsOn(w: World, text: string) {
    Names(w, text) && SecretAt(w, text).isReference
  }

  /** A walk from a template: each address stands in the value the one before it names. */
  ghost predicate Walk(w: World, t: string, p: seq<string>)
    decreases |p|
  {
    p == [] || (Placeholder(p[0]) in Pieces(t)
      && (|p| > 1 ==> LeadsOn(w, p[0]) && Walk(w, SecretAt(w, p[0]).value, p[1..])))
  }

  function MrnsAlong(w: World, p: seq<string>): (ms: seq<Mrn>)
    ensures |ms| == |p|
  {
    if p == [] then [] else [MrnAt(w, p[0])] + MrnsAlong(w, p[1..])
  }

  /** The template a walk ends in, when it ends in one: the start, or a reference-typed secret. */
  predicate EndsInTemplate(w: World, p: seq<string>) {
    p == [] || LeadsOn(w, p[|p| - 1])
  }

  function TemplateAt(w: World, t: string, p: seq<string>): string
    requires EndsInTemplate(w, p)
  {
    if p == [] then t else SecretAt(w, p[|p| - 1]).value
  }

  /**
    What the end of a walk has to satisfy: the last address names a readable
    secret the caller is granted and that is not on the way already; and a
    template there lies within the depth bound and scans.
  */
  predicate GoodEnd(w: World, t: string, chain: seq<Mrn>, depth: nat, p: seq<string>) {
    && (p != [] ==>
          var last := p[|p| - 1];
          Names(w, last) && w.granted(MrnAt(w, last)) && MrnAt(w, last) !in chain + MrnsAlong(w, p[..|p| - 1]))
    && (EndsInTemplate(w, p) ==> depth + |p| < w.maxDepth && Scans(TemplateAt(w, t, p)))
  }

  ghost predicate AllWalksGood(w: World, t: string, chain: seq<Mrn>, depth: nat) {
    forall p :: Walk(w, t, p) ==> GoodEnd(w, t, chain, depth, p)
  }

  /** The end of a longer walk, seen from the secret its first address names. */
  lemma GoodEndShift(w: World, t: string, chain: seq<Mrn>, depth: nat, first: string, q: seq<string>)
    requires LeadsOn(w, first)
    requires q != [] || GoodEnd(w, t, chain, depth, [first])
    ensures GoodEnd(w, t, chain, depth, [first] + q)
            <==> GoodEnd(w, SecretAt(w, first).value, chain + [MrnAt(w, first)], depth + 1, q)
  {
    var p := [first] + q;
    if q != [] {
      assert p[|p| - 1] == q[|q| - 1];
      assert p[..|p| - 1] == [first] + q[..|q| - 1];
      assert p[..|p| - 1][1..] == q[..|q| - 1];
      assert chain + MrnsAlong(w, p[..|p| - 1]) == (chain + [MrnAt(w, first)]) + MrnsAlong(w, q[..|q| - 1]);
    } else {
      assert p == [first];
    }
  }

  // ---------------------------------------------------------------------------
  // Success, exactly
  // ---------------------------------------------------------------------------

  /** A success of a list of pieces is a success of each placeholder in it, at some point of the log. */
  lemma {:induction false} EachPlaceholderResolved(
    w: World, ps: seq<Piece>, chain: seq<Mrn>, depth: nat, events: seq<Event>, text: string)
    returns (at: seq<Event>)
    requires chain != [] && depth < w.maxDepth && Placeholder(text) in ps
    requires ExpandPieces(w, ps, chain, depth, events).result.Ok?
    ensures ResolveOne(w, text, chain, depth, at).result.Ok?
    decreases |ps|
  {
    match ps[0] {
      case Literal(_) => at := EachPlaceholderResolved(w, ps[1..], chain, depth, events, text);
      case Placeholder(first) =>
        if first == text {
          at := events;
        } else {
          at := EachPlaceholderResolved(w, ps[1..], chain, depth, ResolveOne(w, first, chain, depth, events).events,
            text);
        }
    }
  }

  lemma {:induction false} SuccessScans(w: World, ps: seq<Piece>, chain: seq<Mrn>, depth: nat, events: seq<Event>)
    requires chain != [] && depth < w.maxDepth
    requires ExpandPieces(w, ps, chain, depth, events).result.Ok?
    ensures Unterminated !in ps
    decreases |ps|
  {
    if ps != [] {
      match ps[0] {
        case Literal(_) => SuccessScans(w, ps[1..], chain, depth, events);
        case Placeholder(first) =>
          SuccessScans(w, ps[1..], chain, depth, ResolveOne(w, first, chain, depth, events).events);
      }
    }
  }

  /** A template that resolved lies within the depth bound and scans. */
  lemma ResolvedScans(w: World, t: string, chain: seq<Mrn>, depth: nat, events: seq<Event>)
    requires chain != [] && Expand(w, t, chain, depth, events).result.Ok?
    ensures depth < w.maxDepth && Scans(t)
  {
    SuccessScans(w, Pieces(t), chain, depth, events);
  }

  /** Each of its addresses names a readable, granted secret that is new on the chain, and what that leads to scans. */
  lemma FirstStepGood(w: World, t: string, chain: seq<Mrn>, depth: nat, events: seq<Event>, first: string)
    requires chain != [] && Expand(w, t, chain, depth, events).result.Ok? && Placeholder(first) in Pieces(t)
    ensures GoodEnd(w, t, chain, depth, [first])
  {
    var at := EachPlaceholderResolved(w, Pieces(t), chain, depth, events, first);
    if LeadsOn(w, first) {
      var recorded := ResolveSteps(w, first, chain, depth, at);
      ResolvedScans(w, SecretAt(w, first).value, chain + [MrnAt(w, first)], depth + 1, recorded);
    }
    assert [first][..0] == [] && chain + [] == chain;
  }

  lemma {:induction false} SuccessMakesWalkGood(
    w: World, t: string, chain: seq<Mrn>, depth: nat, events: seq<Event>, p: seq<string>)
    requires chain != [] && Expand(w, t, chain, depth, events).result.Ok? && Walk(w, t, p)
    ensures GoodEnd(w, t, chain, depth, p)
    decreases |p|
  {
    ResolvedScans(w, t, chain, depth, events);
    if p != [] {
      FirstStepGood(w, t, chain, depth, events, p[0]);
      if |p| == 1 {
        assert p == [p[0]];
      } else {
        var recorded := WalkSteps(w, t, chain, depth, events, p);
        SuccessMakesWalkGood(w, SecretAt(w, p[0]).value, chain + [MrnAt(w, p[0])], depth + 1, recorded, p[1..]);
        GoodEndShift(w, t, chain, depth, p[0], p[1..]);
        assert p == [p[0]] + p[1..];
      }
    }
  }

  /** The log at which the nested expansion of a resolved reference starts. */
  lemma ResolveSteps(
    w: World, text: string, chain: seq<Mrn>, depth: nat, events: seq<Event>) returns (recorded: seq<Event>)
    requires chain != [] && depth < w.maxDepth && LeadsOn(w, text)
    requires ResolveOne(w, text, chain, depth, events).result.Ok?
    ensures var nested := Expand(w, SecretAt(w, text).value, chain + [MrnAt(w, text)], depth + 1, recorded);
            nested.result.Ok? && nested.result.value.value ==
              ResolveOne(w, text, chain, depth, events).result.value.value
  {
    var target := MrnAt(w, text);
    var decrypted := Guard(w.log, w.granted(target), ActionReferenceResolve, target, events) + [Decrypted(target)];
    recorded := Write(w.log, Row(ActionReferenceResolve, Success, target, chain[|chain| - 1], depth + 1), decrypted);
    var nested := Expand(w, SecretAt(w, text).value, chain + [target], depth + 1, recorded);
    assert "" + nested.result.value.value == nested.result.value.value;
  }

  /** A secret that is no reference goes in as it is. */
  lemma PlainHop(w: World, text: string, chain: seq<Mrn>, depth: nat, events: seq<Event>)
    requires chain != [] && depth < w.maxDepth && !LeadsOn(w, text)
    requires ResolveOne(w, text, chain, depth, events).result.Ok?
    ensures Names(w, text) && ResolveOne(w, text, chain, depth, events).result.value.value == SecretAt(w, text).value
  {
  }

  lemma {:induction false} GoodWalksMakeSuccess(w: World, t: string, chain: seq<Mrn>, depth: nat, events: seq<Event>)
    requires chain != [] && AllWalksGood(w, t, chain, depth)
    requires forall n :: w.log(n)
    ensures Expand(w, t, chain, depth, events).result.Ok?
    decreases if depth < w.maxDepth then w.maxDepth - depth else 0, 1, 0
  {
    assert Walk(w, t, []);
    assert GoodEnd(w, t, chain, depth, []);
    GoodPiecesMakeSuccess(w, t, Pieces(t), chain, depth, events);
  }

  lemma {:induction false} GoodPiecesMakeSuccess(
    w: World, t: string, ps: seq<Piece>, chain: seq<Mrn>, depth: nat, events: seq<Event>)
    requires chain != [] && depth < w.maxDepth && AllWalksGood(w, t, chain, depth) && Scans(t)
    requires forall p | p in ps :: p in Pieces(t)
    requires forall n :: w.log(n)
    ensures ExpandPieces(w, ps, chain, depth, events).result.Ok?
    decreases w.maxDepth - depth, 0, |ps|
  {
    if ps != [] {
      match ps[0] {
        case Literal(_) => GoodPiecesMakeSuccess(w, t, ps[1..], chain, depth, events);
        case Unterminated => assert false;
        case Placeholder(text) =>
          assert Walk(w, t, [text]);
          assert GoodEnd(w, t, chain, depth, [text]);
          assert [text][..0] == [] && chain + [] == chain;
          if LeadsOn(w, text) {
            var target := MrnAt(w, text);
            forall q | Walk(w, SecretAt(w, text).value, q)
              ensures GoodEnd(w, SecretAt(w, text).value, chain + [target], depth + 1, q)
            {
              var p := [text] + q;
              assert p[1..] == q && Walk(w, t, p);
              GoodEndShift(w, t, chain, depth, text, q);
            }
            var decrypted := Guard(w.log, w.granted(target), ActionReferenceResolve, target, events)
              + [Decrypted(target)];
            var recorded := Write(w.log, Row(ActionReferenceResolve, Success, target, chain[|chain| - 1], depth + 1),
              decrypted);
            GoodWalksMakeSuccess(w, SecretAt(w, text).value, chain + [target], depth + 1, recorded);
          }
          GoodPiecesMakeSuccess(w, t, ps[1..], chain, depth, ResolveOne(w, text, chain, depth, events).events);
      }
    }
  }

  /**
    When audit writes succeed, a resolution succeeds if and only if every walk
    along references from the origin ends well: acyclic, within the depth bound,
    scannable, existing and granted.
  */
  lemma ResolvesIff(w: World, origin: Mrn, raw: string, events: seq<Event>)
    requires forall n :: w.log(n)
    ensures Resolve(w, origin, raw, events).result.Ok? <==> AllWalksGood(w, raw, [origin], 0)
  {
    if Resolve(w, origin, raw, events).result.Ok? {
      forall p | Walk(w, raw, p) ensures GoodEnd(w, raw, [origin], 0, p) {
        SuccessMakesWalkGood(w, raw, [origin], 0, events, p);
      }
    } else if AllWalksGood(w, raw, [origin], 0) {
      GoodWalksMakeSuccess(w, raw, [origin], 0, events);
    }
  }

  ghost predicate Distinct(ms: seq<Mrn>) {
    forall i, j | 0 <= i < j < |ms| :: ms[i] != ms[j]
  }

  /** The first step of a walk from a template that resolved: a new target, and a resolution to go on from. */
  lemma WalkSteps(
    w: World, t: string, chain: seq<Mrn>, depth: nat, events: seq<Event>, p: seq<string>) returns (recorded: seq<Event>)
    requires chain != [] && Expand(w, t, chain, depth, events).result.Ok? && Walk(w, t, p) && p != []
    ensures MrnAt(w, p[0]) !in chain
    ensures |p| > 1 ==>
      && LeadsOn(w, p[0]) && Walk(w, SecretAt(w, p[0]).value, p[1..])
      && Expand(w, SecretAt(w, p[0]).value, chain + [MrnAt(w, p[0])], depth + 1, recorded).result.Ok?
  {
    var at := EachPlaceholderResolved(w, Pieces(t), chain, depth, events, p[0]);
    recorded := [];
    if |p| > 1 {
      recorded := ResolveSteps(w, p[0], chain, depth, at);
    }
  }

  lemma OneMoreDistinct(ms: seq<Mrn>, m: Mrn)
    requires Distinct(ms) && m !in ms
    ensures Distinct(ms + [m])
  {
  }

  /** Along every walk from a template that resolved, the origin and the targets are pairwise distinct. */
  lemma {:induction false} ChainsAreDistinct(
    w: World, t: string, chain: seq<Mrn>, depth: nat, events: seq<Event>, p: seq<string>)
    requires chain != [] && Expand(w, t, chain, depth, events).result.Ok? && Walk(w, t, p)
    requires Distinct(chain)
    ensures Distinct(chain + MrnsAlong(w, p))
    decreases |p|
  {
    if p == [] {
      assert chain + MrnsAlong(w, p) == chain;
    } else {
      var recorded := WalkSteps(w, t, chain, depth, events, p);
      var longer := chain + [MrnAt(w, p[0])];
      OneMoreDistinct(chain, MrnAt(w, p[0]));
      if |p| > 1 {
        ChainsAreDistinct(w, SecretAt(w, p[0]).value, longer, depth + 1, recorded, p[1..]);
      }
      AlongStep(w, chain, p);
    }
  }

  lemma AlongStep(w: World, chain: seq<Mrn>, p: seq<string>)
    requires p != []
    ensures chain + MrnsAlong(w, p) == chain + [MrnAt(w, p[0])] + MrnsAlong(w, p[1..])
    ensures |p| == 1 ==> chain + MrnsAlong(w, p) == chain + [MrnAt(w, p[0])]
  {
    assert [MrnAt(w, p[0])] + MrnsAlong(w, p[1..]) == MrnsAlong(w, p);
  }

  // ---------------------------------------------------------------------------
  // The meaning of a template
  // ---------------------------------------------------------------------------

  /** A template's value with references followed at most n deep; no chain, no grants, no audit. */
  function Denote(w: World, t: string, n: nat): Option<string>
    decreases n, 1, 0
  {
    if n == 0 then None else DenotePieces(w, Pieces(t), n)
  }

  function DenotePieces(w: World, ps: seq<Piece>, n: nat): Option<string>
    requires n > 0
    decreases n, 0, |ps|
  {
    if ps == [] then Some("")
    else
      var head :=
        match ps[0]
        case Literal(text) => Some(text)
        case Unterminated => None
        case Placeholder(text) =>
          if !Names(w, text) then None
          else if SecretAt(w, text).isReference then Denote(w, SecretAt(w, text).value, n - 1)
          else Some(SecretAt(w, text).value);
      var tail := DenotePieces(w, ps[1..], n);
      if head.Some? && tail.Some? then Some(head.value + tail.value) else None
  }

  /** What a success returns is the meaning of the template; other secrets' values go in verbatim, never read again. */
  lemma {:induction false} SuccessIsMeaning(w: World, t: string, chain: seq<Mrn>, depth: nat, events: seq<Event>)
    requires chain != [] && Expand(w, t, chain, depth, events).result.Ok?
    ensures Denote(w, t, w.maxDepth - depth) == Some(Expand(w, t, chain, depth, events).result.value.value)
    decreases w.maxDepth - depth, 1, 0
  {
    PiecesAreMeaning(w, Pieces(t), chain, depth, events);
  }

  lemma {:induction false} PiecesAreMeaning(w: World, ps: seq<Piece>, chain: seq<Mrn>, depth: nat, events: seq<Event>)
    requires chain != [] && depth < w.maxDepth
    requires ExpandPieces(w, ps, chain, depth, events).result.Ok?
    ensures DenotePieces(w, ps, w.maxDepth - depth) ==
      Some(ExpandPieces(w, ps, chain, depth, events).result.value.value)
    decreases w.maxDepth - depth, 0, |ps|
  {
    if ps != [] {
      match ps[0] {
        case Literal(_) => PiecesAreMeaning(w, ps[1..], chain, depth, events);
        case Placeholder(text) =>
          var one := ResolveOne(w, text, chain, depth, events);
          PiecesAreMeaning(w, ps[1..], chain, depth, one.events);
          if LeadsOn(w, text) {
            var recorded := ResolveSteps(w, text, chain, depth, events);
            SuccessIsMeaning(w, SecretAt(w, text).value, chain + [MrnAt(w, text)], depth + 1, recorded);
          } else {
            PlainHop(w, text, chain, depth, events);
          }
      }
    }
  }

  /** Following references deeper never changes a meaning: once a template has one, it is the meaning. */
  lemma {:induction false} MeaningIsStable(w: World, t: string, n: nat, m: nat)
    requires n <= m && Denote(w, t, n).Some?
    ensures Denote(w, t, m) == Denote(w, t, n)
    decreases n, 1, 0
  {
    PiecesMeaningIsStable(w, Pieces(t), n, m);
  }

  lemma {:induction false} PiecesMeaningIsStable(w: World, ps: seq<Piece>, n: nat, m: nat)
    requires 0 < n <= m && DenotePieces(w, ps, n).Some?
    ensures DenotePieces(w, ps, m) == DenotePieces(w, ps, n)
    decreases n, 0, |ps|
  {
    if ps != [] {
      PiecesMeaningIsStable(w, ps[1..], n, m);
      if ps[0].Placeholder? && LeadsOn(w, ps[0].address) {
        MeaningIsStable(w, SecretAt(w, ps[0].address).value, n - 1, m - 1);
      }
    }
  }

  /** Resolve returns the meaning of the raw value, at any depth that has one. */
  lemma {:induction false} ResolveReturnsMeaning(w: World, origin: Mrn, raw: string, events: seq<Event>, n: nat)
    requires Resolve(w, origin, raw, events).result.Ok? && Denote(w, raw, n).Some?
    ensures Denote(w, raw, n) == Some(Resolve(w, origin, raw, events).result.value.value)
  {
    SuccessIsMeaning(w, raw, [origin], 0, events);
    MeaningIsStable(w, raw, if n < w.maxDepth then n else w.maxDepth, if n < w.maxDepth then w.maxDepth else n);
  }

  // ---------------------------------------------------------------------------
  // The trail a resolution leaves
  // ---------------------------------------------------------------------------

  /** Every decryption directly follows a grant check that passed on the same MRN, and hits nothing on the chain. */
  predicate CheckedDecrypts(w: World, chain: seq<Mrn>, events: seq<Event>) {
    forall i | 0 <= i < |events| && events[i].Decrypted? ::
      i > 0 && events[i - 1] == Guarded(events[i].mrn, true) && w.granted(events[i].mrn) && events[i].mrn !in chain
  }

  /** The audit rows of a run that did not fail are success rows that were written. */
  predicate OnlySuccessRows(events: seq<Event>) {
    forall i | 0 <= i < |events| && events[i].Audited? :: events[i].written && events[i].row.outcome == Success
  }

  /** A resolution writes rows about the references it follows and no others. */
  predicate OnlyReferenceRows(events: seq<Event>) {
    forall i | 0 <= i < |events| && events[i].Audited? :: events[i].row.action == ActionReferenceResolve
  }

  /**
    What any run, successful or not, adds to the log: decryptions only right after
    a passed check, every decrypted buffer wiped again; and on success the rows
    that were written are exactly the hops returned.
  */
  predicate GoodTrail(w: World, chain: seq<Mrn>, run: Run, added: seq<Event>) {
    && CheckedDecrypts(w, chain, added)
    && AskedWhileNotHeld(chain, added)
    && OnlyReferenceRows(added)
    && (run.result.Ok? ==>
       OnlySuccessRows(added) && SuccessRows(ActionReferenceResolve, added) == run.result.value.hops)
  }

  /**
    No secret is checked or decrypted while it is itself being resolved: a value is held
    from its decryption to the end of the expansion nested in it, and the secrets held
    at a moment are those of the chain.
  */
  predicate AskedWhileNotHeld(chain: seq<Mrn>, events: seq<Event>) {
    forall i | 0 <= i < |events| && (events[i].Guarded? || events[i].Decrypted?) ::
      events[i].mrn !in chain && Held(events[i].mrn, events[..i]) == 0
  }

  lemma AskedConcat(chain: seq<Mrn>, a: seq<Event>, b: seq<Event>)
    requires AskedWhileNotHeld(chain, a) && AskedWhileNotHeld(chain, b) && NothingHeld(a)
    ensures AskedWhileNotHeld(chain, a + b)
  {
    var all := a + b;
    forall i | 0 <= i < |all| && (all[i].Guarded? || all[i].Decrypted?)
      ensures all[i].mrn !in chain && Held(all[i].mrn, all[..i]) == 0
    {
      if i < |a| {
        assert all[i] == a[i] && all[..i] == a[..i];
      } else {
        assert all[i] == b[i - |a|] && all[..i] == a + b[..i - |a|];
        HeldConcat(all[i].mrn, a, b[..i - |a|]);
      }
    }
  }

  /** One hop: the check and the decryption of the target, what is nested in it, and the wipe. */
  lemma AskedHop(chain: seq<Mrn>, target: Mrn, front: seq<Event>, inner: seq<Event>)
    requires |front| == 3 && front[0] == Guarded(target, true) && front[1] == Decrypted(target) && front[2].Audited?
    requires target !in chain && AskedWhileNotHeld(chain + [target], inner)
    ensures AskedWhileNotHeld(chain, front + inner + [Wiped(target)])
  {
    var all := front + inner + [Wiped(target)];
    forall i | 0 <= i < |all| && (all[i].Guarded? || all[i].Decrypted?)
      ensures all[i].mrn !in chain && Held(all[i].mrn, all[..i]) == 0
    {
      if i < 3 {
        assert all[i] == front[i] && all[..i] == front[..i];
        assert i == 1 ==> all[..i] == [front[0]] && [front[0]][1..] == [];
      } else {
        var m := all[i].mrn;
        assert all[i] == inner[i - 3] && m !in chain + [target];
        assert all[..i] == front + inner[..i - 3];
        HeldConcat(m, front, inner[..i - 3]);
        NotInFront(m, target, front);
      }
    }
  }

  lemma NotInFront(m: Mrn, target: Mrn, front: seq<Event>)
    requires |front| == 3 && front[0].Guarded? && front[1] == Decrypted(target) && front[2].Audited? && m != target
    ensures Held(m, front) == 0
  {
    var f1 := front[1..];
    var f2 := f1[1..];
    assert f2[1..] == [] && Held(m, f2) == 0 && Held(m, f1) == 0;
  }

  ghost predicate NothingHeld(added: seq<Event>) {
    forall m :: Held(m, added) == 0
  }

  lemma TrailConcat(w: World, chain: seq<Mrn>, a: seq<Event>, b: seq<Event>)
    requires CheckedDecrypts(w, chain, a) && CheckedDecrypts(w, chain, b)
    ensures CheckedDecrypts(w, chain, a + b)
    ensures OnlySuccessRows(a) && OnlySuccessRows(b) ==> OnlySuccessRows(a + b)
    ensures OnlyReferenceRows(a) && OnlyReferenceRows(b) ==> OnlyReferenceRows(a + b)
    ensures NothingHeld(a) && NothingHeld(b) ==> NothingHeld(a + b)
  {
    var all := a + b;
    forall i | 0 <= i < |all| && all[i].Decrypted?
      ensures i > 0 && all[i - 1] == Guarded(all[i].mrn, true) && w.granted(all[i].mrn) && all[i].mrn !in chain
    {
      if i >= |a| {
        assert b[i - |a|].Decrypted?;
      } else {
        assert a[i].Decrypted?;
      }
    }
    if NothingHeld(a) && NothingHeld(b) {
      forall m ensures Held(m, all) == 0 {
        HeldConcat(m, a, b);
      }
    }
  }

  lemma {:induction false} ExpandTrail(
    w: World, t: string, chain: seq<Mrn>, depth: nat, events: seq<Event>) returns (added: seq<Event>)
    requires chain != []
    ensures Expand(w, t, chain, depth, events).events == events + added
    ensures GoodTrail(w, chain, Expand(w, t, chain, depth, events), added) && NothingHeld(added)
    decreases if depth < w.maxDepth then w.maxDepth - depth else 0, 2, 0
  {
    if depth >= w.maxDepth {
      added := [];
    } else {
      added := PiecesTrail(w, Pieces(t), chain, depth, events);
    }
  }

  lemma {:induction false} PiecesTrail(
    w: World, ps: seq<Piece>, chain: seq<Mrn>, depth: nat, events: seq<Event>) returns (added: seq<Event>)
    requires chain != [] && depth < w.maxDepth
    ensures ExpandPieces(w, ps, chain, depth, events).events == events + added
    ensures GoodTrail(w, chain, ExpandPieces(w, ps, chain, depth, events), added) && NothingHeld(added)
    decreases w.maxDepth - depth, 1, |ps|
  {
    added := [];
    if ps != [] {
      match ps[0] {
        case Unterminated =>
        case Literal(text) =>
          added := PiecesTrail(w, ps[1..], chain, depth, events);
          var rest := ExpandPieces(w, ps[1..], chain, depth, events);
          if rest.result.Ok? {
            assert [] + rest.result.value.hops == rest.result.value.hops;
          }
        case Placeholder(text) =>
          var first := OneTrail(w, text, chain, depth, events);
          added := first;
          var one := ResolveOne(w, text, chain, depth, events);
          if one.result.Ok? {
            var second := PiecesTrail(w, ps[1..], chain, depth, one.events);
            added := first + second;
            JoinTrails(w, chain, events, one, ExpandPieces(w, ps[1..], chain, depth, one.events), first, second);
          }
      }
    }
  }

  lemma JoinTrails(
    w: World, chain: seq<Mrn>, events: seq<Event>, one: Run, rest: Run, first: seq<Event>, second: seq<Event>)
    requires one.result.Ok? && one.events == events + first && rest.events == one.events + second
    requires GoodTrail(w, chain, one, first) && NothingHeld(first)
    requires GoodTrail(w, chain, rest, second) && NothingHeld(second)
    ensures var run := After(one.result.value.value, one.result.value.hops, rest);
            run.events == events + (first + second) && GoodTrail(w, chain, run, first + second)
              && NothingHeld(first + second)
  {
    TrailConcat(w, chain, first, second);
    AskedConcat(chain, first, second);
    SuccessRowsConcat(ActionReferenceResolve, first, second);
    assert events + (first + second) == (events + first) + second;
  }

  lemma {:induction false} OneTrail(
    w: World, text: string, chain: seq<Mrn>, depth: nat, events: seq<Event>) returns (added: seq<Event>)
    requires chain != [] && depth < w.maxDepth
    ensures ResolveOne(w, text, chain, depth, events).events == events + added
    ensures GoodTrail(w, chain, ResolveOne(w, text, chain, depth, events), added) && NothingHeld(added)
    decreases w.maxDepth - depth, 0, 0
  {
    if !IsFollowed(w, text, chain) {
      added := RefusedTrail(w, text, chain, depth, events);
    } else {
      var target := MrnAt(w, text);
      var front := HopFront(w, chain, depth, target, events);
      var inner: seq<Event> := [];
      if w.log(|events| + 2) && SecretAt(w, text).isReference {
        inner := ExpandTrail(w, SecretAt(w, text).value, chain + [target], depth + 1, events + front);
      }
      added := front + inner + [Wiped(target)];
      RecordedPrefix(w, chain, depth, target, events);
      HopTrail(w, chain, target, front, inner);
      AskedHop(chain, target, front, inner);
    }
  }

  predicate IsFollowed(w: World, text: string, chain: seq<Mrn>) {
    Names(w, text) && w.granted(MrnAt(w, text)) && MrnAt(w, text) !in chain
  }

  /** A reference that is not followed: nothing is logged, or its check and one row about it. */
  lemma RefusedTrail(
    w: World, text: string, chain: seq<Mrn>, depth: nat, events: seq<Event>) returns (added: seq<Event>)
    requires chain != [] && depth < w.maxDepth && !IsFollowed(w, text, chain)
    ensures ResolveOne(w, text, chain, depth, events).events == events + added
    ensures GoodTrail(w, chain, ResolveOne(w, text, chain, depth, events), added) && NothingHeld(added)
  {
    var address := SplitReferencePath(text);
    added := [];
    if address.Some? && w.mrnOf(address.value).Ok? && w.mrnOf(address.value).value !in chain {
      var target := w.mrnOf(address.value).value;
      var outcome := if w.granted(target) then Failure else Denied;
      added := [Guarded(target, w.granted(target)),
                Audited(Row(ActionReferenceResolve, outcome, target, "", 0), w.log(|events| + 1))];
    }
    RefusalTrail(chain, added);
  }

  /** The check, the decryption and the row of one hop. */
  function HopFront(w: World, chain: seq<Mrn>, depth: nat, target: Mrn, events: seq<Event>): seq<Event>
    requires chain != []
  {
    var row := Row(ActionReferenceResolve, Success, target, chain[|chain| - 1], depth + 1);
    [Guarded(target, true), Decrypted(target), Audited(row, w.log(|events| + 2))]
  }

  /** What the resolver has logged when it hands on to the nested expansion. */
  lemma RecordedPrefix(w: World, chain: seq<Mrn>, depth: nat, target: Mrn, events: seq<Event>)
    requires chain != [] && w.granted(target)
    ensures var row := Row(ActionReferenceResolve, Success, target, chain[|chain| - 1], depth + 1);
            var decrypted := Guard(w.log, true, ActionReferenceResolve, target, events) + [Decrypted(target)];
            && |decrypted| == |events| + 2
            && Write(w.log, row, decrypted) ==
               events + [Guarded(target, true), Decrypted(target), Audited(row, w.log(|events| + 2))]
  {
  }

  lemma RefusalTrail(chain: seq<Mrn>, added: seq<Event>)
    requires added == [] || (|added| == 2 && added[0].Guarded? && added[0].mrn !in chain && added[1].Audited?)
    ensures NothingHeld(added) && AskedWhileNotHeld(chain, added)
  {
    forall m ensures Held(m, added) == 0 {
      NeverDecrypted(m, added);
    }
  }

  lemma {:induction false} NeverDecrypted(m: Mrn, added: seq<Event>)
    requires forall e | e in added :: !e.Decrypted? && !e.Wiped?
    ensures Held(m, added) == 0
    decreases |added|
  {
    if added != [] {
      NeverDecrypted(m, added[1..]);
    }
  }

  lemma {:induction false} HopTrail(w: World, chain: seq<Mrn>, target: Mrn, front: seq<Event>, inner: seq<Event>)
    requires |front| == 3 && front[0] == Guarded(target, true) && front[1] == Decrypted(target) && front[2].Audited?
    requires w.granted(target) && target !in chain
    requires CheckedDecrypts(w, chain + [target], inner) && OnlyReferenceRows(inner) && NothingHeld(inner)
    ensures CheckedDecrypts(w, chain, front + inner + [Wiped(target)]) && NothingHeld(front + inner + [Wiped(target)])
    ensures front[2].row.action == ActionReferenceResolve ==> OnlyReferenceRows(front + inner + [Wiped(target)])
    ensures front[2].written && front[2].row.outcome == Success && OnlySuccessRows(inner) ==>
      OnlySuccessRows(front + inner + [Wiped(target)])
    ensures front[2].written && front[2].row.outcome == Success && front[2].row.action == ActionReferenceResolve ==>
              SuccessRows(ActionReferenceResolve, front + inner + [Wiped(target)])
              == [front[2].row.mrn] + SuccessRows(ActionReferenceResolve, inner)
  {
    var last := [Wiped(target)];
    var all := front + inner + last;
    forall i | 0 <= i < |all| && all[i].Decrypted?
      ensures i > 0 && all[i - 1] == Guarded(all[i].mrn, true) && w.granted(all[i].mrn) && all[i].mrn !in chain
    {
      if 3 <= i < 3 + |inner| {
        assert inner[i - 3].Decrypted? && inner[i - 3] == all[i];
        assert inner[i - 3].mrn !in chain + [target];
      }
    }
    forall m ensures Held(m, all) == 0 {
      HeldConcat(m, front + inner, last);
      HeldConcat(m, front, inner);
      var f1 := front[1..];
      var f2 := f1[1..];
      assert f2[1..] == [] && last[1..] == [];
      assert Held(m, f2) == 0 && Held(m, f1) == (if m == target then 1 else 0);
      assert Held(m, front) == (if m == target then 1 else 0);
      assert Held(m, last) == (if m == target then -1 else 0);
    }
    SuccessRowsConcat(ActionReferenceResolve, front + inner, last);
    SuccessRowsConcat(ActionReferenceResolve, front, inner);
    var f1 := front[1..];
    var f2 := f1[1..];
    assert f2[1..] == [] && last[1..] == [];
    assert SuccessRows(ActionReferenceResolve, front) == SuccessRows(ActionReferenceResolve, f1) ==
      SuccessRows(ActionReferenceResolve, f2);
    assert SuccessRows(ActionReferenceResolve, last) == [];
    var rows := SuccessRows(ActionReferenceResolve, inner);
    assert rows + [] == rows;
  }

  /**
    The trail of a whole resolution: each decryption follows its own passed grant
    check, never hits the origin, and is wiped; a target met again on its own chain
    causes neither check nor decryption, as no secret is checked or decrypted while its
    value is held; and a success has written exactly the rows of the hops it returns, in
    order, and no other row.
  */
  lemma ResolveTrail(w: World, origin: Mrn, raw: string, events: seq<Event>) returns (added: seq<Event>)
    ensures Resolve(w, origin, raw, events).events == events + added
    ensures CheckedDecrypts(w, [origin], added) && OnlyReferenceRows(added) && NothingHeld(added)
    ensures AskedWhileNotHeld([origin], added)
    ensures var run := Resolve(w, origin, raw, events);
            run.result.Ok? ==>
              OnlySuccessRows(added) && SuccessRows(ActionReferenceResolve, added) == run.result.value.hops
  {
    added := ExpandTrail(w, raw, [origin], 0, events);
  }

  // ---------------------------------------------------------------------------
  // What the write-time check buys
  // ---------------------------------------------------------------------------

  /** Every reference value in the store passed the write-time check. */
  ghost predicate StoreValidated(w: World, shapeOk: Address -> bool) {
    forall a :: w.secretOf(a).Ok? && w.secretOf(a).value.isReference ==> AllGood(w.secretOf(a).value.value, shapeOk)
  }

  predicate ScannerError(e: Error) {
    e.NeverCloses? || e.BadAddress?
  }

  /** A checked template over a checked store never fails in the scanner, however the resolution ends. */
  lemma {:induction false} CheckedNeverFailsToScan(
    w: World, t: string, shapeOk: Address -> bool, chain: seq<Mrn>, depth: nat, events: seq<Event>)
    requires chain != [] && StoreValidated(w, shapeOk) && AllGood(t, shapeOk)
    ensures var r := Expand(w, t, chain, depth, events).result; r.Err? ==> !ScannerError(r.error)
    decreases if depth < w.maxDepth then w.maxDepth - depth else 0, 1, 0
  {
    if depth < w.maxDepth {
      CheckedPiecesScan(w, Pieces(t), shapeOk, chain, depth, events);
    }
  }

  lemma {:induction false} CheckedPiecesScan(
    w: World, ps: seq<Piece>, shapeOk: Address -> bool, chain: seq<Mrn>, depth: nat, events: seq<Event>)
    requires chain != [] && depth < w.maxDepth && StoreValidated(w, shapeOk)
    requires forall p | p in ps :: GoodPiece(p, shapeOk)
    ensures var r := ExpandPieces(w, ps, chain, depth, events).result; r.Err? ==> !ScannerError(r.error)
    decreases w.maxDepth - depth, 0, |ps|
  {
    if ps != [] {
      assert ps[0] in ps;
      match ps[0] {
        case Literal(_) => CheckedPiecesScan(w, ps[1..], shapeOk, chain, depth, events);
        case Unterminated => assert false;
        case Placeholder(text) =>
          CheckedPiecesScan(w, ps[1..], shapeOk, chain, depth, ResolveOne(w, text, chain, depth, events).events);
          if LeadsOn(w, text) {
            var target := MrnAt(w, text);
            var decrypted := Guard(w.log, w.granted(target), ActionReferenceResolve, target, events)
              + [Decrypted(target)];
            var recorded := Write(w.log, Row(ActionReferenceResolve, Success, target, chain[|chain| - 1], depth + 1),
              decrypted);
            CheckedNeverFailsToScan(w, SecretAt(w, text).value, shapeOk, chain + [target], depth + 1, recorded);
          }
      }
    }
  }
}
