/**
  What the log of a resolution says, whether it succeeds or fails, and what its error
  says: stated over the events and the graph, not over the resolver's recursion
  (internal/api/reference.go, internal/api/service.go).
*/
module ReferenceAudit {
  import opened Results
  import opened Text
  import opened Audit
  import opened References
  import opened ReferenceGraph

  // ---------------------------------------------------------------------------
  // Every event accounts for itself
  // ---------------------------------------------------------------------------

  /** The secrets held after some events, the innermost last, on top of those held before. */
  function Holding(chain: seq<Mrn>, events: seq<Event>): seq<Mrn>
    decreases |events|
  {
    if events == [] then chain else Holding(HeldAfter(chain, events[0]), events[1..])
  }

  function HeldAfter(chain: seq<Mrn>, e: Event): seq<Mrn> {
    match e
    case Decrypted(m) => chain + [m]
    case Wiped(_) => if chain == [] then [] else chain[..|chain| - 1]
    case _ => chain
  }

  lemma {:induction false} HoldingConcat(chain: seq<Mrn>, a: seq<Event>, b: seq<Event>)
    ensures Holding(chain, a + b) == Holding(Holding(chain, a), b)
    decreases |a|
  {
    if a == [] {
      assert a + b == b;
    } else {
      assert (a + b)[1..] == a[1..] + b;
      HoldingConcat(HeldAfter(chain, a[0]), a[1..], b);
    }
  }

  predicate IsRow(e: Event, outcome: Outcome, mrn: Mrn) {
    e.Audited? && e.row.outcome == outcome && e.row.mrn == mrn
  }

  /**
    What the event at `i` rests on and leads to. A check that passes is followed by the
    decryption or by a failure row, one that refuses by a denial row; a decryption
    follows its check and is followed by its success row, which names the secret, the
    one it was reached from and the depth; no row stands anywhere else, and each is
    written as the log has it. What is wiped is what was decrypted last.
  */
  predicate Accounted(w: World, base: nat, chain: seq<Mrn>, events: seq<Event>, i: nat)
    requires i < |events|
  {
    match events[i]
    case Guarded(m, allowed) =>
      && allowed == w.granted(m) && i + 1 < |events|
      && (if allowed then events[i + 1] == Decrypted(m) || IsRow(events[i + 1], Failure, m)
          else IsRow(events[i + 1], Denied, m))
    case Decrypted(m) =>
      i > 0 && events[i - 1] == Guarded(m, true) && i + 1 < |events| && IsRow(events[i + 1], Success, m)
    case Audited(row, written) =>
      && i > 0 && row.action == ActionReferenceResolve && written == w.log(base + i)
      && RestsOn(row, events[i - 1], Holding(chain, events[..i]))
    case Wiped(m) =>
      var held := Holding(chain, events[..i]);
      |held| > |chain| && held[|held| - 1] == m
  }

  /** A row, the event before it, and what is held when it is written. */
  predicate RestsOn(row: Row, before: Event, held: seq<Mrn>) {
    match row.outcome
    case Success =>
      && before == Decrypted(row.mrn) && |held| >= 2
      && row.mrn == held[|held| - 1] && row.referrer == held[|held| - 2] && row.hop == |held| - 1
    case Denied => before == Guarded(row.mrn, false) && row.referrer == "" && row.hop == 0
    case Failure => before == Guarded(row.mrn, true) && row.referrer == "" && row.hop == 0
  }

  ghost predicate AllAccounted(w: World, base: nat, chain: seq<Mrn>, events: seq<Event>) {
    forall i: nat | i < |events| :: Accounted(w, base, chain, events, i)
  }

  predicate UnwrittenSuccess(e: Event) {
    e.Audited? && e.row.outcome == Success && !e.written
  }

  /** What the events say of the result: each of the three ways a log tells a failure apart. */
  ghost predicate Verdict(run: Run, added: seq<Event>) {
    && ((exists e :: e in added && UnwrittenSuccess(e)) <==> run.result == Err(AuditFailed))
    && (forall m :: Guarded(m, false) in added <==> run.result == Err(NotGranted(m)))
    && (forall e | e in added && e.Audited? && e.row.outcome == Failure :: run.result.Err? && run.result.error.Store?)
  }

  ghost predicate Honest(w: World, base: nat, chain: seq<Mrn>, run: Run, added: seq<Event>) {
    AllAccounted(w, base, chain, added) && Holding(chain, added) == chain && Verdict(run, added)
  }

  lemma {:induction false} AccountedConcat(w: World, base: nat, chain: seq<Mrn>, a: seq<Event>, b: seq<Event>)
    requires AllAccounted(w, base, chain, a) && Holding(chain, a) == chain
    requires AllAccounted(w, base + |a|, chain, b) && Holding(chain, b) == chain
    ensures AllAccounted(w, base, chain, a + b) && Holding(chain, a + b) == chain
  {
    var all := a + b;
    HoldingConcat(chain, a, b);
    forall i: nat | i < |all| ensures Accounted(w, base, chain, all, i) {
      if i < |a| {
        AccountedBefore(w, base, chain, a, b, i);
      } else {
        AccountedAfter(w, base, chain, a, b, i - |a|);
      }
    }
  }

  lemma {:induction false} AccountedBefore(w: World, base: nat, chain: seq<Mrn>, a: seq<Event>, b: seq<Event>, i: nat)
    requires i < |a| && Accounted(w, base, chain, a, i)
    ensures Accounted(w, base, chain, a + b, i)
  {
    var all := a + b;
    assert all[i] == a[i] && all[..i] == a[..i];
    assert i > 0 ==> all[i - 1] == a[i - 1];
    assert i + 1 < |a| ==> all[i + 1] == a[i + 1];
  }

  lemma {:induction false} AccountedAfter(w: World, base: nat, chain: seq<Mrn>, a: seq<Event>, b: seq<Event>, j: nat)
    requires j < |b| && Accounted(w, base + |a|, chain, b, j) && Holding(chain, a) == chain
    ensures Accounted(w, base, chain, a + b, |a| + j)
  {
    var all, i := a + b, |a| + j;
    assert all[i] == b[j] && all[..i] == a + b[..j];
    assert j > 0 ==> all[i - 1] == b[j - 1];
    assert j + 1 < |b| ==> all[i + 1] == b[j + 1];
    HoldingConcat(chain, a, b[..j]);
  }

  lemma {:induction false} ExpandAccounted(
    w: World, t: string, chain: seq<Mrn>, depth: nat, events: seq<Event>) returns (added: seq<Event>)
    requires |chain| == depth + 1
    ensures Expand(w, t, chain, depth, events).events == events + added
    ensures Honest(w, |events|, chain, Expand(w, t, chain, depth, events), added)
    decreases if depth < w.maxDepth then w.maxDepth - depth else 0, 2, 0
  {
    if depth >= w.maxDepth {
      added := [];
    } else {
      added := PiecesAccounted(w, Pieces(t), chain, depth, events);
    }
  }

  lemma {:induction false} PiecesAccounted(
    w: World, ps: seq<Piece>, chain: seq<Mrn>, depth: nat, events: seq<Event>) returns (added: seq<Event>)
    requires |chain| == depth + 1 && depth < w.maxDepth
    ensures ExpandPieces(w, ps, chain, depth, events).events == events + added
    ensures Honest(w, |events|, chain, ExpandPieces(w, ps, chain, depth, events), added)
    decreases w.maxDepth - depth, 1, |ps|
  {
    added := [];
    if ps != [] {
      match ps[0] {
        case Unterminated =>
        case Literal(text) =>
          added := PiecesAccounted(w, ps[1..], chain, depth, events);
        case Placeholder(text) =>
          var first := OneAccounted(w, text, chain, depth, events);
          added := first;
          var one := ResolveOne(w, text, chain, depth, events);
          if one.result.Ok? {
            var second := PiecesAccounted(w, ps[1..], chain, depth, one.events);
            added := first + second;
            JoinHonest(w, chain, events, one, ExpandPieces(w, ps[1..], chain, depth, one.events), first, second);
          }
      }
    }
  }

  lemma JoinHonest(
    w: World, chain: seq<Mrn>, events: seq<Event>, one: Run, rest: Run, first: seq<Event>, second: seq<Event>)
    requires one.result.Ok? && one.events == events + first && rest.events == one.events + second
    requires Honest(w, |events|, chain, one, first) && Honest(w, |one.events|, chain, rest, second)
    ensures var run := After(one.result.value.value, one.result.value.hops, rest);
            run.events == events + (first + second) && Honest(w, |events|, chain, run, first + second)
  {
    AccountedConcat(w, |events|, chain, first, second);
    assert events + (first + second) == (events + first) + second;
  }

  lemma {:induction false} OneAccounted(
    w: World, text: string, chain: seq<Mrn>, depth: nat, events: seq<Event>) returns (added: seq<Event>)
    requires |chain| == depth + 1 && depth < w.maxDepth
    ensures ResolveOne(w, text, chain, depth, events).events == events + added
    ensures Honest(w, |events|, chain, ResolveOne(w, text, chain, depth, events), added)
    decreases w.maxDepth - depth, 0, 0
  {
    if !IsFollowed(w, text, chain) {
      added := RefusalAccounted(w, text, chain, depth, events);
    } else {
      var target := MrnAt(w, text);
      var front := HopFront(w, chain, depth, target, events);
      var inner: seq<Event> := [];
      RecordedPrefix(w, chain, depth, target, events);
      if w.log(|events| + 2) && SecretAt(w, text).isReference {
        inner := ExpandAccounted(w, SecretAt(w, text).value, chain + [target], depth + 1, events + front);
      }
      added := front + inner + [Wiped(target)];
      HopAccounted(w, events, chain, depth, target, inner);
      HopVerdict(w, text, chain, depth, events, inner);
      HopEvents(w, text, chain, depth, events, inner);
    }
  }

  /** What a hop adds to the log, with what its nested expansion adds. */
  lemma {:induction false} HopEvents(
    w: World, text: string, chain: seq<Mrn>, depth: nat, events: seq<Event>, inner: seq<Event>)
    requires |chain| == depth + 1 && depth < w.maxDepth && IsFollowed(w, text, chain)
    requires var target := MrnAt(w, text);
             var front := HopFront(w, chain, depth, target, events);
             if w.log(|events| + 2) && SecretAt(w, text).isReference
             then Expand(w, SecretAt(w, text).value, chain + [target], depth + 1, events + front).events
                  == events + front + inner
             else inner == []
    ensures var target := MrnAt(w, text);
            ResolveOne(w, text, chain, depth, events).events
            == events + (HopFront(w, chain, depth, target, events) + inner + [Wiped(target)])
  {
    RecordedPrefix(w, chain, depth, MrnAt(w, text), events);
  }

  lemma {:induction false} RefusalAccounted(
    w: World, text: string, chain: seq<Mrn>, depth: nat, events: seq<Event>) returns (added: seq<Event>)
    requires |chain| == depth + 1 && depth < w.maxDepth && !IsFollowed(w, text, chain)
    ensures ResolveOne(w, text, chain, depth, events).events == events + added
    ensures Honest(w, |events|, chain, ResolveOne(w, text, chain, depth, events), added)
  {
    var address := SplitReferencePath(text);
    added := [];
    if address.Some? && w.mrnOf(address.value).Ok? && w.mrnOf(address.value).value !in chain {
      var target := w.mrnOf(address.value).value;
      var outcome := if w.granted(target) then Failure else Denied;
      var check, row := Guarded(target, w.granted(target)), Row(ActionReferenceResolve, outcome, target, "", 0);
      added := [check, Audited(row, w.log(|events| + 1))];
      HoldingTwo(chain, check, added[1]);
    }
  }

  /** The events of one hop around those nested in it. */
  lemma {:induction false} HopAccounted(
    w: World, events: seq<Event>, chain: seq<Mrn>, depth: nat, target: Mrn, inner: seq<Event>)
    requires |chain| == depth + 1 && w.granted(target)
    requires AllAccounted(w, |events| + 3, chain + [target], inner)
      && Holding(chain + [target], inner) == chain + [target]
    ensures var added := HopFront(w, chain, depth, target, events) + inner + [Wiped(target)];
            AllAccounted(w, |events|, chain, added) && Holding(chain, added) == chain
  {
    var front, last := HopFront(w, chain, depth, target, events), [Wiped(target)];
    var added := front + inner + last;
    FrontHolds(chain, front, target);
    HoldingConcat(chain, front + inner, last);
    HoldingConcat(chain, front, inner);
    assert (chain + [target])[..|chain|] == chain && last[1..] == [];
    assert Holding(chain + [target], last) == chain;
    forall i: nat | i < |added| ensures Accounted(w, |events|, chain, added, i) {
      if i < 3 {
        assert added[i] == front[i] && added[..i] == front[..i];
      } else if i < 3 + |inner| {
        var j := i - 3;
        assert Accounted(w, |events| + 3, chain + [target], inner, j);
        assert added[i] == inner[j] && added[..i] == front + inner[..j];
        HoldingConcat(chain, front, inner[..j]);
      } else {
        assert added[..i] == front + inner;
      }
    }
  }

  lemma {:induction false} FrontHolds(chain: seq<Mrn>, front: seq<Event>, target: Mrn)
    requires |front| == 3 && front[0].Guarded? && front[1] == Decrypted(target) && front[2].Audited?
    ensures Holding(chain, front) == chain + [target] && Holding(chain, front[..2]) == chain + [target]
  {
    HoldingTwo(chain, front[0], front[1]);
    assert front[..2] == [front[0], front[1]] && front == front[..2] + [front[2]];
    HoldingConcat(chain, front[..2], [front[2]]);
    assert [front[2]][1..] == [];
  }

  lemma {:induction false} HoldingTwo(chain: seq<Mrn>, a: Event, b: Event)
    ensures Holding(chain, [a, b]) == HeldAfter(HeldAfter(chain, a), b)
  {
    var after := HeldAfter(chain, a);
    assert [a, b][1..] == [b] && [b][1..] == [];
    assert Holding(after, [b]) == HeldAfter(after, b);
  }

  lemma {:induction false} HopVerdict(
    w: World, text: string, chain: seq<Mrn>, depth: nat, events: seq<Event>, inner: seq<Event>)
    requires |chain| == depth + 1 && depth < w.maxDepth && IsFollowed(w, text, chain)
    requires var target := MrnAt(w, text);
             var front := HopFront(w, chain, depth, target, events);
             if w.log(|events| + 2) && SecretAt(w, text).isReference
             then Verdict(Expand(w, SecretAt(w, text).value, chain + [target], depth + 1, events + front), inner)
             else inner == []
    ensures var target := MrnAt(w, text);
            Verdict(ResolveOne(w, text, chain, depth, events),
                    HopFront(w, chain, depth, target, events) + inner + [Wiped(target)])
  {
    var target := MrnAt(w, text);
    var front := HopFront(w, chain, depth, target, events);
    var added := front + inner + [Wiped(target)];
    RecordedPrefix(w, chain, depth, target, events);
    assert UnwrittenSuccess(front[2]) <==> !w.log(|events| + 2);
    assert front[2] in added && forall e | e in inner :: e in added;
    assert forall e | e in added :: e in inner || e == front[0] || e == front[1] || e == front[2] || e == Wiped(target);
  }

  /**
    The log of a whole resolution, whatever became of it: with the guarantees of
    ResolveTrail, every event accounts for itself, and a success row that could not be
    written, a check that refused and a failure row each tell the error the resolution
    ends with.
  */
  lemma {:induction false} ResolutionLog(
    w: World, origin: Mrn, raw: string, events: seq<Event>) returns (added: seq<Event>)
    ensures Resolve(w, origin, raw, events).events == events + added
    ensures CheckedDecrypts(w, [origin], added) && NothingHeld(added) && AskedWhileNotHeld([origin], added)
    ensures AllAccounted(w, |events|, [origin], added)
    ensures Verdict(Resolve(w, origin, raw, events), added)
  {
    added := ExpandAccounted(w, raw, [origin], 0, events);
    var trail := ResolveTrail(w, origin, raw, events);
    assert (events + added)[|events|..] == added && (events + trail)[|events|..] == trail;
  }

  // ---------------------------------------------------------------------------
  // What an error says is so
  // ---------------------------------------------------------------------------

  /** The end of a walk shows what the error says. */
  ghost predicate Shows(w: World, t: string, chain: seq<Mrn>, depth: nat, p: seq<string>, e: Error) {
    match e
    case TooDeep(c) =>
      EndsInTemplate(w, p) && depth + |p| >= w.maxDepth && c == chain + MrnsAlong(w, p)
    case NeverCloses => EndsInTemplate(w, p) && Unterminated in Pieces(TemplateAt(w, t, p))
    case BadAddress(text) => p != [] && p[|p| - 1] == text && SplitReferencePath(text) == None
    case Cycle(c, m) =>
      && p != [] && Resolves(w, p[|p| - 1]) && m == MrnAt(w, p[|p| - 1])
      && c == chain + MrnsAlong(w, p[..|p| - 1]) && m in c
    case NotGranted(m) => p != [] && Resolves(w, p[|p| - 1]) && m == MrnAt(w, p[|p| - 1]) && !w.granted(m)
    case Store(cause) =>
      && p != [] && SplitReferencePath(p[|p| - 1]).Some?
      && var a := SplitReferencePath(p[|p| - 1]).value;
         w.mrnOf(a) == Err(cause) || (w.mrnOf(a).Ok? && w.granted(w.mrnOf(a).value) && w.secretOf(a) == Err(cause))
    case AuditFailed => p != [] && Names(w, p[|p| - 1]) && w.granted(MrnAt(w, p[|p| - 1]))
  }

  /** The address is well formed and has a name. */
  predicate Resolves(w: World, text: string) {
    SplitReferencePath(text).Some? && w.mrnOf(SplitReferencePath(text).value).Ok?
  }

  /** The end of a longer walk shows what its rest, seen from the first secret, shows. */
  lemma {:induction false} ShowsShift(
    w: World, t: string, chain: seq<Mrn>, depth: nat, first: string, q: seq<string>, e: Error)
    requires LeadsOn(w, first) && Shows(w, SecretAt(w, first).value, chain + [MrnAt(w, first)], depth + 1, q, e)
    ensures Shows(w, t, chain, depth, [first] + q, e)
  {
    AlongShift(w, chain, first, q);
    EndShift(w, t, first, q);
  }

  lemma {:induction false} AlongShift(w: World, chain: seq<Mrn>, first: string, q: seq<string>)
    ensures var p := [first] + q;
            && chain + MrnsAlong(w, p) == (chain + [MrnAt(w, first)]) + MrnsAlong(w, q)
            && (q != [] ==>
                  && p[|p| - 1] == q[|q| - 1]
                  && chain + MrnsAlong(w, p[..|p| - 1])
                     == (chain + [MrnAt(w, first)]) + MrnsAlong(w, q[..|q| - 1]))
  {
    var p := [first] + q;
    AlongFirst(w, chain, first, q);
    if q != [] {
      assert p[..|p| - 1] == [first] + q[..|q| - 1];
      AlongFirst(w, chain, first, q[..|q| - 1]);
    }
  }

  lemma {:induction false} AlongFirst(w: World, chain: seq<Mrn>, first: string, q: seq<string>)
    ensures chain + MrnsAlong(w, [first] + q) == (chain + [MrnAt(w, first)]) + MrnsAlong(w, q)
  {
    assert ([first] + q)[1..] == q;
    assert MrnsAlong(w, [first] + q) == [MrnAt(w, first)] + MrnsAlong(w, q);
  }

  lemma {:induction false} EndShift(w: World, t: string, first: string, q: seq<string>)
    requires LeadsOn(w, first)
    ensures var p := [first] + q;
            && (EndsInTemplate(w, p) <==> EndsInTemplate(w, q))
            && (EndsInTemplate(w, q) ==> TemplateAt(w, t, p) == TemplateAt(w, SecretAt(w, first).value, q))
  {
    var p := [first] + q;
    assert p[|p| - 1] == if q == [] then first else q[|q| - 1];
  }

  /** Every failure is one: some walk from the template ends in what the error says. */
  lemma {:induction false} FailureIsTrue(w: World, t: string, chain: seq<Mrn>, depth: nat, events: seq<Event>)
    returns (p: seq<string>)
    requires chain != [] && Expand(w, t, chain, depth, events).result.Err?
    ensures Walk(w, t, p) && Shows(w, t, chain, depth, p, Expand(w, t, chain, depth, events).result.error)
    decreases if depth < w.maxDepth then w.maxDepth - depth else 0, 1, 0
  {
    p := [];
    if depth < w.maxDepth {
      p := PieceFails(w, t, Pieces(t), chain, depth, events);
    } else {
      assert chain + MrnsAlong(w, p) == chain;
    }
  }

  lemma {:induction false} PieceFails(
    w: World, t: string, ps: seq<Piece>, chain: seq<Mrn>, depth: nat, events: seq<Event>) returns (p: seq<string>)
    requires chain != [] && depth < w.maxDepth && ExpandPieces(w, ps, chain, depth, events).result.Err?
    requires forall x | x in ps :: x in Pieces(t)
    ensures Walk(w, t, p) && Shows(w, t, chain, depth, p, ExpandPieces(w, ps, chain, depth, events).result.error)
    decreases w.maxDepth - depth, 0, |ps|
  {
    assert ps[0] in ps;
    match ps[0] {
      case Unterminated => p := [];
      case Literal(_) => p := PieceFails(w, t, ps[1..], chain, depth, events);
      case Placeholder(text) =>
        var one := ResolveOne(w, text, chain, depth, events);
        if one.result.Ok? {
          p := PieceFails(w, t, ps[1..], chain, depth, one.events);
        } else if IsFollowed(w, text, chain) && w.log(|events| + 2) {
          var target := MrnAt(w, text);
          var front := HopFront(w, chain, depth, target, events);
          RecordedPrefix(w, chain, depth, target, events);
          var q := FailureIsTrue(w, SecretAt(w, text).value, chain + [target], depth + 1, events + front);
          p := [text] + q;
          assert p[1..] == q;
          ShowsShift(w, t, chain, depth, text, q, one.result.error);
        } else {
          p := [text];
          assert p[..0] == [] && chain + [] == chain;
        }
    }
  }

  /**
    Success under any pattern of failing audit writes: exactly when every walk ends well
    and no success row the resolution made was left unwritten.
  */
  lemma {:induction false} ResolvesIffRecorded(w: World, origin: Mrn, raw: string, events: seq<Event>)
    returns (added: seq<Event>)
    ensures Resolve(w, origin, raw, events).events == events + added
    ensures Resolve(w, origin, raw, events).result.Ok? <==>
      AllWalksGood(w, raw, [origin], 0) && forall e | e in added :: !UnwrittenSuccess(e)
  {
    added := ResolutionLog(w, origin, raw, events);
    var run := Resolve(w, origin, raw, events);
    if run.result.Ok? {
      forall p | Walk(w, raw, p) ensures GoodEnd(w, raw, [origin], 0, p) {
        SuccessMakesWalkGood(w, raw, [origin], 0, events, p);
      }
    } else {
      var p := FailureIsTrue(w, raw, [origin], 0, events);
      if AllWalksGood(w, raw, [origin], 0) {
        assert GoodEnd(w, raw, [origin], 0, p);
        GoodEndShowsNothing(w, raw, [origin], 0, p, run.result.error);
      }
    }
  }

  /** A walk that ends well shows no error but a failed audit write. */
  lemma {:induction false} GoodEndShowsNothing(
    w: World, t: string, chain: seq<Mrn>, depth: nat, p: seq<string>, e: Error)
    requires GoodEnd(w, t, chain, depth, p) && Shows(w, t, chain, depth, p, e)
    ensures e == AuditFailed
  {
  }
}
