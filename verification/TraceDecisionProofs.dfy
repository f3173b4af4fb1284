/** Authority and sampling over every sequence of calls. */
module TraceDecisionProofs {
  import opened TraceDecision

  // ---- a new span ----

  lemma {:induction false} ChainGrows(spans: map<Ref, Span>, r: Ref, decided: bool, ref: Ref, x: Span)
    requires Chain(spans, r, decided) && ref !in spans
    ensures Chain(spans[ref := x], r, decided)
    decreases spans[r].born
  {
    if spans[r].parent.Some? { ChainGrows(spans, spans[r].parent.value, decided, ref, x); }
  }

  lemma DecisionStays(w: World, v: World, d: Decision, ref: Ref, x: Span)
    requires DecisionOk(w, d) && ref !in w.spans && v.spans == w.spans[ref := x]
    ensures DecisionOk(v, d)
  {
    if d.authoritative { ChainGrows(w.spans, Ref(d.trace, d.last), d.sampled, ref, x); }
    hide Chain;
  }

  lemma ContextStays(w: World, v: World, ctx: Context, ref: Ref, x: Span)
    requires ContextOk(w, ctx) && ref !in w.spans && v.spans == w.spans[ref := x]
    ensures ContextOk(v, ctx)
  {
    hide DecisionOk;
    if ctx.decision.Some? { DecisionStays(w, v, ctx.decision.value, ref, x); }
    if ctx.parent.Some? { DecisionStays(w, v, ctx.parent.value.decision, ref, x); }
  }

  // ---- starting ----

  lemma OverrideOk(w: World, ctx: Context, p: Observation)
    requires ObservationOk(w, p)
    ensures DecisionOk(w, OverrideDecision(ctx, p))
  {
    hide Chain;
  }

  lemma StartContextOk(w: World, ctx: Context, experimentRoot: bool)
    requires ContextOk(w, ctx)
    ensures ContextOk(w, StartContext(ctx, experimentRoot)) && StartContext(ctx, experimentRoot).parent.None?
  {
    hide DecisionOk, OverrideDecision;
    if ctx.parent.Some? { OverrideOk(w, ctx, ctx.parent.value); }
  }

  // The decision of a new span: authority needs the whole chain above it.
  lemma NextOk(w: World, ctx: Context, parent: Ref, ref: Ref, sampled: bool, spans: map<Ref, Span>)
    requires ContextOk(w, ctx) && ref !in w.spans && Valid(ref)
    requires Valid(parent) ==> ref.trace == parent.trace
    requires !Valid(parent) ==> FreshTrace(w, ref.trace)
    requires forall r :: r in w.spans ==> w.spans[r].born < |w.spans|
    requires var d := NextDecision(ctx, parent, ref, sampled);
             spans == w.spans[ref := Span(if Valid(parent) then Some(parent) else None, sampled, d.sampled, |w.spans|)]
    ensures var d := NextDecision(ctx, parent, ref, sampled);
            && d.trace == ref.trace && d.last == ref.span && spans[ref].decided == d.sampled && OriginOk(spans, d)
            && (d.authoritative ==> Chain(spans, ref, d.sampled))
  {
    var d := NextDecision(ctx, parent, ref, sampled);
    if ctx.decision.Some? && ctx.decision.value.trace == ref.trace {
      var e := ctx.decision.value;
      assert DecisionOk(w, e);
      if d.authoritative {
        assert parent == Ref(e.trace, e.last);
        ChainGrows(w.spans, parent, e.sampled, ref, spans[ref]);
      }
    }
  }

  lemma StartKeepsSpans(c: Client, w: World, i: nat, freshTrace: nat, freshSpan: nat, root: bool, app: bool)
    requires i < |w.contexts| && SpansOk(c, w) && ContextOk(w, w.contexts[i]) && freshSpan != 0
    requires FreshTrace(w, freshTrace)
    requires forall r :: r in w.spans ==> r.span != freshSpan
    ensures SpansOk(c, Start(c, w, i, freshTrace, freshSpan, root, app))
  {
    var ctx := w.contexts[i];
    var from := StartContext(ctx, root);
    var parent := ParentOf(from, root);
    var ref := StartedRef(parent, freshTrace, freshSpan);
    StartContextOk(w, ctx, root);
    hide StartContext, SampledAt, Chain, OverrideDecision;
    var v := Start(c, w, i, freshTrace, freshSpan, root, app);
    assert ref !in w.spans && |v.spans| == |w.spans| + 1;
    forall r | r in v.spans && r != ref ensures v.spans[r] == w.spans[r] { }
  }

  // What the start adds to the world.
  predicate Adds(w: World, v: World, i: nat, ref: Ref) {
    && ref !in w.spans && ref in v.spans && v.spans == w.spans[ref := v.spans[ref]]
    && |v.contexts| == |w.contexts| + 1 && v.contexts[..|w.contexts|] == w.contexts && v.derived == w.derived + [i]
    && |v.observations| == |w.observations| + 1 && v.observations[..|w.observations|] == w.observations
  }

  lemma StartAdds(c: Client, w: World, i: nat, freshTrace: nat, freshSpan: nat, root: bool, app: bool)
    returns (ref: Ref)
    requires i < |w.contexts| && SpansOk(c, w) && ContextOk(w, w.contexts[i]) && freshSpan != 0
    requires FreshTrace(w, freshTrace)
    requires forall r :: r in w.spans ==> r.span != freshSpan
    ensures var v := Start(c, w, i, freshTrace, freshSpan, root, app);
            && Adds(w, v, i, ref)
            && ContextOk(v, v.contexts[|w.contexts|]) && ObservationOk(v, v.observations[|w.observations|])
  {
    hide SampledAt, Chain, OverrideDecision, ShouldSample;
    var v := Start(c, w, i, freshTrace, freshSpan, root, app);
    var from := StartContext(w.contexts[i], root);
    var parent := ParentOf(from, root);
    ref := StartedRef(parent, freshTrace, freshSpan);
    var sampled := v.spans[ref].sampled;
    StartContextOk(w, w.contexts[i], root);
    NextOk(w, from, parent, ref, sampled, v.spans);
  }

  lemma StartKeeps(c: Client, w: World, i: nat, freshTrace: nat, freshSpan: nat, root: bool, app: bool)
    requires Inv(c, w) && i < |w.contexts| && freshSpan != 0 && FreshTrace(w, freshTrace)
    requires forall r :: r in w.spans ==> r.span != freshSpan
    ensures Inv(c, Start(c, w, i, freshTrace, freshSpan, root, app))
  {
    hide Start, SpansOk, ContextOk, ObservationOk, FreshTrace, Inherits;
    var v := Start(c, w, i, freshTrace, freshSpan, root, app);
    StartKeepsSpans(c, w, i, freshTrace, freshSpan, root, app);
    var ref := StartAdds(c, w, i, freshTrace, freshSpan, root, app);
    StartInherits(c, w, i, freshTrace, freshSpan, root, app);
    AllStay(w, v, ref);
    assert forall j :: 0 <= j < |w.contexts| ==> v.contexts[j] == v.contexts[..|w.contexts|][j];
    assert forall j :: 0 <= j < |w.observations| ==> v.observations[j] == v.observations[..|w.observations|][j];
  }

  // What held before a start still holds after it.
  lemma AllStay(w: World, v: World, ref: Ref)
    requires ref !in w.spans && ref in v.spans && v.spans == w.spans[ref := v.spans[ref]]
    requires forall j :: 0 <= j < |w.observations| ==> ObservationOk(w, w.observations[j])
    requires forall j :: 0 <= j < |w.contexts| ==> ContextOk(w, w.contexts[j])
    ensures forall j :: 0 <= j < |w.observations| ==> ObservationOk(v, w.observations[j])
    ensures forall j :: 0 <= j < |w.contexts| ==> ContextOk(v, w.contexts[j])
  {
    hide DecisionOk, ContextOk;
    forall j | 0 <= j < |w.observations| ensures ObservationOk(v, w.observations[j]) {
      DecisionStays(w, v, w.observations[j].decision, ref, v.spans[ref]);
    }
    forall j | 0 <= j < |w.contexts| ensures ContextOk(v, w.contexts[j]) {
      ContextStays(w, v, w.contexts[j], ref, v.spans[ref]);
    }
  }

  // The context a start derives inherits from the one it was given.
  lemma StartInherits(c: Client, w: World, i: nat, freshTrace: nat, freshSpan: nat, root: bool, app: bool)
    requires Inv(c, w) && i < |w.contexts| && FreshTrace(w, freshTrace)
    ensures Inherits(w.contexts[i], Start(c, w, i, freshTrace, freshSpan, root, app).contexts[|w.contexts|])
  {
    var ctx := w.contexts[i];
    assert ContextOk(w, ctx);
    DecisionTrace(w, ctx);
    if ctx.parent.Some? { SpanValid(c, w, ctx.parent.value.ref); }
    hide ContextOk, ObservationOk, SpansOk, OwnBit;
  }

  // ---- every run ----

  lemma ActKeeps(c: Client, w: World, a: Action)
    requires Inv(c, w)
    ensures Inv(c, Act(c, w, a))
  {
    if Enabled(w, a) && a.StartObservation? {
      StartKeeps(c, w, a.ctx, a.freshTrace, a.freshSpan, a.experimentRoot, a.applicationSampled);
      hide Start;
    } else if Enabled(w, a) {
      hide DecisionOk, Start, FreshTrace;
      var v := Act(c, w, a);
      assert v.spans == w.spans && v.observations == w.observations;
      forall j | 0 <= j < |v.contexts| ensures ContextOk(v, v.contexts[j]) {
        assert ContextOk(w, w.contexts[if j < |w.contexts| then j else a.ctx]);
        SameSpans(w, v);
      }
      forall j | 0 <= j < |v.observations| ensures ObservationOk(v, v.observations[j]) { SameSpans(w, v); }
    }
  }

  lemma SameSpans(w: World, v: World)
    requires v.spans == w.spans
    ensures forall d :: DecisionOk(w, d) == DecisionOk(v, d)
  {
    hide Chain;
  }

  lemma StartHolds(c: Client)
    ensures Inv(c, START)
  {
  }

  lemma {:induction false} RunKeeps(c: Client, w: World, actions: seq<Action>)
    requires Inv(c, w)
    ensures Inv(c, Run(c, w, actions))
    decreases |actions|
  {
    hide Inv, Act;
    if actions != [] {
      ActKeeps(c, w, actions[0]);
      RunKeeps(c, Act(c, w, actions[0]), actions[1..]);
    }
  }

  // ---- what callers rely on ----

  /** An authoritative decision means that every ancestor of its last span, up
      to a parentless root, is an observation of this client. */
  lemma AuthorityMeansOurs(c: Client, actions: seq<Action>, i: nat)
    requires i < |Run(c, START, actions).contexts|
    ensures var w := Run(c, START, actions);
            var ctx := w.contexts[i];
            ctx.decision.Some? && ctx.decision.value.authoritative ==>
              Chain(w.spans, Ref(ctx.decision.value.trace, ctx.decision.value.last), ctx.decision.value.sampled)
  {
    StartHolds(c);
    RunKeeps(c, START, actions);
    hide Run, Chain;
    assert ContextOk(Run(c, START, actions), Run(c, START, actions).contexts[i]);
  }

  /** Every span of a chain is in its trace; the root is parentless. */
  lemma {:induction false} ChainRoot(spans: map<Ref, Span>, r: Ref, decided: bool) returns (root: Ref)
    requires Chain(spans, r, decided)
    ensures root in spans && root.trace == r.trace && spans[root].parent.None? && spans[root].decided == decided
    decreases spans[r].born
  {
    match spans[r].parent
    case None => root := r;
    case Some(p) => root := ChainRoot(spans, p, decided);
  }

  lemma Reached(c: Client, actions: seq<Action>)
    ensures Inv(c, Run(c, START, actions))
  {
    StartHolds(c);
    RunKeeps(c, START, actions);
  }

  // What a decision on a context says about its spans.
  lemma DecisionIs(c: Client, w: World, i: nat)
    requires Inv(c, w) && i < |w.contexts| && w.contexts[i].decision.Some?
    ensures var d := w.contexts[i].decision.value;
            && d.origin in w.spans && d.origin.trace == d.trace && w.spans[d.origin].decided == d.sampled
            && (d.authoritative ==> w.spans[d.origin].parent.None?)
            && Ref(d.trace, d.last) in w.spans && w.spans[Ref(d.trace, d.last)].decided == d.sampled
            && (c.owned ==> w.spans[Ref(d.trace, d.last)].sampled == d.sampled)
  {
    assert ContextOk(w, w.contexts[i]);
    hide Chain;
  }

  /** All decisions inherited from one origin share its bit, with or without
      authority: whatever the rate is now and whatever foreign span came in
      between. On an owned client so do the spans themselves. */
  lemma OneBitPerOrigin(c: Client, actions: seq<Action>, i: nat, j: nat)
    requires i < |Run(c, START, actions).contexts| && j < |Run(c, START, actions).contexts|
    requires var w := Run(c, START, actions); w.contexts[i].decision.Some? && w.contexts[j].decision.Some?
    ensures var w := Run(c, START, actions);
            var a, b := w.contexts[i].decision.value, w.contexts[j].decision.value;
            && Ref(a.trace, a.last) in w.spans && Ref(b.trace, b.last) in w.spans
            && a.origin in w.spans && a.origin.trace == a.trace && w.spans[a.origin].decided == a.sampled
            && (a.origin == b.origin ==>
                  && a.trace == b.trace && a.sampled == b.sampled
                  && (c.owned ==> w.spans[Ref(a.trace, a.last)].sampled == w.spans[Ref(b.trace, b.last)].sampled))
  {
    var w := Run(c, START, actions);
    Reached(c, actions);
    DecisionIs(c, w, i);
    DecisionIs(c, w, j);
    hide Run, Inv;
  }

  /** An authoritative decision has the one parentless root of its trace as its
      origin. */
  lemma AuthorityHasTheRoot(c: Client, actions: seq<Action>, i: nat, root: Ref)
    requires i < |Run(c, START, actions).contexts| && Run(c, START, actions).contexts[i].decision.Some?
    requires var w := Run(c, START, actions);
             w.contexts[i].decision.value.authoritative && root in w.spans && w.spans[root].parent.None?
    ensures var d := Run(c, START, actions).contexts[i].decision.value; d.trace == root.trace <==> d.origin == root
  {
    var w := Run(c, START, actions);
    Reached(c, actions);
    DecisionIs(c, w, i);
    hide Run, ContextOk, ObservationOk, DerivedOk;
  }

  /** All authoritative decisions of one trace share one sampled bit. */
  lemma OneBitPerTrace(c: Client, actions: seq<Action>, i: nat, j: nat)
    requires i < |Run(c, START, actions).contexts| && j < |Run(c, START, actions).contexts|
    ensures var w := Run(c, START, actions);
            var a, b := w.contexts[i].decision, w.contexts[j].decision;
            a.Some? && b.Some? && a.value.authoritative && b.value.authoritative && a.value.trace == b.value.trace ==>
              a.value.origin == b.value.origin && a.value.sampled == b.value.sampled
  {
    var w := Run(c, START, actions);
    var a, b := w.contexts[i].decision, w.contexts[j].decision;
    Reached(c, actions);
    hide Run, Inv;
    if a.Some? && b.Some? && a.value.authoritative && b.value.authoritative && a.value.trace == b.value.trace {
      DecisionIs(c, w, i);
      DecisionIs(c, w, j);
      AuthorityHasTheRoot(c, actions, j, a.value.origin);
      OneBitPerOrigin(c, actions, i, j);
    }
  }

  // ---- when a trace has one bit ----

  // One step: the spans of a trace stay of one bit unless a start dissents.
  lemma StepUniform(c: Client, w: World, a: Action, trace: nat)
    requires Inv(c, w) && Uniform(w, trace)
    ensures Uniform(Act(c, w, a), trace) <==> !Dissents(c, w, a, trace)
  {
    var v := Act(c, w, a);
    if !Enabled(w, a) || !a.StartObservation? {
      hide Inv, Start;
      assert v.spans == w.spans;
    } else {
      var from := StartContext(w.contexts[a.ctx], a.experimentRoot);
      var parent := ParentOf(from, a.experimentRoot);
      var ref := StartedRef(parent, a.freshTrace, a.freshSpan);
      assert ContextOk(w, w.contexts[a.ctx]);
      StartContextOk(w, w.contexts[a.ctx], a.experimentRoot);
      var own := OwnBit(c, from, a.experimentRoot, ref.trace, a.applicationSampled);
      var d := NextDecision(from, parent, ref, own);
      assert v.spans == w.spans[ref := v.spans[ref]] && v.spans[ref].decided == d.sampled && ref !in w.spans;
      hide Act, Start, StartContext, OwnBit, Inv, OverrideDecision, Chain, SpansOk;
      if Carries(from, ref.trace) {
        assert DecisionOk(w, from.decision.value);
        assert d.sampled == from.decision.value.sampled;
        JoinUniform(w, v, ref, trace, Ref(d.trace, from.decision.value.last));
      } else if ref.trace != trace {
        JoinOther(w, v, ref, trace);
      } else if !Valid(parent) {
        assert forall r :: r in w.spans ==> r.trace != trace;
        assert forall r :: r in v.spans && r.trace == trace ==> r == ref;
      } else {
        assert d.sampled == own;
        JoinOwn(w, v, ref, own);
      }
    }
  }

  lemma JoinOther(w: World, v: World, ref: Ref, trace: nat)
    requires ref !in w.spans && ref in v.spans && v.spans == w.spans[ref := v.spans[ref]] && ref.trace != trace
    ensures Uniform(v, trace) <==> Uniform(w, trace)
  {
  }

  lemma JoinUniform(w: World, v: World, ref: Ref, trace: nat, last: Ref)
    requires ref !in w.spans && ref in v.spans && v.spans == w.spans[ref := v.spans[ref]] && Uniform(w, trace)
    requires last in w.spans && last.trace == ref.trace && w.spans[last].decided == v.spans[ref].decided
    ensures Uniform(v, trace)
  {
  }

  lemma JoinOwn(w: World, v: World, ref: Ref, own: bool)
    requires ref !in w.spans && ref in v.spans && v.spans == w.spans[ref := v.spans[ref]] && Uniform(w, ref.trace)
    requires v.spans[ref].decided == own
    ensures Uniform(v, ref.trace) <==> !exists r :: r in w.spans && r.trace == ref.trace && w.spans[r].decided != own
  {
    if r :| r in w.spans && r.trace == ref.trace && w.spans[r].decided != own {
      assert v.spans[r] == w.spans[r];
    }
  }

  // Spans only accumulate.
  lemma {:induction false} StaysMixed(c: Client, w: World, actions: seq<Action>, trace: nat)
    requires Inv(c, w) && !Uniform(w, trace)
    ensures !Uniform(Run(c, w, actions), trace)
    decreases |actions|
  {
    if actions != [] {
      ActKeeps(c, w, actions[0]);
      SpansGrow(c, w, actions[0]);
      hide Act, Inv;
      assert !Uniform(Act(c, w, actions[0]), trace);
      StaysMixed(c, Act(c, w, actions[0]), actions[1..], trace);
    }
  }

  lemma SpansGrow(c: Client, w: World, a: Action)
    ensures forall r :: r in w.spans ==> r in Act(c, w, a).spans && Act(c, w, a).spans[r] == w.spans[r]
  {
    hide StartContext, OwnBit, NextDecision;
    if Enabled(w, a) && a.StartObservation? {
      var from := StartContext(w.contexts[a.ctx], a.experimentRoot);
      var parent := ParentOf(from, a.experimentRoot);
      if !Valid(parent) { assert forall r :: r in w.spans ==> r.trace != a.freshTrace; }
    }
  }

  lemma {:induction false} RunUniform(c: Client, w: World, actions: seq<Action>, trace: nat)
    requires Inv(c, w) && Uniform(w, trace)
    ensures Uniform(Run(c, w, actions), trace) <==> NoneDissents(c, w, actions, trace)
    decreases |actions|
  {
    if actions != [] {
      var v := Act(c, w, actions[0]);
      ActKeeps(c, w, actions[0]);
      StepUniform(c, w, actions[0], trace);
      hide Act, Inv, Uniform, Dissents;
      if Dissents(c, w, actions[0], trace) {
        StaysMixed(c, v, actions[1..], trace);
      } else {
        RunUniform(c, v, actions[1..], trace);
      }
    }
  }

  /** A trace has one bit exactly when no start that joined it, from a context
      without a decision of it, was sampled otherwise by its own rate. */
  lemma OneBitExactly(c: Client, actions: seq<Action>, trace: nat)
    ensures Uniform(Run(c, START, actions), trace) <==> NoneDissents(c, START, actions, trace)
  {
    StartHolds(c);
    RunUniform(c, START, actions, trace);
  }

  lemma {:induction false} NoneDissented(c: Client, w: World, actions: seq<Action>, trace: nat)
    requires NoneJoins(c, w, actions, trace)
    ensures NoneDissents(c, w, actions, trace)
    decreases |actions|
  {
    hide Joins, Act;
    if actions != [] { NoneDissented(c, Act(c, w, actions[0]), actions[1..], trace); }
  }

  ghost predicate SameFlags(w: World, trace: nat) {
    forall r, q :: r in w.spans && q in w.spans && r.trace == trace && q.trace == trace ==>
      w.spans[r].sampled == w.spans[q].sampled
  }

  /** So where every start in the trace has a decision of it or begins it, all
      its decisions agree, with or without authority, and on an owned client
      all its spans are exported or none is. */
  lemma CoordinatedTraceAgrees(c: Client, actions: seq<Action>, trace: nat, i: nat, j: nat)
    requires NoneJoins(c, START, actions, trace)
    requires i < |Run(c, START, actions).contexts| && j < |Run(c, START, actions).contexts|
    requires var w := Run(c, START, actions); Carries(w.contexts[i], trace) && Carries(w.contexts[j], trace)
    ensures var w := Run(c, START, actions);
            w.contexts[i].decision.value.sampled == w.contexts[j].decision.value.sampled
    ensures c.owned ==> SameFlags(Run(c, START, actions), trace)
  {
    var w := Run(c, START, actions);
    NoneDissented(c, START, actions, trace);
    OneBitExactly(c, actions, trace);
    Reached(c, actions);
    DecisionIs(c, w, i);
    DecisionIs(c, w, j);
    assert c.owned ==> forall r :: r in w.spans ==> w.spans[r].sampled == w.spans[r].decided by { hide Run; }
    hide Run, Inv, NoneJoins, NoneDissents;
  }

  lemma {:induction false} ChainUnsampled(c: Client, w: World, r: Ref)
    requires SpansOk(c, w) && c.owned && Chain(w.spans, r, false)
    ensures Unsampled(w.spans, r)
    decreases w.spans[r].born
  {
    if w.spans[r].parent.Some? { ChainUnsampled(c, w, w.spans[r].parent.value); }
  }

  /** Every span from here up to a parentless root is this client's and is
      not exported. */
  ghost predicate Unsampled(spans: map<Ref, Span>, r: Ref)
    decreases if r in spans then spans[r].born else 0
  {
    && r in spans && !spans[r].sampled
    && match spans[r].parent
       case None => true
       case Some(p) => p.trace == r.trace && p in spans && spans[p].born < spans[r].born && Unsampled(spans, p)
  }

  /** A score is suppressed only where the ambient span and all its ancestors
      are unexported observations of this client. */
  lemma SuppressionIsSafe(c: Client, actions: seq<Action>, i: nat, scoreTrace: nat)
    requires i < |Run(c, START, actions).contexts| && Suppresses(c, Run(c, START, actions).contexts[i], scoreTrace)
    ensures var w := Run(c, START, actions);
            w.contexts[i].ambient.trace == scoreTrace && Unsampled(w.spans, w.contexts[i].ambient)
  {
    var w := Run(c, START, actions);
    StartHolds(c);
    RunKeeps(c, START, actions);
    AuthorityMeansOurs(c, actions, i);
    hide Run, Chain;
    assert w.contexts[i].ambient == Ref(scoreTrace, w.contexts[i].decision.value.last);
    ChainUnsampled(c, w, w.contexts[i].ambient);
  }

  lemma DecisionTrace(w: World, ctx: Context)
    requires ContextOk(w, ctx)
    ensures ctx.decision.Some? ==> Ref(ctx.decision.value.trace, ctx.decision.value.last) in w.spans
    ensures ctx.parent.Some? ==>
              ctx.parent.value.ref in w.spans && ctx.parent.value.decision.trace == ctx.parent.value.ref.trace
  {
    hide Chain;
  }

  lemma SpanValid(c: Client, w: World, r: Ref)
    requires SpansOk(c, w) && r in w.spans
    ensures Valid(r)
  {
  }

  // ---- paths ----

  /** Along a path on which every context carries a decision of the trace,
      authority never returns; and without a parent override neither the bit
      nor its origin ever changes. */
  lemma {:induction false} AuthorityOnlyDecreases(c: Client, actions: seq<Action>, p: seq<nat>, trace: nat)
    requires var w := Run(c, START, actions);
             Path(w, p) && forall k :: 0 <= k < |p| ==> Carries(w.contexts[p[k]], trace)
    ensures var w := Run(c, START, actions);
            var first, last := w.contexts[p[0]].decision.value, w.contexts[p[|p| - 1]].decision.value;
            && (last.authoritative ==> first.authoritative)
            && ((forall k :: 0 <= k < |p| - 1 ==> w.contexts[p[k]].parent.None?) ==>
                  last.sampled == first.sampled && last.origin == first.origin)
    decreases |p|
  {
    var w := Run(c, START, actions);
    Reached(c, actions);
    hide Run, ContextOk, ObservationOk, SpansOk;
    if |p| > 1 {
      var q := p[..|p| - 1];
      assert forall k :: 0 <= k < |q| ==> q[k] == p[k];
      AuthorityOnlyDecreases(c, actions, q, trace);
      assert w.derived[p[|p| - 1]] == p[|p| - 2];
      assert Inherits(w.contexts[p[|p| - 2]], w.contexts[p[|p| - 1]]);
    }
  }

  /** A start that enters a trace its context has no decision of is
      authoritative exactly when it begins the trace, or takes it from an
      authoritative parent override while the ambient span is in another. */
  lemma AuthorityOnEntry(c: Client, actions: seq<Action>, a: Action)
    requires a.StartObservation? && Enabled(Run(c, START, actions), a)
    requires var w := Run(c, START, actions);
             !Carries(w.contexts[a.ctx], Act(c, w, a).observations[|w.observations|].ref.trace)
    ensures var w := Run(c, START, actions);
            var ctx, d := w.contexts[a.ctx], Act(c, w, a).observations[|w.observations|].decision;
            d.authoritative <==>
            if ctx.parent.Some? && !a.experimentRoot
            then ctx.parent.value.decision.authoritative && !(Valid(ctx.ambient) && ctx.ambient.trace == d.trace)
            else a.experimentRoot || !Valid(ctx.ambient)
  {
    var w := Run(c, START, actions);
    Reached(c, actions);
    hide Run, SpansOk, OwnBit;
    var ctx := w.contexts[a.ctx];
    assert ContextOk(w, ctx);
    DecisionTrace(w, ctx);
    if ctx.parent.Some? { SpanValid(c, w, ctx.parent.value.ref); }
  }

  // ---- where the agreement ends ----

  lemma Runs(c: Client, w: World, a: Action, more: seq<Action>)
    ensures Run(c, w, [a] + more) == Run(c, Act(c, w, a), more)
  {
    assert ([a] + more)[0] == a && ([a] + more)[1..] == more;
  }

  // Two decisions of one trace, one of them of a child of the root, with
  // different bits.
  ghost predicate Differ(c: Client, actions: seq<Action>, i: nat, j: nat, root: Ref, child: Ref) {
    var w := Run(c, START, actions);
    && i < |w.contexts| && j < |w.contexts| && Carries(w.contexts[i], root.trace) && Carries(w.contexts[j], root.trace)
    && w.contexts[i].decision.value.sampled != w.contexts[j].decision.value.sampled
    && child in w.spans && w.spans[child].parent == Some(root) && root in w.spans
  }

  /** A child started from a context that has no decision of its parent's trace
      decides again: at another rate, with the other bit. */
  lemma BitsMayDiffer()
    ensures exists c: Client, actions, i, j, root, child :: c.owned && Differ(c, actions, i, j, root, child)
  {
    var c := Client(true, 0.0);
    var a1, a2 := WithSampleRate(0, 1.0), StartObservation(1, 7, 1, false, false);
    var a3, a4 := SetAmbient(0, Ref(7, 1)), StartObservation(3, 8, 2, false, false);
    var w1 := Act(c, START, a1);
    var w2 := Act(c, w1, a2);
    assert w2.spans == map[Ref(7, 1) := Span(None, true, true, 0)];
    var w3 := Act(c, w2, a3);
    var w4 := Act(c, w3, a4);
    assert Carries(w4.contexts[2], 7) && w4.contexts[2].decision.value.sampled;
    assert Carries(w4.contexts[4], 7) && !w4.contexts[4].decision.value.sampled;
    assert w4.spans[Ref(7, 2)].parent == Some(Ref(7, 1)) && Ref(7, 1) in w4.spans;
    var actions := [a1] + ([a2] + ([a3] + ([a4] + [])));
    hide Act;
    Runs(c, START, a1, [a2] + ([a3] + ([a4] + [])));
    Runs(c, w1, a2, [a3] + ([a4] + []));
    Runs(c, w2, a3, [a4] + []);
    Runs(c, w3, a4, []);
    assert Run(c, START, actions) == w4;
    assert Differ(c, actions, 2, 4, Ref(7, 1), Ref(7, 2));
  }

  // A path on which the k-th context has lost the authority that the last one
  // has in the same trace.
  ghost predicate Returns(c: Client, actions: seq<Action>, p: seq<nat>, k: nat, trace: nat) {
    var w := Run(c, START, actions);
    && Path(w, p) && k < |p| && Carries(w.contexts[p[k]], trace) && Carries(w.contexts[p[|p| - 1]], trace)
    && !w.contexts[p[k]].decision.value.authoritative && w.contexts[p[|p| - 1]].decision.value.authoritative
  }

  // The first half of such a path: a foreign span in trace 7, and a start.
  function Left(): seq<Action> {
    [StartObservation(0, 7, 1, false, false)] + ([StartObservation(0, 8, 2, false, false)] +
    ([SetAmbient(1, Ref(7, 9))] + ([StartObservation(3, 9, 3, false, false)] + [])))
  }

  // The second half: overrides into trace 8, and back into trace 7.
  function Back(): seq<Action> {
    [WithParent(4, 1)] + ([StartObservation(5, 9, 4, false, false)] +
    ([WithParent(6, 0)] + ([StartObservation(7, 9, 5, false, false)] + [])))
  }

  predicate HasLeft(w: World) {
    && |w.observations| == 3 && |w.contexts| == 5 && |w.derived| == 5 && w.derived[3] == 1 && w.derived[4] == 3
    && w.observations[0] == Observation(Ref(7, 1), Decision(7, true, true, 1, Ref(7, 1)))
    && w.observations[1] == Observation(Ref(8, 2), Decision(8, true, true, 2, Ref(8, 2)))
    && w.contexts[4] == Context(Ref(7, 3), Some(Decision(7, true, false, 3, Ref(7, 1))), None, None)
    && w.spans.Keys == {Ref(7, 1), Ref(8, 2), Ref(7, 3)}
  }

  lemma Leaves(c: Client)
    requires c == Client(true, 1.0)
    ensures HasLeft(Run(c, START, Left()))
  {
    var a1, a2 := StartObservation(0, 7, 1, false, false), StartObservation(0, 8, 2, false, false);
    var a3, a4 := SetAmbient(1, Ref(7, 9)), StartObservation(3, 9, 3, false, false);
    var w1 := Act(c, START, a1);
    assert w1.spans.Keys == {Ref(7, 1)};
    var w2 := Act(c, w1, a2);
    assert w2.spans.Keys == {Ref(7, 1), Ref(8, 2)};
    var w3 := Act(c, w2, a3);
    var w4 := Act(c, w3, a4);
    assert HasLeft(w4);
    hide Act, HasLeft;
    Runs(c, START, a1, [a2] + ([a3] + ([a4] + [])));
    Runs(c, w1, a2, [a3] + ([a4] + []));
    Runs(c, w2, a3, [a4] + []);
    Runs(c, w3, a4, []);
    assert Run(c, w4, []) == w4;
  }

  lemma ComesBack(c: Client, w: World)
    requires c == Client(true, 1.0) && HasLeft(w)
    ensures var v := Run(c, w, Back());
            && |v.contexts| == |v.derived| == 9 && v.derived[..5] == w.derived && v.contexts[..5] == w.contexts
            && v.derived[5..] == [4, 5, 6, 7] && Carries(v.contexts[8], 7) && v.contexts[8].decision.value.authoritative
  {
    var a5, a6 := WithParent(4, 1), StartObservation(5, 9, 4, false, false);
    var a7, a8 := WithParent(6, 0), StartObservation(7, 9, 5, false, false);
    var w5 := Act(c, w, a5);
    var w6 := Act(c, w5, a6);
    assert w6.contexts[6].ambient == Ref(8, 4) && !Carries(w6.contexts[6], 7) && w6.contexts[6].decision.Some?;
    assert w6.spans.Keys == {Ref(7, 1), Ref(8, 2), Ref(7, 3), Ref(8, 4)};
    assert w6.derived == w.derived + [4, 5] && w6.contexts[..5] == w.contexts;
    assert w6.observations[0] == w.observations[0];
    var w7 := Act(c, w6, a7);
    var w8 := Act(c, w7, a8);
    assert Carries(w8.contexts[8], 7) && w8.contexts[8].decision.value.authoritative;
    assert w8.derived == w.derived + [4, 5, 6, 7] && w8.contexts[..5] == w.contexts;
    hide Act, HasLeft;
    Runs(c, w, a5, [a6] + ([a7] + ([a8] + [])));
    Runs(c, w5, a6, [a7] + ([a8] + []));
    Runs(c, w6, a7, [a8] + []);
    Runs(c, w7, a8, []);
    assert Run(c, w8, []) == w8;
  }

  lemma {:induction false} RunSplits(c: Client, w: World, a: seq<Action>, b: seq<Action>)
    ensures Run(c, w, a + b) == Run(c, Run(c, w, a), b)
    decreases |a|
  {
    hide Act;
    if a == [] {
      assert a + b == b;
    } else {
      assert (a + b)[0] == a[0] && (a + b)[1..] == a[1..] + b;
      RunSplits(c, Act(c, w, a[0]), a[1..], b);
    }
  }

  /** On a path that leaves the trace authority may return: lost to a foreign
      span, then restored by a parent override from another trace. */
  lemma AuthorityMayReturn()
    ensures exists c, actions, p, k, trace :: Returns(c, actions, p, k, trace)
  {
    var c := Client(true, 1.0);
    hide Run, Left, Back;
    Leaves(c);
    var w := Run(c, START, Left());
    ComesBack(c, w);
    RunSplits(c, START, Left(), Back());
    var v, p := Run(c, START, Left() + Back()), [1, 3, 4, 5, 6, 7, 8];
    assert v == Run(c, w, Back());
    assert v.contexts[4] == v.contexts[..5][4] && v.derived[3] == v.derived[..5][3];
    assert v.derived[4] == v.derived[..5][4];
    assert v.derived[5] == v.derived[5..][0] && v.derived[6] == v.derived[5..][1];
    assert v.derived[7] == v.derived[5..][2] && v.derived[8] == v.derived[5..][3];
    assert Path(v, p);
    assert Returns(c, Left() + Back(), p, 2, 7);
  }
}
