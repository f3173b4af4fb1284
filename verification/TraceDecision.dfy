/** Sampling decisions along context paths (observation.go, sampler.go,
    score.go): what one span publishes, what its descendants inherit, and when
    a score may be suppressed. */
module TraceDecision {

  const TWO_63: int := 0x8000_0000_0000_0000

  datatype Option<T> = None | Some(value: T)

  // A span context; zero in either part is invalid.
  datatype Ref = Ref(trace: nat, span: nat)

  predicate Valid(r: Ref) { r.trace != 0 && r.span != 0 }

  // `origin` is the span that decided; the code keeps only its bit.
  datatype Decision = Decision(trace: nat, sampled: bool, authoritative: bool, last: nat, origin: Ref)

  datatype Observation = Observation(ref: Ref, decision: Decision)

  datatype Context = Context(ambient: Ref, decision: Option<Decision>, parent: Option<Observation>, rate: Option<real>)

  // A span started by this client: its parent as the tracer saw it, its
  // sampled flag, the bit its decision published, and when it started.
  datatype Span = Span(parent: Option<Ref>, sampled: bool, decided: bool, born: nat)

  // Contexts are immutable; each call adds one, derived from an earlier one.
  datatype World = World(spans: map<Ref, Span>, observations: seq<Observation>, contexts: seq<Context>,
                         derived: seq<nat>)

  datatype Client = Client(owned: bool, defaultRate: real)

  const START: World := World(map[], [], [Context(Ref(0, 0), None, None, None)], [0])

  // ---- sampling ----

  /** The deterministic threshold on the low half of a trace ID. */
  function SampledAt(trace: nat, fraction: real): bool {
    if fraction >= 1.0 then true
    else if fraction <= 0.0 then false
    else (trace % (2 * TWO_63)) / 2 < (fraction * TWO_63 as real).Floor
  }

  /** A trace selected at a fraction is selected at every larger one. */
  lemma SamplingNests(trace: nat, small: real, large: real)
    requires small <= large && SampledAt(trace, small)
    ensures SampledAt(trace, large)
  {
    if 0.0 < small && large < 1.0 {
      assert small * TWO_63 as real <= large * TWO_63 as real;
      FloorMonotone(small * TWO_63 as real, large * TWO_63 as real);
    }
  }

  lemma FloorMonotone(a: real, b: real)
    requires a <= b
    ensures a.Floor <= b.Floor
  {
    assert a.Floor as real <= b;
  }

  function ShouldSample(c: Client, ctx: Context, trace: nat): bool {
    if ctx.decision.Some? && ctx.decision.value.trace == trace then ctx.decision.value.sampled
    else SampledAt(trace, if ctx.rate.Some? then ctx.rate.value else c.defaultRate)
  }

  // ---- decisions ----

  /** WithParent inherits the parent's decision, without authority the path
      has already lost in that trace. */
  function OverrideDecision(ctx: Context, parent: Observation): Decision {
    var d := parent.decision;
    var known := ctx.decision.Some? && ctx.decision.value.trace == d.trace;
    var foreign := Valid(ctx.ambient) && ctx.ambient.trace == d.trace &&
                   (!known || ctx.decision.value.last != ctx.ambient.span);
    if (known && !ctx.decision.value.authoritative) || foreign then d.(authoritative := false) else d
  }

  function NextDecision(ctx: Context, parent: Ref, started: Ref, sampled: bool): Decision {
    if ctx.decision.Some? && ctx.decision.value.trace == started.trace then
      var d := ctx.decision.value;
      var kept := d.authoritative && parent.trace == d.trace && parent.span == d.last;
      Decision(started.trace, d.sampled, kept, started.span, d.origin)
    else Decision(started.trace, sampled, !Valid(parent), started.span, started)
  }

  /** The context a start works from: a parent override takes effect here,
      except for the root of an experiment item. */
  function StartContext(ctx: Context, experimentRoot: bool): Context {
    match ctx.parent
    case None => ctx
    case Some(p) =>
      if experimentRoot then ctx.(parent := None)
      else ctx.(ambient := p.ref, decision := Some(OverrideDecision(ctx, p)), parent := None)
  }

  function ParentOf(ctx: Context, experimentRoot: bool): Ref { if experimentRoot then Ref(0, 0) else ctx.ambient }

  /** A started span joins its parent's trace, or begins one of its own. */
  function StartedRef(parent: Ref, freshTrace: nat, freshSpan: nat): Ref {
    Ref(if Valid(parent) then parent.trace else freshTrace, freshSpan)
  }

  predicate FreshTrace(w: World, trace: nat) { trace != 0 && forall r :: r in w.spans ==> r.trace != trace }

  /** The bit that the sampler gives the span; a borrowed provider's is the
      application's. */
  function OwnBit(c: Client, from: Context, experimentRoot: bool, trace: nat, applicationSampled: bool): bool {
    if !c.owned then applicationSampled
    else ShouldSample(c, if experimentRoot then from.(rate := Some(1.0)) else from, trace)
  }

  function Start(c: Client, w: World, i: nat, freshTrace: nat, freshSpan: nat, experimentRoot: bool,
                 applicationSampled: bool): World
    requires i < |w.contexts|
  {
    var from := StartContext(w.contexts[i], experimentRoot);
    var parent := ParentOf(from, experimentRoot);
    var ref := StartedRef(parent, freshTrace, freshSpan);
    var sampled := OwnBit(c, from, experimentRoot, ref.trace, applicationSampled);
    var d := NextDecision(from, parent, ref, sampled);
    var above := if Valid(parent) then Some(parent) else None;
    Derive(w.(spans := w.spans[ref := Span(above, sampled, d.sampled, |w.spans|)],
              observations := w.observations + [Observation(ref, d)]),
           i, from.(ambient := ref, decision := Some(d)))
  }

  function Derive(w: World, i: nat, ctx: Context): World {
    w.(contexts := w.contexts + [ctx], derived := w.derived + [i])
  }

  datatype Action =
    | StartObservation(ctx: nat, freshTrace: nat, freshSpan: nat, experimentRoot: bool, applicationSampled: bool)
    | SetAmbient(ctx: nat, ref: Ref)   // a foreign span, a remote parent, another span, or detaching
    | WithSampleRate(ctx: nat, fraction: real)
    | WithParent(ctx: nat, observation: nat)

  predicate Enabled(w: World, a: Action) {
    && a.ctx < |w.contexts|
    && match a
       case StartObservation(_, freshTrace, freshSpan, _, _) =>
         FreshTrace(w, freshTrace) && freshSpan != 0 && forall r :: r in w.spans ==> r.span != freshSpan
       case SetAmbient(_, ref) => Valid(ref) || ref == Ref(0, 0)
       case WithParent(_, observation) => observation < |w.observations|
       case _ => true
  }

  /** Each call returns a context derived from the one it was given. */
  function Act(c: Client, w: World, a: Action): World {
    if !Enabled(w, a) then w
    else
      var ctx := w.contexts[a.ctx];
      match a
      case StartObservation(_, freshTrace, freshSpan, root, sampled) =>
        Start(c, w, a.ctx, freshTrace, freshSpan, root, sampled)
      case SetAmbient(_, ref) => Derive(w, a.ctx, ctx.(ambient := ref))
      case WithSampleRate(_, f) => Derive(w, a.ctx, if c.owned && 0.0 <= f <= 1.0 then ctx.(rate := Some(f)) else ctx)
      case WithParent(_, o) => Derive(w, a.ctx, ctx.(parent := Some(w.observations[o])))
  }

  function Run(c: Client, w: World, actions: seq<Action>): World
    decreases |actions|
  {
    if actions == [] then w else Run(c, Act(c, w, actions[0]), actions[1..])
  }

  // ---- suppression ----

  /** A score recorded here inherits the drop decision of the path. */
  predicate Suppresses(c: Client, ctx: Context, scoreTrace: nat) {
    && c.owned && scoreTrace != 0
    && ctx.decision.Some? && ctx.decision.value.authoritative && !ctx.decision.value.sampled
    && scoreTrace == ctx.decision.value.trace
    && Valid(ctx.ambient) && ctx.ambient.trace == scoreTrace && ctx.ambient.span == ctx.decision.value.last
  }

  // ---- what authority means ----

  /** Every span from here up to a parentless root was started by this client
      in this trace and published the bit `decided`. */
  ghost predicate Chain(spans: map<Ref, Span>, r: Ref, decided: bool)
    decreases if r in spans then spans[r].born else 0
  {
    && r in spans && spans[r].decided == decided
    && match spans[r].parent
       case None => true
       case Some(p) =>
         p.trace == r.trace && p in spans && spans[p].born < spans[r].born && Chain(spans, p, decided)
  }

  ghost predicate DecisionOk(w: World, d: Decision) {
    && d.last != 0 && Ref(d.trace, d.last) in w.spans
    && w.spans[Ref(d.trace, d.last)].decided == d.sampled
    && OriginOk(w.spans, d)
    && (d.authoritative ==> Chain(w.spans, Ref(d.trace, d.last), d.sampled))
  }

  /** The origin is a span of the trace with the same bit; that of an
      authoritative decision is a parentless root. */
  ghost predicate OriginOk(spans: map<Ref, Span>, d: Decision) {
    && d.origin in spans && d.origin.trace == d.trace && spans[d.origin].decided == d.sampled
    && (d.authoritative ==> spans[d.origin].parent.None?)
  }

  ghost predicate SpansOk(c: Client, w: World) {
    && (forall r :: r in w.spans ==> Valid(r) && w.spans[r].born < |w.spans|)
    && (c.owned ==> forall r :: r in w.spans ==> w.spans[r].sampled == w.spans[r].decided)
    && (forall r, q :: r in w.spans && q in w.spans && w.spans[r].parent.None? && w.spans[q].parent.None? ==>
          r.trace == q.trace ==> r == q)
  }

  ghost predicate ObservationOk(w: World, o: Observation) {
    DecisionOk(w, o.decision) && o.decision.trace == o.ref.trace && o.decision.last == o.ref.span
  }

  ghost predicate ContextOk(w: World, ctx: Context) {
    && (ctx.decision.Some? ==> DecisionOk(w, ctx.decision.value))
    && (ctx.parent.Some? ==> ObservationOk(w, ctx.parent.value))
  }

  ghost predicate Inv(c: Client, w: World) {
    && SpansOk(c, w)
    && (forall i :: 0 <= i < |w.observations| ==> ObservationOk(w, w.observations[i]))
    && (forall i :: 0 <= i < |w.contexts| ==> ContextOk(w, w.contexts[i]))
    && DerivedOk(w)
  }

  // ---- paths ----

  /** A context of the same trace as the one it is derived from has no more
      authority, and without a parent override the same bit and origin. */
  predicate Inherits(from: Context, to: Context) {
    from.decision.Some? && to.decision.Some? && from.decision.value.trace == to.decision.value.trace ==>
      && (to.decision.value.authoritative ==> from.decision.value.authoritative)
      && (from.parent.None? ==>
            && to.decision.value.sampled == from.decision.value.sampled
            && to.decision.value.origin == from.decision.value.origin)
  }

  predicate DerivedOk(w: World) {
    && |w.derived| == |w.contexts|
    && forall k :: 0 < k < |w.contexts| ==> w.derived[k] < k && Inherits(w.contexts[w.derived[k]], w.contexts[k])
  }

  /** Contexts, each derived from the one before by one call. */
  predicate Path(w: World, p: seq<nat>) {
    && p != [] && |w.derived| == |w.contexts| && (forall k :: 0 <= k < |p| ==> p[k] < |w.contexts|)
    && forall k :: 0 < k < |p| ==> 0 < p[k] && w.derived[p[k]] == p[k - 1]
  }

  predicate Carries(ctx: Context, trace: nat) { ctx.decision.Some? && ctx.decision.value.trace == trace }

  // ---- starts that join a trace ----

  /** A start that joins the trace from a context without a decision of it. */
  predicate Joins(w: World, a: Action, trace: nat) {
    && a.StartObservation? && Enabled(w, a)
    && var from := StartContext(w.contexts[a.ctx], a.experimentRoot);
    && Valid(ParentOf(from, a.experimentRoot)) && ParentOf(from, a.experimentRoot).trace == trace
    && !Carries(from, trace)
  }

  /** ... and whose own bit is not the one that a span of the trace has. */
  ghost predicate Dissents(c: Client, w: World, a: Action, trace: nat) {
    && Joins(w, a, trace)
    && exists r :: r in w.spans && r.trace == trace &&
         var from := StartContext(w.contexts[a.ctx], a.experimentRoot);
         w.spans[r].decided != OwnBit(c, from, a.experimentRoot, trace, a.applicationSampled)
  }

  ghost predicate NoneDissents(c: Client, w: World, actions: seq<Action>, trace: nat)
    decreases |actions|
  {
    actions == [] || (!Dissents(c, w, actions[0], trace) && NoneDissents(c, Act(c, w, actions[0]), actions[1..], trace))
  }

  predicate NoneJoins(c: Client, w: World, actions: seq<Action>, trace: nat)
    decreases |actions|
  {
    actions == [] || (!Joins(w, actions[0], trace) && NoneJoins(c, Act(c, w, actions[0]), actions[1..], trace))
  }

  /** All spans of the trace published one bit. */
  ghost predicate Uniform(w: World, trace: nat) {
    forall r, q :: r in w.spans && q in w.spans && r.trace == trace && q.trace == trace ==>
      w.spans[r].decided == w.spans[q].decided
  }
}
