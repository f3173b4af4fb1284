/** The life of one response body (contrib/openai/internal/wiretap/body.go):
    sniffing, the capped unary buffer with its salvage path, event framing, and
    the single finalization. Parsers are oracles that may end the exchange or
    panic at any callback. */
module BodyLifecycle {

  datatype Mode = Undecided | Unary | Sse | Ignore

  datatype State = Complete | Failed | Incomplete | Canceled | ClosedEarly

  // What the body does to its parser and its transport, in order.
  datatype Event =
    | BeginOversized
    | FeedOversized(bytes: string)
    | FinishUnary(body: string)
    | FinishOversized
    | Frame(bytes: string)        // one read handed to the event framer
    | Probe                       // the zero-data probe at the end of a stream
    | AskComplete                 // whether the salvaged bytes are a whole document
    | Finalize(state: State)

  // How the parser answers: `at` counts the callbacks of one step that return
  // before one panics.
  datatype Answer = Proceeds | Panics(at: nat) | Ends(state: State)

  datatype Config = Config(chunked: bool, capBytes: nat, validJson: string -> bool)

  // `seen` records the bytes that reached the inspection.
  datatype Body = Body(mode: Mode, finalized: bool, frozen: bool, parsePanic: bool, sniff: string, unary: string,
                       unaryOver: bool, unaryChunked: bool, events: seq<Event>, seen: string)

  function Fresh(mode: Mode): Body { Body(mode, false, false, false, "", "", false, false, [], "") }

  // ---- sniffing ----

  const SNIFF_LIMIT: nat := 16

  predicate IsSpace(b: char) { b == ' ' || b == '\t' || b == '\r' || b == '\n' }

  function TrimLeft(s: string): string { if s != "" && IsSpace(s[0]) then TrimLeft(s[1..]) else s }

  predicate NamesField(s: string) { "data" <= s || "event" <= s || "id" <= s || "retry" <= s }

  predicate StartsField(s: string) { s <= "data" || s <= "event" || s <= "id" || s <= "retry" }

  /** JSON starts with a value; events start with a comment or a field name. */
  function SniffDecide(prefix: string): Mode {
    var s := TrimLeft(prefix);
    if s == "" then Undecided
    else if s[0] == ':' || NamesField(s) then Sse
    else if StartsField(s) then Undecided
    else Unary
  }

  function Sniffed(prefix: string): Mode {
    if SniffDecide(prefix).Undecided? && |prefix| > SNIFF_LIMIT then Unary else SniffDecide(prefix)
  }

  // ---- steps ----

  function Log(b: Body, e: Event): Body { b.(events := b.events + [e]) }

  function Recover(b: Body): Body { b.(mode := Ignore, parsePanic := true) }

  function Finalized(b: Body, state: State): Body {
    if b.finalized then b
    else Log(b, Finalize(state)).(
           finalized := true, frozen := b.frozen || state.Complete? || state.Failed? || state.Incomplete?)
  }

  /** The retained prefix is replayed before the read that breaks the cap. */
  function GoOversized(c: Config, b: Body, p: string, a: Answer): Body {
    if !c.chunked then b.(unary := "", unaryOver := true)
    else
      var b1 := Log(b, BeginOversized);
      var b2 := Log(b1, FeedOversized(b.unary));
      var b3 := Log(b2, FeedOversized(p));
      if a == Panics(0) then Recover(b1)
      else if a == Panics(1) then Recover(b2)
      else if a.Panics? then Recover(b3)
      else b3.(unary := "", unaryOver := true, unaryChunked := true)
  }

  function Consume(c: Config, b: Body, p: string, a: Answer): Body {
    match b.mode
    case Unary =>
      if b.unaryOver then
        if !b.unaryChunked then b
        else if a.Panics? then Recover(Log(b, FeedOversized(p))) else Log(b, FeedOversized(p))
      else if |b.unary| + |p| > c.capBytes then GoOversized(c, b, p, a)
      else b.(unary := b.unary + p)
    case Sse =>
      var framed := Log(b, Frame(p));
      if a.Panics? then Recover(framed) else if a.Ends? then Finalized(framed, a.state) else framed
    case _ => b
  }

  predicate Inspects(b: Body) { !b.finalized && !b.frozen && !b.mode.Ignore? }

  function Process(c: Config, b: Body, p: string, a: Answer): Body {
    if !Inspects(b) then b
    else
      var s := b.(seen := b.seen + p);
      if b.mode.Undecided? then
        var sniff := b.sniff + p;
        var mode := Sniffed(sniff);
        if mode.Undecided? then s.(sniff := sniff) else Consume(c, s.(mode := mode, sniff := ""), sniff, a)
      else Consume(c, s, p, a)
  }

  // How a read can end besides returning bytes.
  datatype End = More | Eof(probeSuccess: bool, pending: bool) | Error(canceled: bool)

  function FinishWith(b: Body, e: Event, a: Answer, state: State): Body {
    if a.Panics? then Recover(Log(b, e)) else Finalized(Log(b, e), state)
  }

  function TerminalRead(c: Config, b: Body, end: End, a: Answer): Body {
    if b.finalized then b
    else match end
      case More => b
      case Error(canceled) => Finalized(b, if canceled then Canceled else Failed)
      case Eof(success, pending) =>
        match b.mode
        case Ignore => Finalized(b, Complete)
        case Sse => FinishWith(b, Probe, a, if success && !pending then Complete else Incomplete)
        case _ =>
          if !b.unaryOver then FinishWith(b, FinishUnary(if b.mode.Undecided? then b.sniff else b.unary), a, Complete)
          else if b.unaryChunked then FinishWith(b, FinishOversized, a, Complete)
          else Finalized(b, Complete)
  }

  // The answer of the salvage sink when it is asked; a panic here is not
  // recovered and leaves through Close.
  datatype Completeness = Whole | Partial | Broken

  /** Close completes a body whose bytes already are a whole document. */
  function CloseTelemetry(c: Config, b: Body, whole: Completeness, a: Answer): Body {
    if b.finalized then b
    else
      var body := if b.mode.Undecided? then b.sniff else b.unary;
      var unary := b.mode.Unary? || b.mode.Undecided?;
      if unary && !b.unaryOver && body != "" && c.validJson(body) then FinishWith(b, FinishUnary(body), a, Complete)
      else if unary && b.unaryChunked then
        var asked := Log(b, AskComplete);
        match whole
        case Whole => FinishWith(asked, FinishOversized, a, Complete)
        case Partial => Finalized(asked, ClosedEarly)
        case Broken => asked
      else Finalized(b, ClosedEarly)
  }

  datatype Action =
    | Read(bytes: string, answer: Answer, end: End, endAnswer: Answer)
    | Close(whole: Completeness, answer: Answer)   // also the abandonment safety net

  function Act(c: Config, b: Body, x: Action): Body {
    match x
    case Read(p, a, end, ea) => TerminalRead(c, if p == "" then b else Process(c, b, p, a), end, ea)
    case Close(whole, a) => CloseTelemetry(c, b, whole, a)
  }

  function Run(c: Config, b: Body, actions: seq<Action>): Body
    decreases |actions|
  {
    if actions == [] then b else Run(c, Act(c, b, actions[0]), actions[1..])
  }

  // ---- what every run keeps ----

  predicate Ended(events: seq<Event>) { events != [] && events[|events| - 1].Finalize? }

  predicate OneEnd(events: seq<Event>) { forall i :: 0 <= i < |events| - 1 ==> !events[i].Finalize? }

  function Salvaged(events: seq<Event>): string {
    if events == [] then ""
    else Salvaged(events[..|events| - 1]) +
         (var e := events[|events| - 1]; if e.FeedOversized? then e.bytes else "")
  }

  function Framed(events: seq<Event>): string {
    if events == [] then ""
    else Framed(events[..|events| - 1]) + (var e := events[|events| - 1]; if e.Frame? then e.bytes else "")
  }

  /** Where the bytes read are, in each mode. */
  ghost predicate BytesOk(c: Config, b: Body) {
    && (b.mode.Undecided? ==> b.sniff == b.seen && b.unary == "" && !b.unaryOver)
    && (b.mode.Unary? ==> b.sniff == "" && (if b.unaryOver then |b.seen| > c.capBytes else b.unary == b.seen))
    && (b.mode.Sse? ==> Framed(b.events) == b.seen && !b.unaryOver)
    && (b.unaryOver && b.mode.Unary? ==> b.unaryChunked == c.chunked)
    && (b.unaryChunked && b.mode.Unary? ==> Salvaged(b.events) == b.seen)
    && (b.mode.Undecided? || (b.mode.Unary? && !b.unaryOver) || b.mode.Sse? ==> Salvaged(b.events) == "")
    && (!b.mode.Sse? && !b.mode.Ignore? ==> Framed(b.events) == "")
    && (forall e :: e in b.events ==>
          match e
          case FinishUnary(body) => body == b.seen && (b.finalized || b.mode.Ignore?)
          case FinishOversized => Salvaged(b.events) == b.seen && (b.finalized || b.mode.Ignore?)
          case _ => true)
    && (b.parsePanic ==> b.mode.Ignore?) && (b.unaryChunked ==> b.unaryOver)
  }

  ghost predicate Inv(c: Config, b: Body) {
    && (b.finalized <==> Ended(b.events)) && OneEnd(b.events) && (b.frozen ==> b.finalized)
    && BytesOk(c, b)
  }
}
