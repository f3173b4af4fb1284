/** The response-body wrapper as an object
    (contrib/openai/internal/wiretap/body.go): each method is the step of
    `BodyLifecycle` on `View()`. `events` is the sequence of calls it makes. */
module BodyWrapper {
  import opened BodyLifecycle

  class Wrapper {
    const config: Config
    var mode: Mode
    var finalized: bool
    var frozen: bool
    var parsePanic: bool
    var sniff: string
    var unary: string
    var unaryOver: bool
    var unaryChunked: bool
    var events: seq<Event>
    ghost var seen: string

    constructor (config: Config, mode: Mode)
      ensures View() == Fresh(mode) && this.config == config
    {
      this.config := config;
      this.mode, finalized, frozen, parsePanic := mode, false, false, false;
      sniff, unary, unaryOver, unaryChunked, events, seen := "", "", false, false, [], "";
    }

    ghost function View(): Body
      reads this
    {
      Body(mode, finalized, frozen, parsePanic, sniff, unary, unaryOver, unaryChunked, events, seen)
    }

    method Emit(e: Event)
      modifies this`events
      ensures View() == Log(old(View()), e)
    {
      events := events + [e];
    }

    /** A parser panic degrades telemetry, never the read. */
    method RecoverParse()
      modifies this`mode, this`parsePanic
      ensures View() == Recover(old(View()))
    {
      mode, parsePanic := Ignore, true;
    }

    method FinalizeLocked(state: State)
      modifies this`frozen, this`finalized, this`events
      ensures View() == Finalized(old(View()), state)
    {
      if finalized { return; }
      if state == Complete || state == Failed || state == Incomplete {
        frozen := true;
      }
      finalized := true;
      Emit(Finalize(state));
    }

    method Process(p: string, a: Answer)
      modifies this
      ensures View() == BodyLifecycle.Process(config, old(View()), p, a)
    {
      if finalized || frozen || mode == Ignore { return; }
      seen := seen + p;
      var bytes := p;
      if mode == Undecided {
        sniff := sniff + p;
        mode := SniffDecide(sniff);
        if mode == Undecided {
          if |sniff| > SNIFF_LIMIT { mode := Unary; } else { return; }
        }
        bytes := sniff;
        sniff := "";
      }
      Consume(bytes, a);
    }

    method Consume(p: string, a: Answer)
      modifies this
      ensures View() == BodyLifecycle.Consume(config, old(View()), p, a)
    {
      if mode == Unary {
        if unaryOver {
          if unaryChunked {
            Emit(FeedOversized(p));
            if a.Panics? { RecoverParse(); }
          }
          return;
        }
        if |unary| + |p| > config.capBytes {
          GoOversized(p, a);
          return;
        }
        unary := unary + p;
      } else if mode == Sse {
        Emit(Frame(p));
        if a.Panics? { RecoverParse(); } else if a.Ends? { FinalizeLocked(a.state); }
      }
    }

    method GoOversized(p: string, a: Answer)
      modifies this
      ensures View() == BodyLifecycle.GoOversized(config, old(View()), p, a)
    {
      if config.chunked {
        Emit(BeginOversized);
        if a == Panics(0) { RecoverParse(); return; }
        Emit(FeedOversized(unary));
        if a == Panics(1) { RecoverParse(); return; }
        Emit(FeedOversized(p));
        if a.Panics? { RecoverParse(); return; }
        unaryChunked := true;
      }
      unary := "";
      unaryOver := true;
    }

    method Finish(e: Event, a: Answer, state: State)
      modifies this
      ensures View() == FinishWith(old(View()), e, a, state)
    {
      Emit(e);
      if a.Panics? { RecoverParse(); } else { FinalizeLocked(state); }
    }

    method TerminalRead(end: End, a: Answer)
      modifies this
      ensures View() == BodyLifecycle.TerminalRead(config, old(View()), end, a)
    {
      if finalized || end.More? { return; }
      if end.Eof? {
        if mode == Unary || mode == Undecided {
          if !unaryOver {
            Finish(FinishUnary(if mode == Undecided then sniff else unary), a, Complete);
          } else if unaryChunked {
            Finish(FinishOversized, a, Complete);
          } else {
            FinalizeLocked(Complete);
          }
        } else if mode == Ignore {
          FinalizeLocked(Complete);
        } else {
          Finish(Probe, a, if end.probeSuccess && !end.pending then Complete else Incomplete);
        }
        return;
      }
      FinalizeLocked(if end.canceled then Canceled else Failed);
    }

    method CloseTelemetry(whole: Completeness, a: Answer)
      modifies this
      ensures View() == BodyLifecycle.CloseTelemetry(config, old(View()), whole, a)
    {
      if finalized { return; }
      if mode == Unary || mode == Undecided {
        var body := if mode == Undecided then sniff else unary;
        if !unaryOver && |body| > 0 && config.validJson(body) {
          Finish(FinishUnary(body), a, Complete);
          return;
        }
        if unaryChunked {
          Emit(AskComplete);
          if whole == Broken { return; }
          if whole == Whole {
            Finish(FinishOversized, a, Complete);
            return;
          }
        }
      }
      FinalizeLocked(ClosedEarly);
    }

    method Read(p: string, a: Answer, end: End, endAnswer: Answer)
      modifies this
      ensures View() == Act(config, old(View()), BodyLifecycle.Read(p, a, end, endAnswer))
    {
      if |p| > 0 { Process(p, a); }
      TerminalRead(end, endAnswer);
    }
  }
}
