/** The body finalizes once, and its parser gets exactly the bytes read. */
module BodyLifecycleProofs {
  import opened BodyLifecycle
  import opened Pieces

  // ---- one more event ----

  lemma Logged(b: Body, e: Event)
    ensures var t := Log(b, e);
            && Salvaged(t.events) == (if e.FeedOversized? then Salvaged(b.events) + e.bytes else Salvaged(b.events))
            && Framed(t.events) == (if e.Frame? then Framed(b.events) + e.bytes else Framed(b.events))
            && Ended(t.events) == e.Finalize? && (OneEnd(b.events) && !Ended(b.events) ==> OneEnd(t.events))
            && forall x :: x in t.events <==> x in b.events || x == e
  {
    var t := Log(b, e);
    assert t.events[..|b.events|] == b.events;
    assert Salvaged(b.events) + "" == Salvaged(b.events) && Framed(b.events) + "" == Framed(b.events);
  }

  lemma FinalizedKeeps(c: Config, b: Body, state: State)
    requires Inv(c, b)
    ensures Inv(c, Finalized(b, state))
  {
    Logged(b, Finalize(state));
    hide Salvaged, Framed, Ended, OneEnd;
  }

  // A panicking parser: nothing is inspected any more.
  lemma RecoverKeeps(c: Config, b: Body)
    requires (b.finalized <==> Ended(b.events)) && OneEnd(b.events) && (b.frozen ==> b.finalized)
    requires b.unaryChunked ==> b.unaryOver
    requires forall e :: e in b.events ==>
               (e.FinishUnary? ==> e.body == b.seen) && (e.FinishOversized? ==> Salvaged(b.events) == b.seen)
    ensures Inv(c, Recover(b))
  {
    hide Salvaged, Framed, Ended, OneEnd;
  }

  lemma FinishKeeps(c: Config, b: Body, e: Event, a: Answer, state: State)
    requires Inv(c, b) && !b.finalized && !b.mode.Ignore?
    requires || (e.FinishUnary? && e.body == b.seen) || e.Probe?
             || (e.FinishOversized? && Salvaged(b.events) == b.seen)
    ensures Inv(c, FinishWith(b, e, a, state))
  {
    Logged(b, e);
    Logged(Log(b, e), Finalize(state));
    hide Salvaged, Framed, Ended, OneEnd;
    if a.Panics? { RecoverKeeps(c, Log(b, e)); }
  }

  // ---- reads ----

  lemma OversizedKeeps(c: Config, b: Body, p: string, a: Answer)
    requires Inv(c, b) && !b.finalized && b.mode.Unary? && !b.unaryOver && |b.seen| + |p| > c.capBytes
    ensures Inv(c, GoOversized(c, b.(seen := b.seen + p), p, a))
  {
    var s := b.(seen := b.seen + p);
    Logged(s, BeginOversized);
    Logged(Log(s, BeginOversized), FeedOversized(s.unary));
    Logged(Log(Log(s, BeginOversized), FeedOversized(s.unary)), FeedOversized(p));
    hide Salvaged, Framed, Ended, OneEnd;
    NoFinish(c, b);
    assert "" + b.unary == b.unary;
  }

  // Before the end nothing has been finished.
  lemma NoFinish(c: Config, b: Body)
    requires BytesOk(c, b) && !b.finalized && !b.mode.Ignore?
    ensures forall e :: e in b.events ==> !e.FinishUnary? && !e.FinishOversized?
  {
    hide Salvaged, Framed;
  }

  /** A read in a decided mode. `b` already has the bytes in `seen`. */
  lemma ConsumeKeeps(c: Config, b: Body, p: string, a: Answer)
    requires Inv(c, b) && Inspects(b) && !b.mode.Undecided?
    ensures Inv(c, Consume(c, b.(seen := b.seen + p), p, a))
  {
    hide Salvaged, Framed, Ended, OneEnd;
    var s := b.(seen := b.seen + p);
    NoFinish(c, b);
    if b.mode.Unary? && !b.unaryOver && |b.unary| + |p| > c.capBytes {
      OversizedKeeps(c, b, p, a);
    } else if b.mode.Unary? && b.unaryOver && b.unaryChunked {
      Logged(s, FeedOversized(p));
      RecoverKeeps(c, Log(s, FeedOversized(p)));
    } else if b.mode.Sse? {
      Logged(s, Frame(p));
      RecoverKeeps(c, Log(s, Frame(p)));
      if a.Ends? { FinalizedKeeps(c, Log(s, Frame(p)), a.state); }
    }
  }

  lemma ProcessKeeps(c: Config, b: Body, p: string, a: Answer)
    requires Inv(c, b)
    ensures Inv(c, Process(c, b, p, a))
  {
    hide Salvaged, Framed, Ended, OneEnd, Sniffed, Consume;
    if Inspects(b) && b.mode.Undecided? {
      NoFinish(c, b);
      var sniff := b.sniff + p;
      var d := b.(mode := Sniffed(sniff), sniff := "", seen := "");
      if Sniffed(sniff).Unary? || Sniffed(sniff).Sse? {
        // The sniffed prefix is consumed as one read of a fresh body.
        ConsumeKeeps(c, d, sniff, a);
        assert d.(seen := d.seen + sniff) == b.(seen := b.seen + p).(mode := Sniffed(sniff), sniff := "");
      } else {
        SniffedMode(sniff);
      }
    } else if Inspects(b) {
      ConsumeKeeps(c, b, p, a);
    }
  }

  lemma SniffedMode(s: string)
    ensures !Sniffed(s).Ignore?
  {
  }

  lemma TerminalKeeps(c: Config, b: Body, end: End, a: Answer)
    requires Inv(c, b)
    ensures Inv(c, TerminalRead(c, b, end, a))
  {
    hide Salvaged, Framed, Ended, OneEnd, FinishWith, Finalized;
    if !b.finalized && end.Error? {
      FinalizedKeeps(c, b, if end.canceled then Canceled else Failed);
    } else if !b.finalized && end.Eof? {
      if b.mode.Ignore? {
        FinalizedKeeps(c, b, Complete);
      } else if b.mode.Sse? {
        FinishKeeps(c, b, Probe, a, if end.probeSuccess && !end.pending then Complete else Incomplete);
      } else if !b.unaryOver {
        FinishKeeps(c, b, FinishUnary(if b.mode.Undecided? then b.sniff else b.unary), a, Complete);
      } else if b.unaryChunked {
        FinishKeeps(c, b, FinishOversized, a, Complete);
      } else {
        FinalizedKeeps(c, b, Complete);
      }
    }
  }

  // Asking the salvage sink changes nothing but the log.
  lemma AskKeeps(c: Config, b: Body)
    requires Inv(c, b) && !b.finalized && !b.mode.Ignore?
    ensures Inv(c, Log(b, AskComplete))
  {
    Logged(b, AskComplete);
    hide Salvaged, Framed, Ended, OneEnd;
  }

  lemma CloseKeeps(c: Config, b: Body, whole: Completeness, a: Answer)
    requires Inv(c, b)
    ensures Inv(c, CloseTelemetry(c, b, whole, a))
  {
    hide Salvaged, Framed, Ended, OneEnd, FinishWith, Finalized;
    if !b.finalized {
      var body := if b.mode.Undecided? then b.sniff else b.unary;
      FinalizedKeeps(c, b, ClosedEarly);
      if b.mode.Unary? || b.mode.Undecided? {
        if !b.unaryOver { FinishKeeps(c, b, FinishUnary(body), a, Complete); }
        if b.unaryChunked {
          var asked := Log(b, AskComplete);
          AskKeeps(c, b);
          Logged(b, AskComplete);
          FinalizedKeeps(c, asked, ClosedEarly);
          if b.mode.Unary? { FinishKeeps(c, asked, FinishOversized, a, Complete); }
        }
      }
    }
  }

  lemma ActKeeps(c: Config, b: Body, x: Action)
    requires Inv(c, b)
    ensures Inv(c, Act(c, b, x))
  {
    hide Inv, Process, TerminalRead, CloseTelemetry;
    match x
    case Read(p, a, end, ea) =>
      ProcessKeeps(c, b, p, a);
      TerminalKeeps(c, if p == "" then b else Process(c, b, p, a), end, ea);
    case Close(whole, a) => CloseKeeps(c, b, whole, a);
  }

  lemma {:induction false} RunKeeps(c: Config, b: Body, actions: seq<Action>)
    requires Inv(c, b)
    ensures Inv(c, Run(c, b, actions))
    decreases |actions|
  {
    hide Inv, Act;
    if actions != [] {
      ActKeeps(c, b, actions[0]);
      RunKeeps(c, Act(c, b, actions[0]), actions[1..]);
    }
  }

  // ---- what transport and parser rely on ----

  /** Over every sequence of reads, errors, closes and parser panics the body
      is finalized at most once, and no callback follows. */
  lemma FinalizesOnce(c: Config, mode: Mode, actions: seq<Action>)
    ensures OneEnd(Run(c, Fresh(mode), actions).events)
  {
    RunKeeps(c, Fresh(mode), actions);
    hide Run;
  }

  /** The parser is finished with exactly the bytes read, and the salvage path
      or the framer is fed exactly those bytes, sniffed prefix included. */
  lemma ParserGetsTheBytes(c: Config, mode: Mode, actions: seq<Action>)
    ensures var b := Run(c, Fresh(mode), actions);
            && (forall body :: FinishUnary(body) in b.events ==> body == b.seen)
            && (FinishOversized in b.events ==> Salvaged(b.events) == b.seen)
            && (b.mode.Unary? && b.unaryChunked ==> Salvaged(b.events) == b.seen)
            && (b.mode.Sse? ==> Framed(b.events) == b.seen)
  {
    RunKeeps(c, Fresh(mode), actions);
    hide Run, Salvaged, Framed;
  }

  function Bytes(actions: seq<Action>): string {
    if actions == [] then ""
    else (if actions[0].Read? then actions[0].bytes else "") + Bytes(actions[1..])
  }

  lemma ProcessSeen(c: Config, b: Body, p: string, a: Answer)
    ensures var t := Process(c, b, p, a);
            t.seen == (if Inspects(b) then b.seen + p else b.seen) && (Inspects(t) ==> Inspects(b))
  {
    hide Sniffed;
  }

  lemma FinishSeen(b: Body, e: Event, a: Answer, state: State)
    ensures FinishWith(b, e, a, state).seen == Finalized(b, state).seen == b.seen
    ensures (Inspects(FinishWith(b, e, a, state)) ==> Inspects(b)) && (Inspects(Finalized(b, state)) ==> Inspects(b))
  {
  }

  lemma AskSeen(b: Body)
    ensures Log(b, AskComplete).seen == b.seen && (Inspects(Log(b, AskComplete)) <==> Inspects(b))
  {
  }

  lemma EndSeen(c: Config, b: Body, end: End, a: Answer, whole: Completeness)
    ensures TerminalRead(c, b, end, a).seen == b.seen && (Inspects(TerminalRead(c, b, end, a)) ==> Inspects(b))
    ensures CloseTelemetry(c, b, whole, a).seen == b.seen && (Inspects(CloseTelemetry(c, b, whole, a)) ==> Inspects(b))
  {
    hide FinishWith, Finalized, Inspects;
    AskSeen(b);
    forall m: Body, e, state
      ensures FinishWith(m, e, a, state).seen == m.seen && (Inspects(FinishWith(m, e, a, state)) ==> Inspects(m)) {
      FinishSeen(m, e, a, state);
    }
    forall m: Body, state
      ensures Finalized(m, state).seen == m.seen && (Inspects(Finalized(m, state)) ==> Inspects(m)) {
      FinishSeen(m, Probe, a, state);
    }
  }

  lemma ActSeen(c: Config, b: Body, x: Action)
    ensures var t := Act(c, b, x);
            && t.seen == (if x.Read? && Inspects(b) then b.seen + x.bytes else b.seen)
            && (Inspects(t) ==> Inspects(b))
  {
    hide Process, TerminalRead, CloseTelemetry;
    match x
    case Read(p, a, end, ea) =>
      assert b.seen + "" == b.seen;
      ProcessSeen(c, b, p, a);
      EndSeen(c, if p == "" then b else Process(c, b, p, a), end, ea, Partial);
    case Close(whole, a) => EndSeen(c, b, More, a, whole);
  }

  /** What was inspected is a prefix of what was read, and all of it while the
      body is neither finalized nor given up. */
  lemma {:induction false} SeenIsRead(c: Config, b: Body, actions: seq<Action>)
    ensures var t := Run(c, b, actions);
            && b.seen <= t.seen <= b.seen + Bytes(actions)
            && (Inspects(t) ==> Inspects(b) && t.seen == b.seen + Bytes(actions))
    decreases |actions|
  {
    hide Act, Inspects;
    if actions == [] {
      assert b.seen + "" == b.seen;
    } else {
      var m := Act(c, b, actions[0]);
      ActSeen(c, b, actions[0]);
      SeenIsRead(c, m, actions[1..]);
      if Inspects(b) {
        var here := if actions[0].Read? then actions[0].bytes else "";
        Joined(b.seen, here, Bytes(actions[1..]), Run(c, m, actions[1..]).seen);
      } else {
        Unseen(c, m, actions[1..]);
      }
    }
  }

  lemma Joined(a: string, b: string, c: string, t: string)
    ensures a + (b + c) == (a + b) + c && a <= a + b
    ensures a + b <= t ==> a <= t
    ensures b == "" ==> a + b == a
  {
  }

  lemma {:induction false} Unseen(c: Config, b: Body, actions: seq<Action>)
    requires !Inspects(b)
    ensures Run(c, b, actions).seen == b.seen && !Inspects(Run(c, b, actions))
    decreases |actions|
  {
    if actions != [] {
      ActSeen(c, b, actions[0]);
      hide Act;
      Unseen(c, Act(c, b, actions[0]), actions[1..]);
    }
  }

  // ---- sniffing ----

  function Leading(s: string): nat { if s != "" && IsSpace(s[0]) then 1 + Leading(s[1..]) else 0 }

  lemma {:induction false} TrimmedLength(s: string)
    ensures |TrimLeft(s)| == |s| - Leading(s)
    decreases |s|
  {
    if s != "" && IsSpace(s[0]) { TrimmedLength(s[1..]); }
  }

  lemma {:induction false} TrimMore(s: string, more: string)
    ensures TrimLeft(s) != "" ==> TrimLeft(s + more) == TrimLeft(s) + more && Leading(s + more) == Leading(s)
    ensures TrimLeft(s) == "" ==> Leading(s) == |s| <= Leading(s + more)
    decreases |s|
  {
    if s != "" && IsSpace(s[0]) {
      assert (s + more)[0] == s[0] && (s + more)[1..] == s[1..] + more;
      TrimMore(s[1..], more);
    } else if s != "" {
      assert (s + more)[0] == s[0];
    }
  }

  lemma FieldMore(t: string, more: string)
    requires t != ""
    ensures NamesField(t) ==> NamesField(t + more)
    ensures !NamesField(t) && !StartsField(t) ==> !NamesField(t + more) && !StartsField(t + more)
    ensures |t| >= 5 && StartsField(t) ==> NamesField(t)
  {
    var u := t + more;
    assert forall i :: 0 <= i < |t| ==> u[i] == t[i];
  }

  /** A decision stays whatever follows. */
  lemma SniffStays(s: string, more: string)
    requires !SniffDecide(s).Undecided?
    ensures SniffDecide(s + more) == SniffDecide(s)
  {
    TrimMore(s, more);
    FieldMore(TrimLeft(s), more);
    hide NamesField, StartsField;
  }

  /** With at most 12 bytes of leading white space the limit never forces a
      decision. */
  lemma SniffInTime(s: string)
    requires Leading(s) <= 12 && |s| > SNIFF_LIMIT
    ensures !SniffDecide(s).Undecided?
  {
    TrimmedLength(s);
    FieldMore(TrimLeft(s), "");
    hide NamesField, StartsField;
  }

  /** The mode a body settles in when it reads these pieces. */
  function Settles(buffered: string, pieces: seq<string>): Mode
    decreases |pieces|
  {
    if pieces == [] then Undecided
    else
      var sniff := buffered + pieces[0];
      if Sniffed(sniff).Undecided? then Settles(sniff, pieces[1..]) else Sniffed(sniff)
  }

  lemma {:induction false} LeadingPrefix(s: string, more: string)
    ensures Leading(s) <= Leading(s + more)
  {
    TrimMore(s, more);
  }

  /** The sniffed mode does not depend on how the bytes arrive, as long as at
      most 12 bytes of white space lead. */
  lemma {:induction false} SniffIgnoresSplits(buffered: string, pieces: seq<string>)
    requires Leading(buffered + Flatten(pieces)) <= 12 && SniffDecide(buffered).Undecided?
    ensures Settles(buffered, pieces) == SniffDecide(buffered + Flatten(pieces))
    decreases |pieces|
  {
    hide SniffDecide;
    if pieces == [] {
      assert buffered + "" == buffered;
    } else {
      var sniff := buffered + pieces[0];
      assert buffered + Flatten(pieces) == sniff + Flatten(pieces[1..]);
      LeadingPrefix(sniff, Flatten(pieces[1..]));
      if |sniff| > SNIFF_LIMIT { SniffInTime(sniff); }
      if SniffDecide(sniff).Undecided? {
        SniffIgnoresSplits(sniff, pieces[1..]);
      } else {
        SniffStays(sniff, Flatten(pieces[1..]));
      }
    }
  }

  // Reads that return these pieces to a parser that neither panics nor ends.
  function Reads(pieces: seq<string>): seq<Action> {
    if pieces == [] then [] else [Read(pieces[0], Proceeds, More, Proceeds)] + Reads(pieces[1..])
  }

  lemma ReadsCons(c: Config, b: Body, pieces: seq<string>)
    requires pieces != []
    ensures Run(c, b, Reads(pieces)) ==
            Run(c, if pieces[0] == "" then b else Process(c, b, pieces[0], Proceeds), Reads(pieces[1..]))
  {
    assert Reads(pieces)[0] == Read(pieces[0], Proceeds, More, Proceeds) && Reads(pieces)[1..] == Reads(pieces[1..]);
    hide Process;
  }

  lemma {:induction false} DecidedStays(c: Config, b: Body, pieces: seq<string>)
    requires !b.mode.Undecided?
    ensures Run(c, b, Reads(pieces)).mode == b.mode
    decreases |pieces|
  {
    if pieces != [] {
      ReadsCons(c, b, pieces);
      hide Run, Reads;
      DecidedStays(c, if pieces[0] == "" then b else Process(c, b, pieces[0], Proceeds), pieces[1..]);
    }
  }

  lemma ProcessSniffs(c: Config, b: Body, p: string)
    requires b.mode.Undecided? && !b.finalized && !b.frozen
    ensures var t, sniff := Process(c, b, p, Proceeds), b.sniff + p;
            && t.mode == Sniffed(sniff)
            && (t.mode.Undecided? ==> !t.finalized && !t.frozen && t.sniff == sniff)
  {
    hide SniffDecide;
  }

  lemma {:induction false} ReadsSettle(c: Config, b: Body, pieces: seq<string>)
    requires b.mode.Undecided? && !b.finalized && !b.frozen && Sniffed(b.sniff).Undecided?
    ensures Run(c, b, Reads(pieces)).mode == Settles(b.sniff, pieces)
    decreases |pieces|
  {
    if pieces != [] {
      ReadsCons(c, b, pieces);
      ProcessSniffs(c, b, pieces[0]);
      hide Run, Reads, Sniffed, Process;
      assert pieces[0] == "" ==> b.sniff + pieces[0] == b.sniff;
      var t := if pieces[0] == "" then b else Process(c, b, pieces[0], Proceeds);
      if t.mode.Undecided? {
        ReadsSettle(c, t, pieces[1..]);
      } else {
        DecidedStays(c, t, pieces[1..]);
      }
    }
  }

  /** The mode of a body after any reads of the same bytes is the same. */
  lemma ModeIgnoresSplits(c: Config, pieces: seq<string>)
    requires Leading(Flatten(pieces)) <= 12
    ensures Run(c, Fresh(Undecided), Reads(pieces)).mode == SniffDecide(Flatten(pieces))
  {
    assert "" + Flatten(pieces) == Flatten(pieces);
    ReadsSettle(c, Fresh(Undecided), pieces);
    SniffIgnoresSplits("", pieces);
    hide Run;
  }

  function Spaces(n: nat): string { if n == 0 then "" else " " + Spaces(n - 1) }

  lemma {:induction false} SpacesTrimmed(n: nat, s: string)
    requires s != "" && !IsSpace(s[0])
    ensures TrimLeft(Spaces(n) + s) == s && |Spaces(n)| == n && Leading(Spaces(n) + s) == n
  {
    if n == 0 {
      assert "" + s == s;
    } else {
      assert (Spaces(n) + s)[0] == ' ' && (Spaces(n) + s)[1..] == Spaces(n - 1) + s;
      SpacesTrimmed(n - 1, s);
    }
  }

  /** The bound is exact: with any more white space the split can decide. */
  lemma SniffBoundIsTight(c: Config, n: nat)
    requires n > 12
    ensures var whole := Spaces(n) + "event";
            && Leading(whole) == n && Flatten([whole]) == Flatten([Spaces(n) + "even", "t"]) == whole
            && Run(c, Fresh(Undecided), Reads([whole])).mode == Sse
            && Run(c, Fresh(Undecided), Reads([Spaces(n) + "even", "t"])).mode == Unary
  {
    hide Run, Reads;
    assert Flatten([Spaces(n) + "even", "t"]) == Spaces(n) + "even" + Flatten(["t"]);
    assert Spaces(n) + "even" + "t" == Spaces(n) + "event";
    ReadsSettle(c, Fresh(Undecided), [Spaces(n) + "event"]);
    ReadsSettle(c, Fresh(Undecided), [Spaces(n) + "even", "t"]);
    SpacesTrimmed(n, "event");
    SpacesTrimmed(n, "even");
    assert "" + (Spaces(n) + "event") == Spaces(n) + "event";
    assert "" + (Spaces(n) + "even") == Spaces(n) + "even";
    assert !NamesField("even") && StartsField("even");
    assert Sniffed(Spaces(n) + "even") == Unary;
    assert Sniffed(Spaces(n) + "event") == Sse;
    assert [Spaces(n) + "even", "t"][0] == Spaces(n) + "even";
  }
}
