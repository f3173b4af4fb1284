/** The bounded incremental framer and the over-cap lexer as the source keeps
    them (contrib/openai/internal/wiretap/sse.go). `delivered` and `partial`
    stand for the consumer: the payloads handed over so far and the chunks of
    the one being streamed. */
module SseFramer {
  import opened Pieces
  import opened SseBlocks
  import opened SseChunks
  import L = SseLexer

  /** The raw block search, as a loop. */
  method FindNextEvent(buf: string) returns (r: Option<Cut>)
    ensures r == NextEvent(buf)
  {
    for i := 0 to |buf|
      invariant forall j: nat :: j < i ==> !EndsAt(buf, j)
    {
      if buf[i] != '\n' { continue; }
      var j := i + 1;
      if j < |buf| && buf[j] == '\r' { j := j + 1; }
      if j < |buf| && buf[j] == '\n' {
        NextEventIs(buf, i);
        return Some(Cut(buf[..i + 1], j == i + 2, buf[j + 1..]));
      }
    }
    NoNextEvent(buf);
    r := None;
  }

  /** The payload of a raw block, line by line. */
  method ReadData(block: string) returns (data: string, hasData: bool)
    ensures Data(hasData, data) == EventData(block)
  {
    var event := block;
    data, hasData := "", false;
    while |event| > 0
      invariant EventDataFrom(Data(hasData, data), event) == EventData(block)
      decreases |event|
    {
      var k := IndexOf(event, '\n');
      var line := TrimCr(event[..k]);
      assert event[..|event|] == event;
      event := if k < |event| then event[k + 1..] else "";
      if line == "" || line[0] == ':' { continue; }
      var value := DataField(line);
      if value.None? { continue; }
      if hasData { data := data + "\n"; }
      data := data + value.value;
      hasData := true;
    }
  }

  class OversizedLexer {
    var state: L.State
    var field: string
    var sawData: bool
    var heldCr: bool
    var out: string

    constructor ()
      ensures View() == L.INITIAL
    {
      state, field, sawData, heldCr, out := L.LineStart, "", false, false, "";
    }

    ghost function View(): L.Lexer
      reads this
    {
      L.Lexer(state, field, sawData, heldCr, out)
    }

    method BeginDataValue()
      modifies this`out, this`sawData
      ensures View() == L.Begin(old(View()))
    {
      if sawData { out := out + "\n"; }
      sawData := true;
    }

    method EndFieldOnlyLine()
      modifies this
      ensures View() == L.EndFieldOnly(old(View()))
    {
      if field == "data" { BeginDataValue(); }
      state := L.LineStart;
    }

    /** Handles one byte outside a data value; `used` is false when only the
        state changed and the byte is to be handled again. */
    method LexLine(b: char) returns (used: bool)
      requires !L.Ends(View(), b) && state != L.DataValue
      modifies this
      ensures if used then View() == L.LexByte(old(View()), b)
              else L.LexByte(View(), b) == L.LexByte(old(View()), b) && !L.Ends(View(), b)
                   && L.Pending(state) < L.Pending(old(state))
    {
      used := true;
      if state == L.LineStart {
        if b == '\r' { state := L.LineStartCr; }
        else if b == ':' { state := L.SkipLine; }
        else { field, state := [b], L.FieldName; }
      } else if state == L.LineStartCr {
        state, used := L.SkipLine, false; // a stray CR starts an ordinary line
      } else if state == L.FieldName {
        if b == ':' { state := if field == "data" then L.DataValueStart else L.SkipLine; }
        else if b == '\n' { EndFieldOnlyLine(); }
        else if b == '\r' { state := L.FieldCr; }
        else if |field| >= L.MAX_FIELD { state, used := L.SkipLine, false; }
        else { field := field + [b]; }
      } else if state == L.FieldCr {
        if b == '\n' { EndFieldOnlyLine(); } else { state, used := L.SkipLine, false; }
      } else if state == L.DataValueStart {
        BeginDataValue();
        state, used := L.DataValue, b == ' ';
      } else if b == '\n' {
        state := L.LineStart;
      }
    }

    /** Handles at least one byte of a data value. */
    method TakeValue(p: string, index: nat) returns (next: nat)
      requires state == L.DataValue && index < |p|
      modifies this
      ensures index < next <= |p|
      ensures L.Lex(old(View()), p[index..]) == L.After(next - index, L.Lex(View(), p[next..]))
    {
      hide L.Lex;
      ghost var rest := p[index..];
      assert rest[1..] == p[index + 1..];
      L.LexOne(View(), rest);
      if heldCr {
        heldCr := false;
        if p[index] == '\n' {
          state := L.LineStart;
          return index + 1;
        }
        out := out + "\r";
        L.LexAgain(old(View()), View(), rest);
      }
      next := TakePlain(p, index);
    }

    // The same with no CR held back: a run of content, or one CR or LF.
    method TakePlain(p: string, index: nat) returns (next: nat)
      requires state == L.DataValue && !heldCr && index < |p|
      modifies this
      ensures index < next <= |p|
      ensures L.Lex(old(View()), p[index..]) == L.After(next - index, L.Lex(View(), p[next..]))
    {
      hide L.Lex;
      ghost var rest := p[index..];
      assert rest[1..] == p[index + 1..];
      L.LexOne(View(), rest);
      var run := index;
      while run < |p| && p[run] != '\n' && p[run] != '\r'
        invariant index <= run <= |p|
        invariant forall i :: index <= i < run ==> p[i] != '\n' && p[i] != '\r'
      {
        run := run + 1;
      }
      if run > index {
        L.LexRun(View(), rest, run - index);
        assert rest[..run - index] == p[index..run] && rest[run - index..] == p[run..];
        out := out + p[index..run];
        return run;
      }
      if p[index] == '\r' { heldCr := true; } else { state := L.LineStart; }
      next := index + 1;
    }

    /** Consumes bytes of the raw block; data content is handed over in runs
        that reach up to the next CR or LF. */
    method Feed(p: string) returns (consumed: nat, done: bool)
      modifies this
      ensures L.Lexed(View(), consumed, done) == L.Lex(old(View()), p)
    {
      hide L.LexByte;
      var index := 0;
      ghost var goal := L.Lex(View(), p);
      assert p[0..] == p;
      while index < |p|
        invariant 0 <= index <= |p|
        invariant goal == L.After(index, L.Lex(View(), p[index..]))
        decreases |p| - index, L.Pending(state)
      {
        assert p[index..][1..] == p[index + 1..];
        if p[index] == '\n' && (state == L.LineStart || state == L.LineStartCr) {
          return index + 1, true;
        }
        if state == L.DataValue {
          index := TakeValue(p, index);
        } else {
          ghost var before := View();
          var used := LexLine(p[index]);
          if used {
            L.LexOne(before, p[index..]);
            index := index + 1;
          } else {
            L.LexAgain(before, View(), p[index..]);
          }
        }
      }
      assert p[index..] == "";
      consumed, done := |p|, false;
    }
  }

  class Framer {
    const maxEvent: nat
    const sink: bool
    const terminal: seq<string> -> bool

    var buf: string
    var discarded: bool
    var dropping: bool
    var stopped: bool
    var lexer: OversizedLexer
    var chunking: bool
    var delivered: seq<string>

    ghost var stream: string // every byte fed so far

    constructor (maxEvent: nat, sink: bool, terminal: seq<string> -> bool)
      ensures Valid() && stream == "" && View() == START && fresh(lexer)
      ensures this.maxEvent == maxEvent && this.sink == sink && this.terminal == terminal
    {
      this.maxEvent, this.sink, this.terminal := maxEvent, sink, terminal;
      buf, discarded, dropping, stopped, chunking, delivered := "", false, false, false, false, [];
      lexer := new OversizedLexer();
      stream := "";
    }

    /** What a stream amounts to for this consumer. */
    ghost function Of(s: string): Delivery { Deliver(maxEvent, sink, terminal, s, []) }

    ghost function View(): Held
      reads this
    {
      Held(buf, dropping, delivered, stopped)
    }

    // The unterminated block, as the framer holds it.
    ghost predicate Holds(tail: string)
      reads this, lexer
    {
      && NextEvent(tail).None?
      && (dropping || chunking ==> |tail| > maxEvent)
      && if chunking then L.Lexed(lexer.View(), |tail|, false) == L.Lex(L.INITIAL, tail)
         else if dropping then NextEvent(buf).None? && MarkOf(buf) == MarkOf(tail)
         else buf == tail
    }

    /** The framer has delivered exactly what `s` amounts to. */
    ghost predicate Exact(s: string)
      reads this, lexer
    {
      && Of(s).payloads == delivered && Of(s).stopped == stopped
      && (!stopped ==> Holds(Of(s).tail))
    }

    // Memory stays bounded whatever arrives.
    ghost predicate Bounded()
      reads this
    {
      && (|buf| <= maxEvent || |buf| <= 2)
      && (chunking ==> sink && !dropping && buf == "") && (dropping ==> !sink) && (stopped ==> buf == "")
    }

    /** On a fair stream the payloads delivered are those of the stream,
        however it was split into reads. */
    ghost predicate Valid()
      reads this, lexer
    {
      Bounded() && (Fair(maxEvent, sink, stream) ==> Exact(stream))
    }

    /** Bytes of an unterminated final block are pending. */
    method Pending() returns (pending: bool)
      requires Valid()
      ensures Fair(maxEvent, sink, stream) && !stopped ==> (pending <==> Of(stream).tail != "")
      ensures !sink ==> (pending <==> buf != "" || dropping)
    {
      pending := |buf| > 0 || dropping || chunking;
    }

    /** Hands one joined payload to the consumer. */
    method Emit(data: string) returns (more: bool)
      modifies this`delivered
      ensures delivered == old(delivered) + [data] && more == !terminal(delivered)
    {
      delivered := delivered + [data];
      more := !terminal(delivered);
    }

    method Stop()
      modifies this`stopped, this`buf
      ensures stopped && buf == ""
    {
      stopped, buf := true, "";
    }

    method DiscardKeepingDelimiterState()
      modifies this`buf, this`discarded, this`dropping
      ensures buf == Keep(old(buf)) && |buf| <= 2 && discarded && dropping
    {
      var n := |buf|;
      if n >= 2 && buf[n - 2] == '\n' && buf[n - 1] == '\r' {
        buf := buf[n - 2..];
      } else if n >= 1 && buf[n - 1] == '\n' {
        buf := buf[n - 1..];
      } else {
        buf := "";
      }
      discarded, dropping := true, true;
    }

    /** An over-cap block that arrived whole goes through a lexer of its own. */
    method Salvage(event: string) returns (more: bool)
      modifies this`delivered
      ensures NextEvent(event + "\n") == Some(Cut(event, false, "")) && !StartsBlank(event + "\n") ==>
                var d := EventData(event);
                && delivered == (if d.has then old(delivered) + [d.joined] else old(delivered))
                && more == !(d.has && terminal(delivered))
    {
      var l := new OversizedLexer();
      var used, done := l.Feed(event);
      used, done := l.Feed("\n");
      if !StartsBlank(event + "\n") {
        L.LexAppend(L.INITIAL, event, "\n");
        L.LexAgrees(L.INITIAL, Data(false, ""), event + "\n");
      }
      more := true;
      if l.sawData {
        more := Emit(l.out);
      }
    }

    ghost function Payload(event: string): Option<string> {
      var d := EventData(event);
      if d.has && (sink || |event| <= maxEvent) then Some(d.joined) else None
    }

    /** Delivers one complete block, if it carries a payload to deliver. */
    method Consume(event: string) returns (more: bool)
      requires NextEvent(event + "\n") == Some(Cut(event, false, ""))
      modifies this`delivered, this`discarded
      ensures !(sink && |event| > maxEvent && StartsBlank(event)) ==>
                var d := Payload(event);
                && delivered == (if d.Some? then old(delivered) + [d.value] else old(delivered))
                && more == !(d.Some? && terminal(delivered))
    {
      if |event| > maxEvent {
        if !sink {
          discarded := true;
          return true;
        }
        BlankStart(event + "\n");
        more := Salvage(event);
      } else {
        var data, hasData := ReadData(event);
        more := true;
        if hasData {
          more := Emit(data);
        }
      }
    }

    // The buffer stands for the work `w`: the buffered bytes themselves, or,
    // while dropping, a block too long whose end the buffer will show.
    ghost predicate Stands(w: string)
      reads this
    {
      if dropping then
        && NextEvent(buf).None? == NextEvent(w).None?
        && match NextEvent(w)
           case None => MarkOf(buf) == MarkOf(w) && |w| > maxEvent
           case Some(c) => NextEvent(buf).value.rest == c.rest && |c.event| + (if c.crlf then 1 else 0) > maxEvent
      else buf == w
    }

    // Delivering the work completes what `goal` asks for.
    ghost predicate Working(w: string, goal: Delivery)
      reads this
    {
      Stands(w) && Fair(maxEvent, sink, w) && Deliver(maxEvent, sink, terminal, w, delivered) == goal
    }

    ghost predicate Reached(goal: Delivery)
      reads this, lexer
    {
      goal.payloads == delivered && goal.stopped == stopped && (!stopped ==> Holds(goal.tail))
    }

    /** Bounds a buffer that holds no complete block. */
    method Bound(ghost fair: bool, ghost w: string, ghost goal: Delivery)
      requires NextEvent(buf).None? && !chunking && !stopped && (dropping ==> !sink)
      requires fair ==> Working(w, goal)
      modifies this`chunking, this`lexer, this`buf, this`discarded, this`dropping
      ensures Bounded() && (lexer == old(lexer) || fresh(lexer)) && (fair ==> Reached(goal))
      ensures if |old(buf)| <= maxEvent then buf == old(buf) && dropping == old(dropping) && !chunking
              else !sink ==> !chunking && dropping && buf == Keep(old(buf))
    {
      if |buf| > maxEvent {
        if sink {
          chunking := true;
          lexer := new OversizedLexer();
          if fair { L.LexAgrees(L.INITIAL, Data(false, ""), buf); }
          var used, done := lexer.Feed(buf);
          buf := "";
        } else {
          KeepsMark(buf);
          DiscardKeepingDelimiterState();
        }
      }
    }

    /** Emits the completed blocks of the buffer and bounds what is left. */
    method Drain(ghost fair: bool, ghost work: string, ghost goal: Delivery) returns (more: bool)
      requires !chunking && !stopped && (dropping ==> !sink)
      requires fair ==> Working(work, goal)
      modifies this
      ensures stream == old(stream) && Bounded() && (fair ==> Reached(goal)) && more == !stopped
      ensures lexer == old(lexer) || fresh(lexer)
      ensures !sink ==> View() == Drained(maxEvent, terminal, old(View()))
    {
      hide NextEvent, EventData, Deliver, Fair, MarkOf, StartsBlank, Keep, Drained, Settle;
      ghost var w, goes := work, Drained(maxEvent, terminal, View());
      while true
        invariant stream == old(stream) && lexer == old(lexer) && !chunking && !stopped && (dropping ==> !sink)
        invariant fair ==> Working(w, goal)
        invariant !sink ==> Drained(maxEvent, terminal, View()) == goes
        decreases |buf|
      {
        DrainOne(maxEvent, terminal, View());
        var next := FindNextEvent(buf);
        if next.None? {
          Bound(fair, w, goal);
          return true;
        }
        CutAlone(buf);
        if fair {
          DeliverOne(w, goal);
          w := NextEvent(w).value.rest;
        }
        buf := next.value.rest;
        if dropping {
          dropping := false; // the boundary of the dropped block
          continue;
        }
        more := Consume(next.value.event);
        if !more {
          Stop();
          return false;
        }
      }
    }

    // The first block of the work, delivered or not.
    lemma DeliverOne(w: string, goal: Delivery)
      requires Working(w, goal) && NextEvent(buf).Some? && (dropping ==> !sink)
      ensures NextEvent(w).Some?
      ensures var c := NextEvent(w).value;
              && Fair(maxEvent, sink, c.rest) && NextEvent(buf).value.rest == c.rest
              && (if dropping then Payload(c.event).None?
                  else NextEvent(buf) == NextEvent(w) && (sink && |c.event| > maxEvent ==> !StartsBlank(c.event)))
              && goal == match Payload(c.event)
                         case None => Deliver(maxEvent, sink, terminal, c.rest, delivered)
                         case Some(data) =>
                           if terminal(delivered + [data]) then Delivery(delivered + [data], true, "")
                           else Deliver(maxEvent, sink, terminal, c.rest, delivered + [data])
    {
      hide NextEvent, EventData;
    }

    /** Consumes one read. */
    method Feed(p: string)
      requires Valid()
      modifies this, lexer
      ensures Valid() && stream == old(stream) + p
      ensures lexer == old(lexer) || fresh(lexer)
      ensures !sink ==> View() == Read(maxEvent, terminal, old(View()), p)
    {
      hide NextEvent, EventData, Deliver, Fair, MarkOf, StartsBlank;
      ghost var seen, fair := stream, Fair(maxEvent, sink, stream + p);
      stream := stream + p;
      if fair { FairPrefix(maxEvent, sink, seen, p); }
      assert fair ==> Exact(seen);
      hide Holds, Buffered;
      assert p[..|p|] == p;
      if stopped {
        if fair { DeliverMore(maxEvent, sink, terminal, seen, p, []); }
        return;
      }
      var rest := p;
      if fair { FairRest(maxEvent, sink, terminal, seen, p, []); }
      while |rest| > 0 || chunking
        invariant Bounded() && !stopped && stream == seen + rest == old(stream) + p
        invariant fair ==> Exact(seen) && Fair(maxEvent, sink, Of(seen).tail + rest)
        invariant lexer == old(lexer) || fresh(lexer)
        invariant !sink ==> Read(maxEvent, terminal, View(), rest) == Read(maxEvent, terminal, old(View()), p)
        decreases |rest|, chunking
      {
        var more, used := true, 0;
        if chunking {
          more, used := Continue(fair, seen, rest);
        } else {
          used := if |rest| > Room(maxEvent, |buf|) then Room(maxEvent, |buf|) else |rest|;
          more := Take(fair, seen, rest, used);
        }
        Advance(fair, seen, rest, used, more);
        if !more { return; }
        seen := seen + rest[..used];
        rest := rest[used..];
      }
      assert seen + rest == seen;
    }

    // Where a step of `Feed` leaves it: at the end of the read or further on.
    lemma Advance(fair: bool, seen: string, rest: string, used: nat, more: bool)
      requires used <= |rest| && (more ==> !stopped) && (!more ==> stopped || used == |rest|)
      requires fair ==> Exact(seen + rest[..used])
      requires fair && more ==> Fair(maxEvent, sink, Of(seen + rest[..used]).tail + rest[used..])
      ensures seen + rest == seen + rest[..used] + rest[used..]
      ensures fair && !more ==> Exact(seen + rest)
    {
      assert rest == rest[..used] + rest[used..];
      if used == |rest| {
        assert rest[..used] == rest;
      } else if fair && !more {
        DeliverMore(maxEvent, sink, terminal, seen + rest[..used], rest[used..], []);
        assert seen + rest[..used] + rest[used..] == seen + rest;
      }
    }

    /** Buffers one bounded chunk and emits what it completes; false once the
        consumer has stopped. */
    method Take(ghost fair: bool, ghost seen: string, rest: string, n: nat) returns (more: bool)
      requires Bounded() && !stopped && !chunking && n <= |rest|
      requires |buf| + n <= maxEvent + DELIMITER_SLACK
      requires fair ==> Exact(seen) && Fair(maxEvent, sink, Of(seen).tail + rest)
      modifies this
      ensures Bounded() && stream == old(stream) && more == !stopped
      ensures fair ==> Exact(seen + rest[..n])
      ensures fair && more ==> Fair(maxEvent, sink, Of(seen + rest[..n]).tail + rest[n..])
      ensures lexer == old(lexer) || fresh(lexer)
      ensures !sink ==> View() == Buffered(maxEvent, terminal, old(View()), rest[..n])
    {
      hide NextEvent, EventData, Deliver, Fair, MarkOf, StartsBlank;
      var chunk := rest[..n];
      ghost var tail, left, before := Of(seen).tail, rest[n..], delivered;
      ghost var work := tail + chunk;
      if fair {
        DeliverTail(maxEvent, sink, terminal, seen, []);
        DeliverMore(maxEvent, sink, terminal, seen, chunk, []);
        assert work + left == tail + rest by { assert rest == chunk + left; }
        FairPrefix(maxEvent, sink, work, left);
        if dropping { MarkDecides(tail, buf, chunk); }
      }
      buf := buf + chunk;
      more := Drain(fair, work, Of(seen + chunk));
      if fair && more { FairRest(maxEvent, sink, terminal, work, left, before); }
    }

    /** Streams a read into the over-cap block; false when the block goes on
        in a later read or the consumer has stopped. */
    method Continue(ghost fair: bool, ghost seen: string, p: string) returns (more: bool, used: nat)
      requires Bounded() && !stopped && chunking
      requires fair ==> Exact(seen) && Fair(maxEvent, sink, Of(seen).tail + p)
      modifies this, lexer
      ensures Bounded() && used <= |p| && stream == old(stream)
      ensures more ==> !stopped && !chunking
      ensures !more ==> stopped || used == |p|
      ensures fair ==> Exact(seen + p[..used])
      ensures fair && more ==> Fair(maxEvent, sink, Of(seen + p[..used]).tail + p[used..])
      ensures lexer == old(lexer) || fresh(lexer)
    {
      hide NextEvent, EventData, Fair, MarkOf, StartsBlank, L.Lex, Deliver;
      ghost var tail := Of(seen).tail;
      if fair {
        DeliverTail(maxEvent, sink, terminal, seen, []);
        LongBlock(tail, p);
        L.LexRest(lexer.View(), tail, p);
      }
      var done;
      used, done := lexer.Feed(p);
      if fair { DeliverMore(maxEvent, sink, terminal, seen, p[..used], []); }
      if !done {
        assert p[..used] == p;
        if fair { DeliverNone(maxEvent, sink, terminal, tail + p, delivered); }
        return false, used;
      }
      if fair {
        DeliverAlone(maxEvent, terminal, tail + p[..used], delivered);
        FairLeft(tail + p);
        EmptyTail();
        assert "" + p[used..] == p[used..];
      }
      chunking, more := false, true;
      if lexer.sawData {
        more := Emit(lexer.out);
        if !more {
          Stop();
          return;
        }
      }
      lexer := new OversizedLexer();
    }

    lemma FairLeft(all: string)
      requires Fair(maxEvent, sink, all) && NextEvent(all).Some?
      ensures Fair(maxEvent, sink, NextEvent(all).value.rest)
    {
    }

    lemma EmptyTail()
      ensures NextEvent("").None?
    {
      NoNextEvent("");
    }

    // A block that outgrew the buffer does not start with a blank line.
    lemma LongBlock(tail: string, p: string)
      requires sink && |tail| > maxEvent && NextEvent(tail).None? && Fair(maxEvent, sink, tail + p)
      ensures !StartsBlank(tail + p)
    {
      MarkDecides(tail, tail, p);
      if NextEvent(tail + p).Some? { BlankStart(tail + p); }
    }
  }

  /** A whole stream read in any pieces: the payloads delivered, whether the
      consumer stopped, and whether the stream ended inside a block. Without
      a sink the chunks decide which blocks are lost (`SseChunks.LossIsExact`). */
  method FrameAll(maxEvent: nat, sink: bool, terminal: seq<string> -> bool, pieces: seq<string>)
    returns (payloads: seq<string>, stopped: bool, pending: bool)
    ensures (if sink then Fair(maxEvent, sink, Flatten(pieces))
             else LostAll(maxEvent, terminal, START, "", pieces) == 0) ==>
              var d := Deliver(maxEvent, sink, terminal, Flatten(pieces), []);
              payloads == d.payloads && stopped == d.stopped && (!stopped ==> (pending <==> d.tail != ""))
    ensures !sink && Fair(maxEvent, sink, Flatten(pieces)) ==> LostAll(maxEvent, terminal, START, "", pieces) == 0
    ensures !sink && NeverStops(terminal) ==>
              |Deliver(maxEvent, sink, terminal, Flatten(pieces), []).payloads| ==
              |payloads| + LostAll(maxEvent, terminal, START, "", pieces)
  {
    hide Read, LostAll, Lost, Deliver, Fair, NextEvent, NeverStops;
    var f := new Framer(maxEvent, sink, terminal);
    var i := 0;
    assert pieces[0..] == pieces;
    while i < |pieces|
      invariant i <= |pieces| && f.Valid() && fresh(f) && fresh(f.lexer)
      invariant f.maxEvent == maxEvent && f.sink == sink && f.terminal == terminal
      invariant f.stream + Flatten(pieces[i..]) == Flatten(pieces)
      invariant !sink ==>
                  ReadAll(maxEvent, terminal, f.View(), pieces[i..]) == ReadAll(maxEvent, terminal, START, pieces)
    {
      assert pieces[i..][1..] == pieces[i + 1..];
      f.Feed(pieces[i]);
      i := i + 1;
    }
    assert f.stream + "" == f.stream;
    payloads, stopped := f.delivered, f.stopped;
    pending := f.Pending();
    if !sink { LossIsExact(maxEvent, terminal, pieces); }
  }

  /** Without a sink a block of exactly `maxEvent` bytes is lost when its CR LF
      blank line is split behind the CR, whatever the block is. */
  method SplitLosesBlock(maxEvent: nat, terminal: seq<string> -> bool, block: string)
    returns (payloads: seq<string>, stopped: bool)
    requires NextEvent(block + "\r\n") == Some(Cut(block, true, "")) && |block| == maxEvent && EventData(block).has
    ensures payloads == [] && !stopped
    ensures Deliver(maxEvent, false, terminal, block + "\r\n", []).payloads == [EventData(block).joined]
  {
    hide EventData, NextEvent, Buffered, Read, Deliver;
    var f := new Framer(maxEvent, false, terminal);
    DeliverBlock(maxEvent, terminal, block + "\r\n");
    DeliverNone(maxEvent, false, terminal, "", []) by { NoNextEvent(""); }
    assert "" + (block + "\r") == block + "\r";
    PartedIsLost(maxEvent, terminal, "", block);
    WholeChunk(maxEvent, terminal, START, block + "\r");
    WholeChunk(maxEvent, terminal, Held("\n\r", true, [], false), "\n");
    f.Feed(block + "\r");
    f.Feed("\n");
    payloads, stopped := f.delivered, f.stopped;
  }

  /** So is it when one read ends a short block, whose three bytes leave its
      first chunk ending at that CR. */
  method OneReadLosesBlock(maxEvent: nat, terminal: seq<string> -> bool, block: string)
    returns (payloads: seq<string>, stopped: bool)
    requires NextEvent(block + "\r\n") == Some(Cut(block, true, "")) && |block| == maxEvent && EventData(block).has
    ensures payloads == [] && !stopped
    ensures Deliver(maxEvent, false, terminal, "a\n\n" + (block + "\r\n"), []).payloads == [EventData(block).joined]
  {
    hide EventData, NextEvent, Buffered;
    var f := new Framer(maxEvent, false, terminal);
    var p := "a\n\n" + (block + "\r\n");
    DeliverBlock(maxEvent, terminal, block + "\r\n");
    ShortBlock(maxEvent, terminal);
    DeliverMore(maxEvent, false, terminal, "a\n\n", block + "\r\n", []);
    assert "" + (block + "\r\n") == block + "\r\n";
    PartedIsLost(maxEvent, terminal, "a\n\n", block);
    WholeChunk(maxEvent, terminal, Held("\n\r", true, [], false), "\n");
    assert p[..maxEvent + 4] == "a\n\n" + (block + "\r") && p[maxEvent + 4..] == "\n";
    f.Feed(p);
    payloads, stopped := f.delivered, f.stopped;
  }

  lemma ShortBlock(cap: nat, terminal: seq<string> -> bool)
    ensures Deliver(cap, false, terminal, "a\n\n", []) == Delivery([], false, "")
  {
    var s := "a\n\n";
    NextEventIs(s, 1);
    assert s[..2] == "a\n" && s[3..] == "";
    NoNextEvent("");
    assert "a\n"[..1] == "a" && "a\n"[2..] == "";
    hide NextEvent;
  }

  lemma DeliverBlock(cap: nat, terminal: seq<string> -> bool, s: string)
    requires NextEvent(s).Some? && NextEvent(s).value.rest == "" && |NextEvent(s).value.event| <= cap
    requires EventData(NextEvent(s).value.event).has
    ensures Deliver(cap, false, terminal, s, []).payloads == [EventData(NextEvent(s).value.event).joined]
  {
    NoNextEvent("");
    hide NextEvent, EventData;
  }
}
