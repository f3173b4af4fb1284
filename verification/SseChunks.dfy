/** What the framer does with a read when no sink takes over-cap blocks
    (contrib/openai/internal/wiretap/sse.go): it buffers chunks of bounded
    size, and each chunk that leaves an over-cap block unterminated drops it. */
module SseChunks {
  import opened Pieces
  import opened SseBlocks

  const DELIMITER_SLACK: nat := 4

  /** A framer between two chunks. */
  datatype Held = Held(buf: string, dropping: bool, delivered: seq<string>, stopped: bool)

  const START := Held("", false, [], false)

  ghost function Bounding(cap: nat, b: string, drop: bool, done: seq<string>): Held {
    if |b| > cap then Held(Keep(b), true, done, false) else Held(b, drop, done, false)
  }

  // The blocks of `b` are delivered as those of a stream.
  ghost function Settle(cap: nat, terminal: seq<string> -> bool, b: string, done: seq<string>): Held {
    var d := Deliver(cap, false, terminal, b, done);
    if d.stopped then Held("", false, d.payloads, true) else Bounding(cap, d.tail, false, d.payloads)
  }

  // A block being dropped ends at the first blank line.
  ghost function Drained(cap: nat, terminal: seq<string> -> bool, h: Held): Held {
    if !h.dropping then Settle(cap, terminal, h.buf, h.delivered)
    else match NextEvent(h.buf)
         case None => Bounding(cap, h.buf, true, h.delivered)
         case Some(c) => Settle(cap, terminal, c.rest, h.delivered)
  }

  lemma DrainOne(cap: nat, terminal: seq<string> -> bool, h: Held)
    ensures Drained(cap, terminal, h) ==
            match NextEvent(h.buf)
            case None => Bounding(cap, h.buf, h.dropping, h.delivered)
            case Some(c) =>
              var d := EventData(c.event);
              if h.dropping || !d.has || |c.event| > cap
              then Drained(cap, terminal, Held(c.rest, false, h.delivered, false))
              else
                var now := h.delivered + [d.joined];
                if terminal(now) then Held("", false, now, true)
                else Drained(cap, terminal, Held(c.rest, false, now, false))
  {
    hide NextEvent, EventData, Keep, Bounding;
    if NextEvent(h.buf).None? {
    } else if h.dropping {
    } else {
      var c := NextEvent(h.buf).value;
      var d := EventData(c.event);
      if d.has && |c.event| <= cap {
        if terminal(h.delivered + [d.joined]) { } else { }
      } else { }
    }
  }

  ghost function Buffered(cap: nat, terminal: seq<string> -> bool, h: Held, chunk: string): Held {
    Drained(cap, terminal, h.(buf := h.buf + chunk))
  }

  /** How much one chunk may add. */
  function Room(cap: nat, held: nat): (n: nat)
    ensures n > 0
  {
    if cap + DELIMITER_SLACK > held then cap + DELIMITER_SLACK - held else 1
  }

  /** One read: chunks that fill the buffer up to its bound, until the
      consumer stops. */
  ghost function Read(cap: nat, terminal: seq<string> -> bool, h: Held, p: string): Held
    decreases |p|
  {
    if p == "" || h.stopped then h
    else
      var n := ChunkOf(cap, h, p);
      Read(cap, terminal, Buffered(cap, terminal, h, p[..n]), p[n..])
  }

  function ChunkOf(cap: nat, h: Held, p: string): (n: nat)
    ensures n <= |p| && (p != "" ==> n > 0)
  {
    if |p| > Room(cap, |h.buf|) then Room(cap, |h.buf|) else |p|
  }

  ghost function ReadAll(cap: nat, terminal: seq<string> -> bool, h: Held, pieces: seq<string>): Held
    decreases |pieces|
  {
    if pieces == [] then h else ReadAll(cap, terminal, Read(cap, terminal, h, pieces[0]), pieces[1..])
  }

  // ---- the blocks that are lost ----

  /** A chunk ended between the CR and the LF behind a data block of exactly
      `cap` bytes: `t` is the unterminated block, `more` what comes next. */
  predicate Parts(cap: nat, t: string, more: string) {
    && |t| == cap + 1 && MarkOf(t).NewlineCr? && more != "" && more[0] == '\n'
    && EventData(t[..cap]).has
  }

  /** How many blocks the chunks of one read part, after the stream `s`. */
  ghost function Lost(cap: nat, terminal: seq<string> -> bool, h: Held, s: string, p: string): nat
    decreases |p|
  {
    if p == "" || h.stopped then 0
    else
      var n := ChunkOf(cap, h, p);
      (if Parts(cap, Deliver(cap, false, terminal, s, []).tail, p) then 1 else 0)
      + Lost(cap, terminal, Buffered(cap, terminal, h, p[..n]), s + p[..n], p[n..])
  }

  ghost function LostAll(cap: nat, terminal: seq<string> -> bool, h: Held, s: string, pieces: seq<string>): nat
    decreases |pieces|
  {
    if pieces == [] then 0
    else Lost(cap, terminal, h, s, pieces[0])
         + LostAll(cap, terminal, Read(cap, terminal, h, pieces[0]), s + pieces[0], pieces[1..])
  }

  // ---- one chunk ----

  // The framer is where the delivery `d` leaves it, payloads aside.
  ghost predicate Tracks(cap: nat, h: Held, d: Delivery) {
    && d.stopped == h.stopped
    && (!h.stopped ==>
          if h.dropping then NextEvent(h.buf).None? && MarkOf(h.buf) == MarkOf(d.tail) && |d.tail| > cap
          else h.buf == d.tail && |d.tail| <= cap)
  }

  lemma SettleTracks(cap: nat, terminal: seq<string> -> bool, b: string, done: seq<string>)
    ensures var d, h := Deliver(cap, false, terminal, b, done), Settle(cap, terminal, b, done);
            Tracks(cap, h, d) && h.delivered == d.payloads
  {
    var d := Deliver(cap, false, terminal, b, done);
    DeliverTail(cap, false, terminal, b, done);
    hide NextEvent, Deliver, MarkOf, Keep;
    if !d.stopped { KeepsMark(d.tail); }
  }

  /** A block that is over the cap while it is unterminated and not once it
      is complete is one whose CR LF was parted. */
  lemma PartsIs(cap: nat, t: string, more: string)
    requires NextEvent(t).None? && |t| > cap
    ensures Parts(cap, t, more) <==>
            && NextEvent(t + more).Some?
            && var e := NextEvent(t + more).value.event; |e| <= cap && EventData(e).has
  {
    if more == "" {
      assert t + more == t;
      return;
    }
    MarkDecides(t, t, more);
    if NextEvent(t + more).Some? { CutAlone(t + more); }
    var b, m := more[0], more[1..];
    assert t + more == (t + [b]) + m;
    StepEvent(t, b);
    hide EventData;
    if NextEvent(t + [b]).Some? {
      CompleteStays(t + [b], m);
    } else {
      MarkDecides(t + [b], t + [b], m);
    }
    hide NextEvent;
    if NextEvent(t + more).Some? {
      var e := NextEvent(t + more).value.event;
      assert |e| <= cap ==> e == t[..cap];
    }
  }

  // A block being dropped goes on, or ends where the stream has it end.
  lemma DroppedChunk(cap: nat, terminal: seq<string> -> bool, h: Held, t: string, chunk: string)
    requires h.dropping && NextEvent(h.buf).None? && NextEvent(t).None? && MarkOf(h.buf) == MarkOf(t) && |t| > cap
    ensures var b := Buffered(cap, terminal, h, chunk);
            match NextEvent(t + chunk)
            case None => Tracks(cap, b, Delivery([], false, t + chunk)) && b.delivered == h.delivered
            case Some(c) => b == Settle(cap, terminal, c.rest, h.delivered)
  {
    MarkDecides(t, h.buf, chunk);
    hide NextEvent, Settle, MarkOf, Keep;
    if NextEvent(t + chunk).None? { KeepsMark(h.buf + chunk); }
  }

  /** A chunk that parts no block delivers what the stream delivers. */
  lemma ExactChunk(cap: nat, terminal: seq<string> -> bool, h: Held, s: string, chunk: string)
    requires var d := Deliver(cap, false, terminal, s, []);
             Tracks(cap, h, d) && h.delivered == d.payloads && !Parts(cap, d.tail, chunk)
    requires !h.stopped
    ensures var d, b := Deliver(cap, false, terminal, s + chunk, []), Buffered(cap, terminal, h, chunk);
            Tracks(cap, b, d) && b.delivered == d.payloads
  {
    var d := Deliver(cap, false, terminal, s, []);
    DeliverTail(cap, false, terminal, s, []);
    DeliverMore(cap, false, terminal, s, chunk, []);
    var t := d.tail;
    if h.dropping {
      DroppedChunk(cap, terminal, h, t, chunk);
      PartsIs(cap, t, chunk);
      if NextEvent(t + chunk).Some? {
        SettleTracks(cap, terminal, NextEvent(t + chunk).value.rest, h.delivered);
      }
      hide NextEvent, EventData, Settle, MarkOf, Parts, Buffered;
    } else {
      hide NextEvent, Deliver, Settle, MarkOf, Parts;
      SettleTracks(cap, terminal, t + chunk, h.delivered);
    }
  }

  ghost predicate NeverStops(terminal: seq<string> -> bool) { forall done :: !terminal(done) }

  /** A consumer that never stops is handed every payload. */
  lemma {:induction false} DeliverAfter(cap: nat, terminal: seq<string> -> bool, s: string, done: seq<string>)
    requires NeverStops(terminal)
    ensures var d := Deliver(cap, false, terminal, s, []);
            !d.stopped && Deliver(cap, false, terminal, s, done) == Delivery(done + d.payloads, false, d.tail)
    decreases |s|
  {
    hide NextEvent, EventData;
    if NextEvent(s).None? {
      assert done + [] == done;
    } else {
      var c := NextEvent(s).value;
      var d := EventData(c.event);
      DeliverAfter(cap, terminal, c.rest, done);
      if d.has && |c.event| <= cap {
        DeliverAfter(cap, terminal, c.rest, done + [d.joined]);
        var none: seq<string> := [];
        assert none + [d.joined] == [d.joined];
        DeliverAfter(cap, terminal, c.rest, [d.joined]);
        assert done + [d.joined] + Deliver(cap, false, terminal, c.rest, []).payloads ==
               done + ([d.joined] + Deliver(cap, false, terminal, c.rest, []).payloads);
      }
    }
  }

  // What follows a payload that one of two consumers did not get.
  lemma OneFewer(cap: nat, terminal: seq<string> -> bool, b: string, held: seq<string>, done: seq<string>)
    requires NeverStops(terminal)
    ensures var d, h := Deliver(cap, false, terminal, b, done), Settle(cap, terminal, b, held);
            Tracks(cap, h, d) && !h.stopped && |d.payloads| - |h.delivered| == |done| - |held|
  {
    SettleTracks(cap, terminal, b, held);
    DeliverAfter(cap, terminal, b, held);
    DeliverAfter(cap, terminal, b, done);
    hide Deliver, Settle, NeverStops;
  }

  /** A chunk that parts a block delivers one payload fewer. */
  lemma LossyChunk(cap: nat, terminal: seq<string> -> bool, h: Held, s: string, chunk: string)
    requires NeverStops(terminal) && !h.stopped
    requires Tracks(cap, h, Deliver(cap, false, terminal, s, []))
    ensures var d, e := Deliver(cap, false, terminal, s, []), Deliver(cap, false, terminal, s + chunk, []);
            var b := Buffered(cap, terminal, h, chunk);
            && Tracks(cap, b, e) && !b.stopped
            && |e.payloads| - |b.delivered| ==
               |d.payloads| - |h.delivered| + (if Parts(cap, d.tail, chunk) then 1 else 0)
  {
    var d := Deliver(cap, false, terminal, s, []);
    DeliverTail(cap, false, terminal, s, []);
    DeliverMore(cap, false, terminal, s, chunk, []);
    var t := d.tail;
    if h.dropping {
      LossyDrop(cap, terminal, h, t, chunk, d.payloads);
    } else {
      OneFewer(cap, terminal, t + chunk, h.delivered, d.payloads);
    }
  }

  lemma LossyDrop(cap: nat, terminal: seq<string> -> bool, h: Held, t: string, chunk: string, done: seq<string>)
    requires NeverStops(terminal) && h.dropping && !h.stopped
    requires NextEvent(h.buf).None? && NextEvent(t).None? && MarkOf(h.buf) == MarkOf(t) && |t| > cap
    ensures var e, b := Deliver(cap, false, terminal, t + chunk, done), Buffered(cap, terminal, h, chunk);
            && Tracks(cap, b, e) && !b.stopped
            && |e.payloads| - |b.delivered| == |done| - |h.delivered| + (if Parts(cap, t, chunk) then 1 else 0)
  {
    DroppedChunk(cap, terminal, h, t, chunk);
    PartsIs(cap, t, chunk);
    hide EventData, Settle, MarkOf, Buffered, NeverStops;
    if NextEvent(t + chunk).Some? {
      var c := NextEvent(t + chunk).value;
      var d := EventData(c.event);
      OneFewer(cap, terminal, c.rest, h.delivered, if d.has && |c.event| <= cap then done + [d.joined] else done);
    }
    hide NextEvent, Parts;
  }

  // ---- whole streams ----

  // With nothing lost the payloads are those of the stream; a consumer that
  // never stops lacks exactly the `lost` ones.
  ghost predicate Accounts(cap: nat, terminal: seq<string> -> bool, h: Held, s: string, lost: nat) {
    var d := Deliver(cap, false, terminal, s, []);
    && (lost == 0 ==> Tracks(cap, h, d) && h.delivered == d.payloads)
    && (NeverStops(terminal) ==> Tracks(cap, h, d) && |d.payloads| == |h.delivered| + lost)
  }

  lemma AccountsChunk(cap: nat, terminal: seq<string> -> bool, h: Held, s: string, p: string, n: nat, lost: nat)
    requires Accounts(cap, terminal, h, s, lost) && !h.stopped && 0 < n <= |p|
    ensures var k := if Parts(cap, Deliver(cap, false, terminal, s, []).tail, p) then 1 else 0;
            Accounts(cap, terminal, Buffered(cap, terminal, h, p[..n]), s + p[..n], lost + k)
  {
    hide Deliver, Buffered, NeverStops, Tracks;
    var t := Deliver(cap, false, terminal, s, []).tail;
    assert Parts(cap, t, p[..n]) <==> Parts(cap, t, p);
    hide Parts;
    if lost == 0 && !Parts(cap, t, p) { ExactChunk(cap, terminal, h, s, p[..n]); }
    if NeverStops(terminal) { LossyChunk(cap, terminal, h, s, p[..n]); }
  }

  lemma AccountsStopped(cap: nat, terminal: seq<string> -> bool, h: Held, s: string, p: string, lost: nat)
    requires Accounts(cap, terminal, h, s, lost) && h.stopped
    ensures Accounts(cap, terminal, h, s + p, lost)
  {
    DeliverMore(cap, false, terminal, s, p, []);
    if NeverStops(terminal) { DeliverAfter(cap, terminal, s, []); }
    hide Deliver, NeverStops;
  }

  lemma {:induction false} AccountsRead(cap: nat, terminal: seq<string> -> bool, h: Held, s: string, p: string,
                                        lost: nat)
    requires Accounts(cap, terminal, h, s, lost)
    ensures Accounts(cap, terminal, Read(cap, terminal, h, p), s + p, lost + Lost(cap, terminal, h, s, p))
    decreases |p|
  {
    hide Accounts, Deliver, Buffered, Parts, ChunkOf;
    if p == "" {
      assert s + p == s;
    } else if h.stopped {
      AccountsStopped(cap, terminal, h, s, p, lost);
    } else {
      var n := ChunkOf(cap, h, p);
      var k := if Parts(cap, Deliver(cap, false, terminal, s, []).tail, p) then 1 else 0;
      AccountsChunk(cap, terminal, h, s, p, n, lost);
      AccountsRead(cap, terminal, Buffered(cap, terminal, h, p[..n]), s + p[..n], p[n..], lost + k);
      assert s + p[..n] + p[n..] == s + p;
    }
  }

  lemma {:induction false} AccountsAll(cap: nat, terminal: seq<string> -> bool, h: Held, s: string,
                                       pieces: seq<string>, lost: nat)
    requires Accounts(cap, terminal, h, s, lost)
    ensures Accounts(cap, terminal, ReadAll(cap, terminal, h, pieces), s + Flatten(pieces),
                     lost + LostAll(cap, terminal, h, s, pieces))
    decreases |pieces|
  {
    hide Accounts, Read, Lost;
    if pieces == [] {
      assert s + Flatten(pieces) == s;
    } else {
      var p := pieces[0];
      AccountsRead(cap, terminal, h, s, p, lost);
      AccountsAll(cap, terminal, Read(cap, terminal, h, p), s + p, pieces[1..],
                  lost + Lost(cap, terminal, h, s, p));
      assert s + p + Flatten(pieces[1..]) == s + Flatten(pieces);
    }
  }

  lemma StartAccounts(cap: nat, terminal: seq<string> -> bool)
    ensures Accounts(cap, terminal, START, "", 0)
  {
    hide NeverStops, MarkOf;
    NoNextEvent("");
    DeliverNone(cap, false, terminal, "", []);
    hide Deliver, NextEvent;
  }

  /** No block of exactly `cap` bytes followed by CR LF, nothing to part. */
  lemma {:induction false} FairRead(cap: nat, terminal: seq<string> -> bool, h: Held, s: string, p: string)
    requires Accounts(cap, terminal, h, s, 0) && Fair(cap, false, s + p)
    ensures Lost(cap, terminal, h, s, p) == 0
    decreases |p|
  {
    if p == "" || h.stopped { return; }
    hide Deliver, Buffered, Fair, Parts, Accounts;
    var n := ChunkOf(cap, h, p);
    var t := Deliver(cap, false, terminal, s, []).tail;
    FairUnparted(cap, terminal, h, s, p);
    AccountsChunk(cap, terminal, h, s, p, n, 0);
    assert s + p[..n] + p[n..] == s + p;
    FairRead(cap, terminal, Buffered(cap, terminal, h, p[..n]), s + p[..n], p[n..]);
  }

  lemma FairUnparted(cap: nat, terminal: seq<string> -> bool, h: Held, s: string, p: string)
    requires Accounts(cap, terminal, h, s, 0) && !h.stopped && Fair(cap, false, s + p)
    ensures !Parts(cap, Deliver(cap, false, terminal, s, []).tail, p)
  {
    var t := Deliver(cap, false, terminal, s, []).tail;
    FairRest(cap, false, terminal, s, p, []);
    DeliverTail(cap, false, terminal, s, []);
    hide Deliver, NextEvent;
    if Parts(cap, t, p) {
      PartsIs(cap, t, p);
      MarkDecides(t, t, p);
    }
  }

  lemma {:induction false} FairLosesNothing(cap: nat, terminal: seq<string> -> bool, h: Held, s: string,
                                            pieces: seq<string>)
    requires Accounts(cap, terminal, h, s, 0) && Fair(cap, false, s + Flatten(pieces))
    ensures LostAll(cap, terminal, h, s, pieces) == 0
    decreases |pieces|
  {
    hide Accounts, Read, Lost, Fair;
    if pieces != [] {
      var p, left := pieces[0], Flatten(pieces[1..]);
      assert s + Flatten(pieces) == s + p + left;
      FairPrefix(cap, false, s + p, left);
      FairRead(cap, terminal, h, s, p);
      AccountsRead(cap, terminal, h, s, p, 0);
      FairLosesNothing(cap, terminal, Read(cap, terminal, h, p), s + p, pieces[1..]);
    }
  }

  /** However the stream is read: with no block parted, exactly its payloads
      are delivered; a consumer that never stops lacks one payload for each
      block that is; and a fair stream leaves nothing to part. */
  lemma LossIsExact(cap: nat, terminal: seq<string> -> bool, pieces: seq<string>)
    ensures var h, d := ReadAll(cap, terminal, START, pieces), Deliver(cap, false, terminal, Flatten(pieces), []);
            var lost := LostAll(cap, terminal, START, "", pieces);
            && (lost == 0 ==> h.delivered == d.payloads && h.stopped == d.stopped
                              && (!h.stopped ==> (h.buf != "" || h.dropping <==> d.tail != "")))
            && (NeverStops(terminal) ==> |d.payloads| == |h.delivered| + lost)
            && (Fair(cap, false, Flatten(pieces)) ==> lost == 0)
  {
    hide NeverStops, ReadAll, LostAll, MarkOf, Deliver, NextEvent, Flatten, Fair;
    StartAccounts(cap, terminal);
    AccountsAll(cap, terminal, START, "", pieces, 0);
    assert "" + Flatten(pieces) == Flatten(pieces);
    if Fair(cap, false, Flatten(pieces)) { FairLosesNothing(cap, terminal, START, "", pieces); }
  }

  // ---- two inputs that lose a block ----

  // Behind blocks that carry no payload, in two chunks parted inside CR LF.
  lemma PartedIsLost(cap: nat, terminal: seq<string> -> bool, before: string, block: string)
    requires Deliver(cap, false, terminal, before, []) == Delivery([], false, "")
    requires NextEvent(block + "\r\n") == Some(Cut(block, true, "")) && |block| == cap
    ensures Buffered(cap, terminal, START, before + (block + "\r")) == Held("\n\r", true, [], false)
    ensures Buffered(cap, terminal, Held("\n\r", true, [], false), "\n") == START
  {
    SplitCrOverflows(cap, block + "\r\n");
    LastNewline(block + "\r\n");
    DeliverMore(cap, false, terminal, before, block + "\r", []);
    assert "" + (block + "\r") == block + "\r" && "" + (before + (block + "\r")) == before + (block + "\r");
    BareBlank();
    NoNextEvent("");
    hide NextEvent, Keep;
  }

  lemma WholeChunk(cap: nat, terminal: seq<string> -> bool, h: Held, p: string)
    requires p != "" && !h.stopped && |p| <= Room(cap, |h.buf|)
    ensures Read(cap, terminal, h, p) == Buffered(cap, terminal, h, p)
  {
    hide Buffered;
    assert p[..|p|] == p;
  }

  lemma LastNewline(s: string)
    requires NextEvent(s).Some?
    ensures var e := NextEvent(s).value.event; e != "" && e[|e| - 1] == '\n' && Keep(e + "\r") == "\n\r"
  {
    FindEndIsFirst(s, 0);
    var e := NextEvent(s).value.event;
    assert (e + "\r")[|e| - 1] == '\n' && (e + "\r")[|e|] == '\r';
  }

  lemma BareBlank()
    ensures NextEvent("\n\r\n") == Some(Cut("\n", true, "")) && "\n\r" + "\n" == "\n\r\n"
  {
    var s := "\n\r\n";
    assert s[..1] == "\n" && s[3..] == "";
    NextEventIs(s, 0);
    hide NextEvent;
  }
}
