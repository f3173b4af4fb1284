/** Server-sent event framing as functions of the whole stream
    (contrib/openai/internal/wiretap/sse.go): where blocks end, what payload a
    block carries, and what a stream delivers. A lone CR does not end a line. */
module SseBlocks {

  datatype Option<T> = None | Some(value: T)

  // ---- blocks ----

  /** The newline at `i` is followed by a blank line. */
  predicate EndsAt(buf: string, i: nat) {
    && i < |buf| && buf[i] == '\n'
    && ((i + 1 < |buf| && buf[i + 1] == '\n') || (i + 2 < |buf| && buf[i + 1] == '\r' && buf[i + 2] == '\n'))
  }

  /** Whether the blank line behind `i` is spelled CR LF. */
  predicate BlankIsCrlf(buf: string, i: nat)
    requires EndsAt(buf, i)
  {
    buf[i + 1] == '\r'
  }

  // The first end of a block at or after `from`.
  function FindEnd(buf: string, from: nat): Option<nat>
    requires from <= |buf|
    decreases |buf| - from
  {
    if from == |buf| then None
    else if EndsAt(buf, from) then Some(from)
    else FindEnd(buf, from + 1)
  }

  datatype Cut = Cut(event: string, crlf: bool, rest: string)

  /** The first raw block, without its blank line, and what follows. */
  function NextEvent(buf: string): (r: Option<Cut>)
    ensures r.Some? ==> |r.value.rest| < |buf|
  {
    match FindEnd(buf, 0)
    case None => None
    case Some(i) =>
      FindEndIsFirst(buf, 0);
      Some(CutAt(buf, i))
  }

  function CutAt(buf: string, i: nat): Cut
    requires EndsAt(buf, i)
  {
    Cut(buf[..i + 1], BlankIsCrlf(buf, i), if BlankIsCrlf(buf, i) then buf[i + 3..] else buf[i + 2..])
  }

  lemma {:induction false} FindEndIsFirst(buf: string, from: nat)
    requires from <= |buf|
    ensures match FindEnd(buf, from)
            case None => forall i :: from <= i < |buf| ==> !EndsAt(buf, i)
            case Some(i) => from <= i && EndsAt(buf, i) && forall j :: from <= j < i ==> !EndsAt(buf, j)
    decreases |buf| - from
  {
    if from < |buf| && !EndsAt(buf, from) {
      FindEndIsFirst(buf, from + 1);
    }
  }

  lemma NextEventIs(buf: string, i: nat)
    requires EndsAt(buf, i) && forall j :: 0 <= j < i ==> !EndsAt(buf, j)
    ensures NextEvent(buf) == Some(CutAt(buf, i))
  {
    FindEndIsFirst(buf, 0);
  }

  lemma NoNextEvent(buf: string)
    ensures NextEvent(buf).None? <==> forall i: nat :: i < |buf| ==> !EndsAt(buf, i)
  {
    FindEndIsFirst(buf, 0);
  }

  // Before the first end, more input changes nothing.
  lemma EarlierStays(buf: string, more: string, i: nat, j: nat)
    requires EndsAt(buf, i) && j < i && !EndsAt(buf, j)
    ensures !EndsAt(buf + more, j)
  {
    assert (buf + more)[j] == buf[j] && (buf + more)[j + 1] == buf[j + 1];
    if j + 2 < |buf| { assert (buf + more)[j + 2] == buf[j + 2]; }
  }

  lemma CutStays(buf: string, more: string, i: nat)
    requires EndsAt(buf, i)
    ensures EndsAt(buf + more, i)
    ensures CutAt(buf + more, i) == CutAt(buf, i).(rest := CutAt(buf, i).rest + more)
  {
    var all := buf + more;
    assert all[i] == buf[i] && all[i + 1] == buf[i + 1];
    assert all[..i + 1] == buf[..i + 1];
    if BlankIsCrlf(buf, i) {
      assert all[i + 2] == buf[i + 2];
      assert all[i + 3..] == buf[i + 3..] + more;
    } else {
      assert all[i + 2..] == buf[i + 2..] + more;
    }
  }

  /** A block that is complete stays the same block when more input arrives. */
  lemma CompleteStays(buf: string, more: string)
    requires NextEvent(buf).Some?
    ensures NextEvent(buf + more) ==
            Some(NextEvent(buf).value.(rest := NextEvent(buf).value.rest + more))
  {
    FindEndIsFirst(buf, 0);
    var i := FindEnd(buf, 0).value;
    forall j | 0 <= j < i ensures !EndsAt(buf + more, j) {
      EarlierStays(buf, more, i, j);
    }
    CutStays(buf, more, i);
    NextEventIs(buf, i);
    hide FindEnd, EndsAt, CutAt;
    NextEventIs(buf + more, i);
  }

  // What a partial block keeps in mind about a coming blank line.
  datatype Mark = Plain | Newline | NewlineCr

  function MarkOf(t: string): Mark {
    if t != "" && t[|t| - 1] == '\n' then Newline
    else if |t| >= 2 && t[|t| - 2] == '\n' && t[|t| - 1] == '\r' then NewlineCr
    else Plain
  }

  function Keep(t: string): string {
    match MarkOf(t)
    case Plain => ""
    case Newline => "\n"
    case NewlineCr => "\n\r"
  }

  lemma {:induction false} StepEvent(t: string, b: char)
    requires NextEvent(t).None?
    ensures NextEvent(t + [b]) ==
            if b == '\n' && MarkOf(t).Newline? then Some(Cut(t, false, ""))
            else if b == '\n' && MarkOf(t).NewlineCr? then Some(Cut(t[..|t| - 1], true, ""))
            else None
    ensures MarkOf(t + [b]) ==
            if b == '\n' then Newline else if b == '\r' && MarkOf(t).Newline? then NewlineCr else Plain
  {
    hide NextEvent, FindEnd;
    var u := t + [b];
    NoNextEvent(t);
    NoNextEvent(u);
    if b == '\n' && MarkOf(t).Newline? {
      var i := |t| - 1;
      assert EndsAt(u, i) && forall j :: 0 <= j < i ==> EndsAt(u, j) ==> EndsAt(t, j);
      NextEventIs(u, i);
      assert u[..i + 1] == t && u[i + 2..] == "";
    } else if b == '\n' && MarkOf(t).NewlineCr? {
      var i := |t| - 2;
      assert EndsAt(u, i) && forall j :: 0 <= j < i ==> EndsAt(u, j) ==> EndsAt(t, j);
      NextEventIs(u, i);
      assert u[..i + 1] == t[..|t| - 1] && u[i + 3..] == "";
    } else {
      assert forall j: nat :: j < |u| && EndsAt(u, j) ==> EndsAt(t, j);
    }
  }

  /** Two partial blocks with the same mark are completed by the same input,
      and leave the same rest. */
  lemma {:induction false} MarkDecides(t: string, u: string, more: string)
    requires NextEvent(t).None? && NextEvent(u).None? && MarkOf(t) == MarkOf(u)
    ensures NextEvent(t + more).None? == NextEvent(u + more).None?
    ensures NextEvent(t + more).None? ==> MarkOf(t + more) == MarkOf(u + more)
    ensures NextEvent(t + more).Some? ==>
              && NextEvent(t + more).value.rest == NextEvent(u + more).value.rest
              && |t| <= |NextEvent(t + more).value.event| + (if NextEvent(t + more).value.crlf then 1 else 0)
    decreases |more|
  {
    if more == "" {
      assert t + more == t && u + more == u;
    } else {
      var b, m := more[0], more[1..];
      assert t + more == (t + [b]) + m && u + more == (u + [b]) + m;
      StepEvent(t, b);
      StepEvent(u, b);
      if NextEvent(t + [b]).Some? {
        CompleteStays(t + [b], m);
        CompleteStays(u + [b], m);
      } else {
        MarkDecides(t + [b], u + [b], m);
      }
    }
  }

  lemma KeepsMark(t: string)
    requires NextEvent(t).None?
    ensures NextEvent(Keep(t)).None? && MarkOf(Keep(t)) == MarkOf(t) && |Keep(t)| <= 2
  {
    NoNextEvent(Keep(t));
  }

  // ---- payloads ----

  /** The data joined so far; `has` once a data field was seen. */
  datatype Data = Data(has: bool, joined: string)

  function TrimCr(line: string): string {
    if line != "" && line[|line| - 1] == '\r' then line[..|line| - 1] else line
  }

  /** The value of a "data" line, with one optional leading space removed. */
  function DataField(line: string): Option<string> {
    if !("data" <= line) then None
    else
      var rest := line[4..];
      if rest == "" then Some("")
      else if rest[0] != ':' then None
      else if |rest| > 1 && rest[1] == ' ' then Some(rest[2..])
      else Some(rest[1..])
  }

  function Join(d: Data, value: string): Data {
    Data(true, (if d.has then d.joined + "\n" else d.joined) + value)
  }

  /** One line of a block, without its newline. */
  function AddLine(d: Data, raw: string): Data {
    var line := TrimCr(raw);
    if line == "" || line[0] == ':' then d
    else match DataField(line)
         case None => d
         case Some(value) => Join(d, value)
  }

  function IndexOf(s: string, c: char): (i: nat)
    ensures i <= |s| && (i < |s| ==> s[i] == c) && forall j :: 0 <= j < i ==> s[j] != c
  {
    if s == "" || s[0] == c then 0 else 1 + IndexOf(s[1..], c)
  }

  function EventDataFrom(d: Data, event: string): Data
    decreases |event|
  {
    if event == "" then d
    else
      var k := IndexOf(event, '\n');
      if k == |event| then AddLine(d, event) else EventDataFrom(AddLine(d, event[..k]), event[k + 1..])
  }

  /** The joined data payload of one raw block. */
  function EventData(event: string): Data { EventDataFrom(Data(false, ""), event) }

  // ---- what a stream delivers ----

  datatype Delivery = Delivery(payloads: seq<string>, stopped: bool, tail: string)

  /** Blocks in order: each data payload is delivered, up to the first after
      which the consumer stops. Without a sink, blocks over the cap are left
      out. `tail` is the unterminated block at the end. */
  function Deliver(cap: nat, sink: bool, terminal: seq<string> -> bool, s: string, done: seq<string>): Delivery
    decreases |s|
  {
    match NextEvent(s)
    case None => Delivery(done, false, s)
    case Some(c) =>
      var d := EventData(c.event);
      if d.has && (sink || |c.event| <= cap) then
        var now := done + [d.joined];
        if terminal(now) then Delivery(now, true, "") else Deliver(cap, sink, terminal, c.rest, now)
      else Deliver(cap, sink, terminal, c.rest, done)
  }

  /** More input continues from the tail. */
  lemma {:induction false} DeliverMore(cap: nat, sink: bool, terminal: seq<string> -> bool, s: string,
                                       more: string, done: seq<string>)
    ensures var d := Deliver(cap, sink, terminal, s, done);
            Deliver(cap, sink, terminal, s + more, done) ==
            if d.stopped then d else Deliver(cap, sink, terminal, d.tail + more, d.payloads)
    decreases |s|
  {
    if NextEvent(s).Some? {
      var c := NextEvent(s).value;
      CompleteStays(s, more);
      var d := EventData(c.event);
      if d.has && (sink || |c.event| <= cap) {
        DeliverMore(cap, sink, terminal, c.rest, more, done + [d.joined]);
      } else {
        DeliverMore(cap, sink, terminal, c.rest, more, done);
      }
    }
  }

  predicate StartsBlank(t: string) { "\n" <= t || "\r\n" <= t }

  /** With a sink: a block long enough to be lexed in pieces does not start
      with a blank line. Without one: no block of exactly `cap` bytes is
      followed by a CR LF blank line. */
  predicate Fair(cap: nat, sink: bool, s: string)
    decreases |s|
  {
    match NextEvent(s)
    case None => sink && |s| > cap ==> !StartsBlank(s)
    case Some(c) =>
      && (if sink then |c.event| + (if c.crlf then 1 else 0) > cap ==> !StartsBlank(c.event)
          else !(|c.event| == cap && c.crlf))
      && Fair(cap, sink, c.rest)
  }

  lemma {:induction false} FairRest(cap: nat, sink: bool, terminal: seq<string> -> bool, s: string,
                                    more: string, done: seq<string>)
    requires Fair(cap, sink, s + more) && !Deliver(cap, sink, terminal, s, done).stopped
    ensures Fair(cap, sink, Deliver(cap, sink, terminal, s, done).tail + more)
    decreases |s|
  {
    if NextEvent(s).Some? {
      var c := NextEvent(s).value;
      CompleteStays(s, more);
      var d := EventData(c.event);
      FairRest(cap, sink, terminal, c.rest, more,
               if d.has && (sink || |c.event| <= cap) then done + [d.joined] else done);
    }
  }

  lemma {:induction false} DeliverTail(cap: nat, sink: bool, terminal: seq<string> -> bool, s: string,
                                       done: seq<string>)
    ensures var d := Deliver(cap, sink, terminal, s, done); !d.stopped ==> NextEvent(d.tail).None?
    decreases |s|
  {
    if NextEvent(s).Some? {
      var c := NextEvent(s).value;
      var d := EventData(c.event);
      DeliverTail(cap, sink, terminal, c.rest,
                  if d.has && (sink || |c.event| <= cap) then done + [d.joined] else done);
    }
  }

  /** A block and its blank line are a stream of one block. */
  lemma CutAlone(s: string)
    requires NextEvent(s).Some?
    ensures var c := NextEvent(s).value;
            && NextEvent(s[..|s| - |c.rest|]) == Some(c.(rest := ""))
            && NextEvent(c.event + "\n") == Some(Cut(c.event, false, ""))
            && c.event <= s && c.event != "" && s == s[..|s| - |c.rest|] + c.rest
  {
    FindEndIsFirst(s, 0);
    var i := FindEnd(s, 0).value;
    NextEventIs(s, i);
    hide FindEnd, NextEvent;
    var c := CutAt(s, i);
    var whole, alone := s[..|s| - |c.rest|], c.event + "\n";
    assert forall j :: 0 <= j <= i ==> whole[j] == s[j] && alone[j] == s[j];
    forall j | 0 <= j < i ensures !EndsAt(whole, j) && !EndsAt(alone, j) { assert !EndsAt(s, j); }
    assert EndsAt(whole, i) && EndsAt(alone, i);
    NextEventIs(whole, i);
    NextEventIs(alone, i);
    assert CutAt(whole, i) == c.(rest := "");
    assert CutAt(alone, i) == Cut(c.event, false, "");
  }

  lemma BlankStart(s: string)
    requires NextEvent(s).Some?
    ensures StartsBlank(s) <==> StartsBlank(NextEvent(s).value.event)
  {
    CutAlone(s);
    var e := NextEvent(s).value.event;
    assert e[|e| - 1] == '\n' by { FindEndIsFirst(s, 0); }
    assert e[0] == s[0] && (|e| > 1 ==> e[1] == s[1]);
  }

  /** What is fair for a stream is fair for what has arrived of it. */
  lemma {:induction false} FairPrefix(cap: nat, sink: bool, s: string, more: string)
    requires Fair(cap, sink, s + more)
    ensures Fair(cap, sink, s)
    decreases |s|
  {
    if NextEvent(s).Some? {
      CompleteStays(s, more);
      FairPrefix(cap, sink, NextEvent(s).value.rest, more);
    } else {
      assert StartsBlank(s) ==> StartsBlank(s + more);
      MarkDecides(s, s, more);
      if NextEvent(s + more).Some? { BlankStart(s + more); }
    }
  }

  // A stream that is one block, delivered by a consumer with a sink.
  lemma DeliverAlone(cap: nat, terminal: seq<string> -> bool, s: string, done: seq<string>)
    requires NextEvent(s).Some? && NextEvent(s).value.rest == ""
    ensures var d := EventData(NextEvent(s).value.event);
            var now := if d.has then done + [d.joined] else done;
            Deliver(cap, true, terminal, s, done) == Delivery(now, d.has && terminal(now), "")
  {
    assert NextEvent("").None? by { NoNextEvent(""); }
    hide NextEvent, EventData;
  }

  lemma DeliverNone(cap: nat, sink: bool, terminal: seq<string> -> bool, s: string, done: seq<string>)
    requires NextEvent(s).None?
    ensures Deliver(cap, sink, terminal, s, done) == Delivery(done, false, s)
  {
  }

  /** A CR LF blank line split behind its CR: a block of exactly `cap` bytes,
      though within the cap, meets the guard that discards over-cap buffers. */
  lemma SplitCrOverflows(cap: nat, s: string)
    requires NextEvent(s).Some? && NextEvent(s).value.crlf
    ensures var e := NextEvent(s).value.event;
            && NextEvent(e + "\r").None? && e + "\r" <= s
            && (|e| == cap ==> |e + "\r"| > cap)
  {
    FindEndIsFirst(s, 0);
    var i := FindEnd(s, 0).value;
    var e := s[..i + 1];
    var t := e + "\r";
    assert t == s[..i + 2];
    forall j: nat | j < |t| ensures !EndsAt(t, j) {
      if j < i { assert !EndsAt(s, j); }
    }
    NoNextEvent(t);
  }
}
