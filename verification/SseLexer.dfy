/** The over-cap event lexer as a function from state and byte to state, and
    its agreement with `EventData` on every block that does not start with a
    blank line. */
module SseLexer {
  import opened SseBlocks

  const MAX_FIELD: nat := 8

  datatype State = LineStart | LineStartCr | FieldName | FieldCr | DataValueStart | DataValue | SkipLine

  // `out` is everything handed to the sink so far.
  datatype Lexer = Lexer(state: State, field: string, sawData: bool, heldCr: bool, out: string)

  const INITIAL: Lexer := Lexer(LineStart, "", false, false, "")

  function Begin(l: Lexer): Lexer {
    l.(out := if l.sawData then l.out + "\n" else l.out, sawData := true)
  }

  function EndFieldOnly(l: Lexer): Lexer {
    (if l.field == "data" then Begin(l) else l).(state := LineStart)
  }

  function Skip(l: Lexer, b: char): Lexer {
    l.(state := if b == '\n' then LineStart else SkipLine)
  }

  function Take(l: Lexer, b: char): Lexer {
    if l.heldCr && b == '\n' then l.(heldCr := false, state := LineStart)
    else
      var m := if l.heldCr then l.(heldCr := false, out := l.out + "\r") else l;
      if b == '\r' then m.(heldCr := true, state := DataValue)
      else if b == '\n' then m.(state := LineStart)
      else m.(out := m.out + [b], state := DataValue)
  }

  /** The blank line that ends the event. */
  predicate Ends(l: Lexer, b: char) { b == '\n' && (l.state.LineStart? || l.state.LineStartCr?) }

  function LexByte(l: Lexer, b: char): Lexer {
    match l.state
    case LineStart =>
      if b == '\r' then l.(state := LineStartCr)
      else if b == ':' then l.(state := SkipLine)
      else l.(field := [b], state := FieldName)
    case LineStartCr => Skip(l, b)
    case FieldName =>
      if b == ':' then l.(state := if l.field == "data" then DataValueStart else SkipLine)
      else if b == '\n' then EndFieldOnly(l)
      else if b == '\r' then l.(state := FieldCr)
      else if |l.field| >= MAX_FIELD then Skip(l, b)
      else l.(field := l.field + [b])
    case FieldCr => if b == '\n' then EndFieldOnly(l) else Skip(l, b)
    case DataValueStart => if b == ' ' then Begin(l).(state := DataValue) else Take(Begin(l), b)
    case DataValue => Take(l, b)
    case SkipLine => Skip(l, b)
  }

  /** `used` bytes were consumed; `done` says the last of them ended the event. */
  datatype Lexed = Lexed(lexer: Lexer, used: nat, done: bool)

  function Lex(l: Lexer, p: string): (r: Lexed)
    ensures r.used <= |p| && (!r.done ==> r.used == |p|) && (p != "" ==> r.used > 0)
    decreases |p|
  {
    if p == "" then Lexed(l, 0, false)
    else if Ends(l, p[0]) then Lexed(l, 1, true)
    else var r := Lex(LexByte(l, p[0]), p[1..]); Lexed(r.lexer, r.used + 1, r.done)
  }

  function After(k: nat, r: Lexed): Lexed { r.(used := k + r.used) }

  lemma LexOne(l: Lexer, p: string)
    requires p != "" && !Ends(l, p[0])
    ensures Lex(l, p) == After(1, Lex(LexByte(l, p[0]), p[1..]))
  {
  }

  // States a byte can be handled in again, without being consumed.
  lemma LexAgain(l: Lexer, m: Lexer, p: string)
    requires p != "" && !Ends(l, p[0]) && !Ends(m, p[0]) && LexByte(l, p[0]) == LexByte(m, p[0])
    ensures Lex(l, p) == Lex(m, p)
  {
  }

  /** A run of value bytes goes to the sink as it is. */
  lemma {:induction false} LexRun(l: Lexer, p: string, n: nat)
    requires l.state.DataValue? && !l.heldCr && n <= |p|
    requires forall i :: 0 <= i < n ==> p[i] != '\n' && p[i] != '\r'
    ensures Lex(l, p) == After(n, Lex(l.(out := l.out + p[..n]), p[n..]))
    decreases n
  {
    if n == 0 {
      assert p[0..] == p && l.out + p[..0] == l.out;
    } else {
      var m := l.(out := l.out + [p[0]]);
      LexOne(l, p);
      assert LexByte(l, p[0]) == m;
      LexRun(m, p[1..], n - 1);
      assert p[1..][n - 1..] == p[n..] && l.out + [p[0]] + p[1..][..n - 1] == l.out + p[..n];
    }
  }

  // Iterations of the lexer's loop that consume nothing come first.
  function Pending(s: State): nat { if s.SkipLine? || s.DataValue? then 0 else 1 }

  lemma {:induction false} LexAppend(l: Lexer, a: string, b: string)
    ensures Lex(l, a + b) ==
            var r := Lex(l, a);
            if r.done then r else var q := Lex(r.lexer, b); Lexed(q.lexer, |a| + q.used, q.done)
    decreases |a|
  {
    if a == "" {
      assert a + b == b;
    } else {
      assert (a + b)[0] == a[0] && (a + b)[1..] == a[1..] + b;
      if !Ends(l, a[0]) { LexAppend(LexByte(l, a[0]), a[1..], b); }
    }
  }

  predicate NoNewline(s: string) { forall i :: 0 <= i < |s| ==> s[i] != '\n' }

  predicate AtLine(l: Lexer, d: Data) {
    l.state.LineStart? && !l.heldCr && l.sawData == d.has && l.out == d.joined
  }

  // ---- one line ----

  lemma {:induction false} SkipRun(l: Lexer, s: string, rest: string)
    requires l.state.SkipLine? && NoNewline(s)
    ensures Lex(l, s + rest) == var q := Lex(l, rest); Lexed(q.lexer, |s| + q.used, q.done)
    decreases |s|
  {
    if s == "" {
      assert s + rest == rest;
    } else {
      assert (s + rest)[0] == s[0] && (s + rest)[1..] == s[1..] + rest;
      SkipRun(l, s[1..], rest);
    }
  }

  function Held(l: Lexer): string { if l.heldCr then l.out + "\r" else l.out }

  lemma TakeOne(l: Lexer, b: char)
    requires l.state.DataValue? && b != '\n'
    ensures LexByte(l, b) == Take(l, b) && Take(l, b).state.DataValue? && !Ends(l, b)
    ensures Held(Take(l, b)) == Held(l) + [b] && (Take(l, b).heldCr <==> b == '\r')
    ensures Take(l, b).sawData == l.sawData && Take(l, b).field == l.field
  {
  }

  /** What a data value leaves in the sink: its text, except a final CR, which
      is held back. */
  lemma {:induction false} TakeRun(l: Lexer, s: string)
    requires l.state.DataValue? && NoNewline(s)
    ensures !Lex(l, s).done
    ensures var m := Lex(l, s).lexer;
            && m.state.DataValue? && m.sawData == l.sawData && m.field == l.field
            && Held(m) == Held(l) + s
            && m.heldCr == if s == "" then l.heldCr else s[|s| - 1] == '\r'
    decreases |s|
  {
    hide Take, LexByte, Held;
    if s == "" {
      assert Held(l) + s == Held(l);
    } else {
      TakeOne(l, s[0]);
      TakeRun(Take(l, s[0]), s[1..]);
      assert Held(l) + [s[0]] + s[1..] == Held(l) + s;
    }
  }

  lemma OneByte(l: Lexer, s: string)
    requires s != "" && !Ends(l, s[0])
    ensures var q := Lex(LexByte(l, s[0]), s[1..]);
            Lex(l, s) == Lexed(q.lexer, 1 + q.used, q.done) && s == [s[0]] + s[1..]
  {
  }

  // A data value and its newline, with what came before the value.
  lemma ValueLine(l: Lexer, value: string)
    requires l.state.DataValue? && !l.heldCr && NoNewline(value)
    ensures var r := Lex(l, value + "\n");
            && !r.done && r.lexer == Lexer(LineStart, l.field, l.sawData, false, l.out + TrimCr(value))
  {
    LexAppend(l, value, "\n");
    TakeRun(l, value);
    var m := Lex(l, value).lexer;
    assert Lex(m, "\n").lexer == Take(m, '\n') by { assert Lex(Take(m, '\n'), "").lexer == Take(m, '\n'); }
    if m.heldCr {
      assert value == TrimCr(value) + "\r";
      assert m.out + "\r" == (l.out + TrimCr(value)) + "\r";
      assert (m.out + "\r")[..|m.out|] == m.out;
    }
  }

  // After "data:": the optional space, the value, the newline.
  lemma DataLine(l: Lexer, rest: string)
    requires l.state.DataValueStart? && !l.heldCr && NoNewline(rest)
    ensures var value := TrimCr(if rest != "" && rest[0] == ' ' then rest[1..] else rest);
            var r := Lex(l, rest + "\n");
            && !r.done
            && r.lexer == Begin(l).(state := LineStart, out := Begin(l).out + value)
  {
    var s := rest + "\n";
    OneByte(l, s);
    var v := Begin(l).(state := DataValue);
    if rest != "" && rest[0] == ' ' {
      assert s[1..] == rest[1..] + "\n";
      ValueLine(v, rest[1..]);
    } else {
      OneByte(v, s);
      assert LexByte(l, s[0]) == LexByte(v, s[0]);
      ValueLine(v, rest);
    }
  }

  lemma FieldByte(l: Lexer, b: char)
    requires l.state.FieldName? && b != '\n' && b != ':' && b != '\r'
    ensures !Ends(l, b)
    ensures LexByte(l, b) == if |l.field| >= MAX_FIELD then l.(state := SkipLine) else l.(field := l.field + [b])
  {
  }

  // The field name seen so far, up to its bound.
  lemma {:induction false} NameRun(l: Lexer, s: string, rest: string) returns (m: Lexer, k: nat)
    requires l.state.FieldName? && NoNewline(s) && |l.field| <= MAX_FIELD
    ensures k <= |s|
    ensures Lex(l, s + rest) == var q := Lex(m, s[k..] + rest); Lexed(q.lexer, k + q.used, q.done)
    ensures m == l.(field := m.field, state := m.state)
    ensures || (m.state.FieldName? && m.field == l.field + s[..k] && (k == |s| || s[k] == ':' || s[k] == '\r'))
            || (m.state.SkipLine? && |l.field + s[..k]| > MAX_FIELD &&
                forall i :: 0 <= i < k ==> s[i] != ':' && s[i] != '\r')
    ensures forall i :: 0 <= i < k ==> s[i] != ':' && s[i] != '\r'
    decreases |s|
  {
    hide Lex, LexByte;
    if s == "" || s[0] == ':' || s[0] == '\r' {
      m, k := l, 0;
      assert s[0..] == s && l.field + s[..0] == l.field;
    } else {
      assert (s + rest)[0] == s[0] && (s + rest)[1..] == s[1..] + rest;
      FieldByte(l, s[0]);
      OneByte(l, s + rest);
      if |l.field| >= MAX_FIELD {
        m, k := l.(state := SkipLine), 1;
      } else {
        var j;
        m, j := NameRun(l.(field := l.field + [s[0]]), s[1..], rest);
        k := j + 1;
        assert s[1..][j..] == s[k..] && s[..k] == [s[0]] + s[1..][..j];
        assert l.field + [s[0]] + s[1..][..j] == l.field + ([s[0]] + s[1..][..j]);
      }
    }
  }

  lemma SkippedLine(l: Lexer, d: Data, raw: string)
    requires AtLine(l.(state := LineStart), d) && l.state.SkipLine? && NoNewline(raw)
    ensures var r := Lex(l, raw + "\n"); !r.done && AtLine(r.lexer, d) && r.lexer.state.LineStart?
  {
    SkipRun(l, raw, "\n");
    OneByte(l, "\n");
    assert Lex(LexByte(l, '\n'), "").lexer == LexByte(l, '\n');
  }

  lemma CommentLine(l: Lexer, d: Data, raw: string)
    requires AtLine(l, d) && NoNewline(raw) && raw != "" && raw[0] == ':'
    ensures var r := Lex(l, raw + "\n"); !r.done && AtLine(r.lexer, AddLine(d, raw))
  {
    OneByte(l, raw + "\n");
    assert (raw + "\n")[1..] == raw[1..] + "\n";
    SkippedLine(LexByte(l, ':'), d, raw[1..]);
  }

  // A line that starts with a stray CR is no data line.
  lemma CrLine(l: Lexer, d: Data, raw: string)
    requires AtLine(l, d) && NoNewline(raw) && |raw| > 1 && raw[0] == '\r'
    ensures var r := Lex(l, raw + "\n"); !r.done && AtLine(r.lexer, AddLine(d, raw))
  {
    var s := raw + "\n";
    OneByte(l, s);
    var m := LexByte(l, '\r');
    OneByte(m, s[1..]);
    assert s[1..][1..] == raw[2..] + "\n" && s[1] == raw[1];
    assert LexByte(m, raw[1]) == m.(state := SkipLine);
    SkippedLine(LexByte(m, raw[1]), d, raw[2..]);
    assert TrimCr(raw)[0] == '\r';
    assert !("data" <= TrimCr(raw));
  }

  lemma ShortName(raw: string, name: string, rest: string)
    requires raw == name + rest && |name| < 4 && (rest == "" || rest[0] == ':' || rest[0] == '\r')
    ensures !("data" <= TrimCr(raw))
  {
    if |TrimCr(raw)| >= 4 {
      assert TrimCr(raw)[|name|] == raw[|name|] == rest[0];
    }
  }

  lemma ShortNameIfShort(raw: string, name: string, rest: string)
    requires raw == name + rest && (|name| < 4 ==> rest == "" || rest[0] == ':' || rest[0] == '\r')
    ensures "data" <= TrimCr(raw) ==> |name| >= 4
  {
    if |name| < 4 { ShortName(raw, name, rest); }
  }

  lemma NoNewlineAfter(raw: string, name: string, rest: string)
    requires NoNewline(raw) && raw == name + rest
    ensures NoNewline(rest) && (rest != "" ==> NoNewline(rest[1..]))
  {
    forall i | 0 <= i < |rest| ensures rest[i] != '\n' { assert raw[|name| + i] == rest[i]; }
  }

  // No data line: the name is not "data", or it is not followed by a colon.
  lemma NotData(d: Data, raw: string, name: string, rest: string)
    requires raw == name + rest && name != "" && name[0] != ':' && name[0] != '\r'
    requires forall i :: 0 <= i < |name| ==> name[i] != ':' && name[i] != '\r'
    requires || |name| > MAX_FIELD
             || (name != "data" && (rest == "" || rest[0] == ':' || rest[0] == '\r'))
             || (name == "data" && |rest| > 1 && rest[0] == '\r')
    ensures AddLine(d, raw) == d
  {
    var line := TrimCr(raw);
    assert name <= line by {
      if line != raw { assert rest != "" && line == name + rest[..|rest| - 1]; }
    }
    assert line[0] == name[0];
    if "data" <= line {
      assert forall i :: 0 <= i < |name| ==> line[i] == name[i];
      ShortNameIfShort(raw, name, rest);
      assert line[4..] != "";
    }
  }

  lemma NameByte(l: Lexer, d: Data, raw: string)
    requires AtLine(l, d) && NoNewline(raw) && raw != "" && raw[0] != ':' && raw[0] != '\r'
    ensures Lex(l, raw + "\n") == After(1, Lex(l.(field := [raw[0]], state := FieldName), raw[1..] + "\n"))
    ensures NoNewline(raw[1..])
  {
    LexOne(l, raw + "\n");
    assert (raw + "\n")[1..] == raw[1..] + "\n" && (raw + "\n")[0] == raw[0];
  }

  lemma StillAtLine(l: Lexer, m: Lexer, d: Data)
    requires AtLine(l, d) && m == l.(field := m.field, state := m.state)
    ensures AtLine(m.(state := LineStart), d)
  {
  }

  lemma NamedLine(l: Lexer, d: Data, raw: string)
    requires AtLine(l, d) && NoNewline(raw) && raw != "" && raw[0] != ':' && raw[0] != '\r'
    ensures var r := Lex(l, raw + "\n"); !r.done && AtLine(r.lexer, AddLine(d, raw))
  {
    hide Lex, LexByte, AddLine, AtLine, NoNewline;
    var p := l.(field := [raw[0]], state := FieldName);
    NameByte(l, d, raw);
    var s := raw[1..];
    var m, k := NameRun(p, s, "\n");
    var name, rest := raw[..k + 1], raw[k + 1..];
    assert [raw[0]] + s[..k] == name && s[k..] == rest && raw == name + rest;
    assert forall i :: 0 <= i < |name| ==> name[i] != ':' && name[i] != '\r';
    StillAtLine(l, m, d);
    AfterName(m, d, raw, name, rest);
  }

  lemma AfterName(m: Lexer, d: Data, raw: string, name: string, rest: string)
    requires AtLine(m.(state := LineStart), d) && NoNewline(raw) && raw == name + rest && name != ""
    requires forall i :: 0 <= i < |name| ==> name[i] != ':' && name[i] != '\r'
    requires || (m.state.FieldName? && m.field == name && (rest == "" || rest[0] == ':' || rest[0] == '\r'))
             || (m.state.SkipLine? && |name| > MAX_FIELD)
    ensures var r := Lex(m, rest + "\n"); !r.done && AtLine(r.lexer, AddLine(d, raw))
  {
    NoNewlineAfter(raw, name, rest);
    if m.state.SkipLine? {
      NotData(d, raw, name, rest);
      SkippedLine(m, d, rest);
    } else if rest == "" {
      BareName(m, d, raw);
      assert rest + "\n" == "\n" && raw == name;
    } else if rest[0] == ':' {
      ColonAfterName(m, d, raw, name, rest);
    } else {
      CrAfterName(m, d, raw, name, rest);
    }
  }

  lemma BareName(m: Lexer, d: Data, raw: string)
    requires AtLine(m.(state := LineStart), d) && m.state.FieldName? && m.field == raw && raw != ""
    requires forall i :: 0 <= i < |raw| ==> raw[i] != ':' && raw[i] != '\r'
    ensures var r := Lex(m, "\n"); !r.done && AtLine(r.lexer, AddLine(d, raw))
  {
    OneByte(m, "\n");
    var r := LexByte(m, '\n');
    assert Lex(r, "").lexer == r;
    assert TrimCr(raw) == raw;
    if raw == "data" {
      assert DataField(raw) == Some("");
      assert (if d.has then d.joined + "\n" else d.joined) + "" == if d.has then d.joined + "\n" else d.joined;
    } else {
      assert raw + "" == raw;
      NotData(d, raw, raw, "");
    }
  }

  lemma ColonAfterName(m: Lexer, d: Data, raw: string, name: string, rest: string)
    requires AtLine(m.(state := LineStart), d) && m.state.FieldName? && m.field == name && name != ""
    requires NoNewline(raw) && raw == name + rest && rest != "" && rest[0] == ':'
    requires forall i :: 0 <= i < |name| ==> name[i] != ':' && name[i] != '\r'
    ensures var r := Lex(m, rest + "\n"); !r.done && AtLine(r.lexer, AddLine(d, raw))
  {
    var tail := rest[1..];
    assert rest + "\n" == [':'] + (tail + "\n");
    OneByte(m, rest + "\n");
    assert (rest + "\n")[1..] == tail + "\n";
    var p := LexByte(m, ':');
    NoNewlineAfter(raw, name, rest);
    if name == "data" {
      DataLine(p, tail);
      DataText(raw, tail);
    } else {
      NotData(d, raw, name, rest);
      SkippedLine(p, d, tail);
    }
  }

  lemma DataText(raw: string, tail: string)
    requires raw == "data:" + tail
    ensures TrimCr(raw) != "" && TrimCr(raw)[0] != ':'
    ensures DataField(TrimCr(raw)) == Some(TrimCr(if tail != "" && tail[0] == ' ' then tail[1..] else tail))
  {
    var line := TrimCr(raw);
    assert line == "data:" + TrimCr(tail);
    assert line[4..] == ":" + TrimCr(tail);
    if tail != "" && tail[0] == ' ' {
      assert TrimCr(tail)[0] == ' ' && line[4..][2..] == TrimCr(tail)[1..];
      assert TrimCr(tail)[1..] == TrimCr(tail[1..]);
    } else {
      assert line[4..][1..] == TrimCr(tail);
    }
  }

  lemma SameNewline(m: Lexer, p: Lexer)
    requires m.state.FieldName? && p == m.(state := FieldCr)
    ensures Lex(p, "\n") == Lex(m, "\n")
  {
    assert LexByte(p, '\n') == LexByte(m, '\n');
  }

  lemma CrInside(p: Lexer, d: Data, tail: string)
    requires AtLine(p.(state := LineStart), d) && p.state.FieldCr? && NoNewline(tail) && tail != ""
    ensures var r := Lex(p, tail + "\n"); !r.done && AtLine(r.lexer, d)
  {
    OneByte(p, tail + "\n");
    assert (tail + "\n")[0] == tail[0] && (tail + "\n")[1..] == tail[1..] + "\n";
    SkippedLine(p.(state := SkipLine), d, tail[1..]);
  }

  lemma CrAfterName(m: Lexer, d: Data, raw: string, name: string, rest: string)
    requires AtLine(m.(state := LineStart), d) && m.state.FieldName? && m.field == name && name != ""
    requires NoNewline(raw) && raw == name + rest && rest != "" && rest[0] == '\r'
    requires forall i :: 0 <= i < |name| ==> name[i] != ':' && name[i] != '\r'
    ensures var r := Lex(m, rest + "\n"); !r.done && AtLine(r.lexer, AddLine(d, raw))
  {
    var tail := rest[1..];
    NoNewlineAfter(raw, name, rest);
    OneByte(m, rest + "\n");
    assert (rest + "\n")[1..] == tail + "\n";
    var p := m.(state := FieldCr);
    assert LexByte(m, '\r') == p;
    if tail == "" {
      assert tail + "\n" == "\n";
      SameNewline(m, p);
      BareName(m, d, name);
      assert TrimCr(raw) == name == TrimCr(name);
    } else {
      CrInside(p, d, tail);
      NotData(d, raw, name, rest);
    }
  }

  /** One non-blank line and its newline leave what `AddLine` adds. */
  lemma LineAgrees(l: Lexer, d: Data, raw: string)
    requires AtLine(l, d) && NoNewline(raw) && raw != "" && raw != "\r"
    ensures var r := Lex(l, raw + "\n"); !r.done && AtLine(r.lexer, AddLine(d, raw))
  {
    if raw[0] == ':' { CommentLine(l, d, raw); }
    else if raw[0] == '\r' { CrLine(l, d, raw); }
    else { NamedLine(l, d, raw); }
  }

  // ---- whole blocks ----

  // A line still open does not end the event.
  lemma {:induction false} OpenLine(l: Lexer, raw: string)
    requires NoNewline(raw)
    ensures !Lex(l, raw).done
    decreases |raw|
  {
    hide LexByte;
    if raw != "" { OpenLine(LexByte(l, raw[0]), raw[1..]); }
  }

  lemma EndsShift(t: string, k: nat, i: nat)
    requires k < i < |t|
    ensures EndsAt(t, i) <==> EndsAt(t[k + 1..], i - k - 1)
    ensures EndsAt(t, i) ==>
              CutAt(t, i) == CutAt(t[k + 1..], i - k - 1).(event := t[..k + 1] + CutAt(t[k + 1..], i - k - 1).event)
  {
    var u := t[k + 1..];
    assert u[i - k - 1] == t[i];
    if i + 1 < |t| { assert u[i - k] == t[i + 1]; }
    if i + 2 < |t| { assert u[i - k + 1] == t[i + 2]; }
    if EndsAt(t, i) {
      assert t[..i + 1] == t[..k + 1] + u[..i - k];
      assert u[i - k + 1..] == t[i + 2..];
      if BlankIsCrlf(t, i) { assert u[i - k + 2..] == t[i + 3..]; }
    }
  }

  lemma EndHere(t: string, k: nat)
    requires k < |t| && t[k] == '\n'
    ensures EndsAt(t, k) <==> ("\n" <= t[k + 1..] || "\r\n" <= t[k + 1..])
  {
    var u := t[k + 1..];
    if k + 1 < |t| { assert u[0] == t[k + 1]; }
    if k + 2 < |t| { assert u[1] == t[k + 2]; }
  }

  lemma FirstEndAfter(t: string, k: nat)
    requires k < |t| && t[k] == '\n' && forall i :: 0 <= i < k ==> t[i] != '\n'
    ensures EndsAt(t, k) <==> ("\n" <= t[k + 1..] || "\r\n" <= t[k + 1..])
    ensures EndsAt(t, k) ==> NextEvent(t) == Some(CutAt(t, k))
    ensures !EndsAt(t, k) ==>
              NextEvent(t) == match NextEvent(t[k + 1..])
                              case None => None
                              case Some(c) => Some(c.(event := t[..k + 1] + c.event))
  {
    EndHere(t, k);
    assert forall i :: 0 <= i < k ==> !EndsAt(t, i);
    if EndsAt(t, k) {
      NextEventIs(t, k);
    } else {
      EndLater(t, k);
    }
  }

  lemma EndLater(t: string, k: nat)
    requires k < |t| && forall i :: 0 <= i <= k ==> !EndsAt(t, i)
    ensures NextEvent(t) == match NextEvent(t[k + 1..])
                            case None => None
                            case Some(c) => Some(c.(event := t[..k + 1] + c.event))
  {
    var u := t[k + 1..];
    FindEndIsFirst(u, 0);
    match FindEnd(u, 0)
    case None => LaterNone(t, k);
    case Some(i) => LaterSome(t, k, i);
  }

  predicate NoEnds(t: string, n: nat) { forall i :: 0 <= i < n ==> !EndsAt(t, i) }

  lemma LaterNone(t: string, k: nat)
    requires k < |t| && (forall i :: 0 <= i <= k ==> !EndsAt(t, i))
    requires NoEnds(t[k + 1..], |t[k + 1..]|)
    ensures NextEvent(t).None? && NextEvent(t[k + 1..]).None?
  {
    var u := t[k + 1..];
    SameEnds(t, k);
    hide EndsAt, NextEvent;
    NoNextEvent(u);
    forall i: nat | i < |t| ensures !EndsAt(t, i) {
      if i > k { assert !EndsAt(u, i - k - 1); }
    }
    NoNextEvent(t);
  }

  lemma LaterSome(t: string, k: nat, i: nat)
    requires k < |t| && (forall j :: 0 <= j <= k ==> !EndsAt(t, j))
    requires EndsAt(t[k + 1..], i) && NoEnds(t[k + 1..], i)
    ensures NextEvent(t[k + 1..]).Some?
    ensures var c := NextEvent(t[k + 1..]).value; NextEvent(t) == Some(c.(event := t[..k + 1] + c.event))
  {
    var u := t[k + 1..];
    SameEnds(t, k);
    EndsShift(t, k, i + k + 1);
    NextEventIs(u, i);
    hide EndsAt, NextEvent;
    forall j | 0 <= j < i + k + 1 ensures !EndsAt(t, j) {
      if j > k { assert !EndsAt(u, j - k - 1); }
    }
    NextEventIs(t, i + k + 1);
  }

  lemma SameEnds(t: string, k: nat)
    requires k < |t|
    ensures forall i: nat :: k < i < |t| ==> (EndsAt(t, i) <==> EndsAt(t[k + 1..], i - k - 1))
  {
    hide EndsAt, CutAt;
    forall i: nat | k < i < |t| ensures EndsAt(t, i) <==> EndsAt(t[k + 1..], i - k - 1) { EndsShift(t, k, i); }
  }

  /** The lexer ends an event exactly where `NextEvent` does and streams
      exactly the payload `EventData` joins. */
  lemma {:induction false} LexAgrees(l: Lexer, d: Data, t: string)
    requires AtLine(l, d) && t != "" && !StartsBlank(t)
    ensures match NextEvent(t)
            case None => !Lex(l, t).done
            case Some(c) =>
              var r := Lex(l, t);
              var e := EventDataFrom(d, c.event);
              r.done && r.used == |t| - |c.rest| && r.lexer.sawData == e.has && r.lexer.out == e.joined
    decreases |t|
  {
    hide Lex, AtLine, NextEvent, AddLine, EventDataFrom, EndsAt;
    var k := IndexOf(t, '\n');
    if k == |t| {
      OpenBlock(l, t);
    } else {
      var raw, u := t[..k], t[k + 1..];
      FirstLine(l, d, t, k);
      var m := Lex(l, raw + "\n").lexer;
      FirstEndAfter(t, k);
      if EndsAt(t, k) {
        EndedLine(m, AddLine(d, raw), t, k);
        OneLineEvent(d, t[..k + 1], k);
        assert t[..k + 1][..k] == raw;
      } else if u == "" {
        NoNextEvent(u);
        NothingLexed(m);
      } else {
        NotBlankNext(t, k);
        LexAgrees(m, AddLine(d, raw), u);
        if NextEvent(u).Some? { EventLine(d, t, k, NextEvent(u).value.event); }
      }
    }
  }

  // An unfinished line is an unfinished block.
  lemma OpenBlock(l: Lexer, t: string)
    requires NoNewline(t)
    ensures !Lex(l, t).done && NextEvent(t).None?
  {
    hide Lex, NextEvent;
    OpenLine(l, t);
    assert forall i: nat :: i < |t| ==> !EndsAt(t, i);
    NoNextEvent(t);
  }

  // The first line, and what is read after it.
  lemma FirstLine(l: Lexer, d: Data, t: string, k: nat)
    requires AtLine(l, d) && k < |t| && t[k] == '\n' && !StartsBlank(t) && NoNewline(t[..k])
    ensures var r := Lex(l, t[..k] + "\n");
            && AtLine(r.lexer, AddLine(d, t[..k])) && Lex(l, t) == After(k + 1, Lex(r.lexer, t[k + 1..]))
  {
    hide Lex, AtLine, AddLine;
    var raw, u := t[..k], t[k + 1..];
    assert t == raw + ("\n" + u) == (raw + "\n") + u;
    assert raw != "" && raw != "\r";
    LineAgrees(l, d, raw);
    LexAppend(l, raw + "\n", u);
  }

  lemma EndedLine(m: Lexer, d: Data, t: string, k: nat)
    requires EndsAt(t, k) && AtLine(m, d)
    ensures var u := t[k + 1..];
            var r := Lex(m, u);
            && r.done && k + 1 + r.used == |t| - |CutAt(t, k).rest|
            && r.lexer.sawData == d.has && r.lexer.out == d.joined
  {
    EndOfBlock(m, t[k + 1..]);
  }

  lemma NothingLexed(m: Lexer)
    ensures !Lex(m, "").done
  {
  }

  lemma NotBlankNext(t: string, k: nat)
    requires k < |t| && t[k] == '\n' && !EndsAt(t, k)
    ensures !StartsBlank(t[k + 1..])
  {
  }

  lemma EndOfBlock(m: Lexer, u: string)
    requires m.state.LineStart? && ("\n" <= u || "\r\n" <= u)
    ensures var r := Lex(m, u);
            && r.done && r.used == (if u[0] == '\n' then 1 else 2)
            && r.lexer.sawData == m.sawData && r.lexer.out == m.out
  {
    if u[0] != '\n' {
      assert Ends(LexByte(m, '\r'), u[1]) && u[1..][0] == u[1];
    }
  }

  lemma OneLineEvent(d: Data, event: string, k: nat)
    requires |event| == k + 1 && event[k] == '\n' && forall i :: 0 <= i < k ==> event[i] != '\n'
    ensures EventDataFrom(d, event) == AddLine(d, event[..k])
  {
    assert IndexOf(event, '\n') == k;
    assert event[k + 1..] == "";
  }

  lemma EventLine(d: Data, t: string, k: nat, event: string)
    requires k < |t| && t[k] == '\n' && forall i :: 0 <= i < k ==> t[i] != '\n'
    ensures EventDataFrom(d, t[..k + 1] + event) == EventDataFrom(AddLine(d, t[..k]), event)
  {
    var e := t[..k + 1] + event;
    assert e[k] == '\n' && forall i :: 0 <= i < k ==> e[i] == t[i];
    assert IndexOf(e, '\n') == k;
    assert e[..k] == t[..k] && e[k + 1..] == event;
  }

  /** A lexer that has read `tail` goes on with `p` as on the whole block. */
  lemma LexRest(l: Lexer, tail: string, p: string)
    requires Lexed(l, |tail|, false) == Lex(INITIAL, tail) && tail != "" && !StartsBlank(tail + p)
    ensures var r := Lex(l, p);
            match NextEvent(tail + p)
            case None => !r.done
            case Some(c) =>
              && r.done && p[r.used..] == c.rest
              && NextEvent(tail + p[..r.used]) == Some(c.(rest := ""))
              && Data(r.lexer.sawData, r.lexer.out) == EventData(c.event)
    ensures Lex(INITIAL, tail + p) == After(|tail|, Lex(l, p))
  {
    var all := tail + p;
    LexAppend(INITIAL, tail, p);
    LexAgrees(INITIAL, Data(false, ""), all);
    hide Lex, NextEvent, StartsBlank, EventDataFrom;
    if NextEvent(all).Some? {
      var c, r := NextEvent(all).value, Lex(l, p);
      CutAlone(all);
      assert all[|all| - |c.rest|..] == c.rest == p[r.used..];
      assert all[..|all| - |c.rest|] == tail + p[..r.used];
    }
  }

  /** The lexer reads a complete block as `NextEvent` and `EventData` do exactly
      when the block does not start with a blank line. */
  lemma LexesBlockIff(t: string)
    requires NextEvent(t).Some?
    ensures var c := NextEvent(t).value;
            var r := Lex(INITIAL, t);
            (r.done && r.used == |t| - |c.rest| && Data(r.lexer.sawData, r.lexer.out) == EventData(c.event))
            <==> !StartsBlank(t)
  {
    NoNextEvent("");
    if StartsBlank(t) {
      EndOfBlock(INITIAL, t);
      CutAlone(t);
      BlankStart(t);
      var c := NextEvent(t).value;
      assert |t| - |c.rest| > |c.event| by { assert NextEvent(t[..|t| - |c.rest|]).Some?; Longer(t); }
    } else {
      LexAgrees(INITIAL, Data(false, ""), t);
    }
  }

  lemma Longer(t: string)
    requires NextEvent(t).Some?
    ensures |NextEvent(t).value.event| + |NextEvent(t).value.rest| < |t|
  {
    FindEndIsFirst(t, 0);
  }
}
