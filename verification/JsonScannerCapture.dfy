/** What the scanner has noted at the end of a document, read off the tree. */
module JsonScannerCapture {
  import opened JsonGrammar
  import opened JsonScanner
  import opened JsonScannerRuns
  import opened JsonScannerParse

  /** One tracked member in document order: the name it is checked for
      repetition under ("" for the unchecked output member), the name it is
      noted under, and its value. */
  datatype Found = Found(seen: string, name: string, value: Json, next: char)

  /** The bytes kept for a value: its text, and for a number the byte that
      ended it. */
  function Kept(f: Found): string {
    Text(f.value) + if f.value.Num? then [f.next] else ""
  }

  function FoundHere(mode: Mode, stack: seq<Frame>, ms: Members): seq<Found>
    requires ms.Member? && UnitsOk(ms.key)
  {
    var key := KeyOf(ms.key);
    var inner := stack + [Frame(true, key)];
    var next := Next(ms.post, ms.more.NoMembers?, '}');
    if TracksResponse(mode, inner) then [Found("response", "response", ms.value, next)]
    else if Selects(mode, inner) then [Found(SeenName(mode, |inner|, key), key, ms.value, next)]
    else if TracksOutput(mode, inner) then [Found("", "output", ms.value, next)]
    else []
  }

  /** Every tracked member, in document order: those of the root and, in an
      envelope, those of each object under "response". */
  function FoundIn(mode: Mode, stack: seq<Frame>, ms: Members): seq<Found>
    requires MembersOk(ms)
    decreases ms
  {
    if ms.NoMembers? then []
    else
      var inner := stack + [Frame(true, KeyOf(ms.key))];
      assert Ok(ms.value);
      var nested := if TracksResponse(mode, inner) && ms.value.Obj?
                    then FoundIn(mode, inner, ms.value.members) else [];
      FoundHere(mode, stack, ms) + nested + FoundIn(mode, stack, ms.more)
  }

  function Tracked(mode: Mode, d: Document): seq<Found>
    requires DocumentOk(d) && d.value.Obj?
  {
    FoundIn(mode, [], d.value.members)
  }

  /** No tracked name occurs twice. */
  predicate Distinct(fs: seq<Found>) {
    forall i, j :: 0 <= i < j < |fs| && fs[i].seen != "" ==> fs[i].seen != fs[j].seen
  }

  function Note(n: Notes, f: Found): Notes
    requires Ok(f.value)
  {
    FirstByte(f.value);
    var m := (if f.seen == "" then n else Mark(n, f.seen)).(kinds := n.kinds[f.name := Text(f.value)[0]]);
    if f.name == "response" then m.(responseSeen := true)
    else if FieldCap(f.name) == 0 then m
    else if |Kept(f)| <= RawCap(f.name) then m.(fields := n.fields[f.name := Kept(f)])
    else m.(fields := n.fields - {f.name}, dropped := n.dropped + {f.name})
  }

  function NoteAll(n: Notes, fs: seq<Found>): Notes
    requires forall f :: f in fs ==> Ok(f.value)
    decreases |fs|
  {
    if fs == [] then n else NoteAll(Note(n, fs[0]), fs[1..])
  }

  lemma {:induction false} NoteAppend(n: Notes, a: seq<Found>, b: seq<Found>)
    requires forall f :: f in a ==> Ok(f.value)
    requires forall f :: f in b ==> Ok(f.value)
    ensures NoteAll(n, a + b) == NoteAll(NoteAll(n, a), b)
    decreases |a|
  {
    hide Note;
    if a == [] {
      assert a + b == b;
    } else {
      assert (a + b)[0] == a[0] && (a + b)[1..] == a[1..] + b;
      NoteAppend(Note(n, a[0]), a[1..], b);
    }
  }

  lemma {:induction false} FoundOk(mode: Mode, stack: seq<Frame>, ms: Members)
    requires MembersOk(ms)
    ensures forall f :: f in FoundIn(mode, stack, ms) ==> Ok(f.value)
    decreases ms
  {
    if ms.Member? {
      var inner := stack + [Frame(true, KeyOf(ms.key))];
      if ms.value.Obj? { FoundOk(mode, inner, ms.value.members); }
      FoundOk(mode, stack, ms.more);
    }
  }

  // ---- parts of a document where nothing can be selected ----

  /** No key below `stack` is tracked. */
  predicate Inert(mode: Mode, stack: seq<Frame>) {
    match mode
    case Unary => |stack| >= 1
    case Envelope => |stack| >= 2 || (|stack| == 1 && stack[0].key != "response")
  }

  predicate CapturedAbove(n: Notes, depth: nat) { n.capture.Capturing? ==> n.capture.depth <= depth }

  lemma {:induction false} AbsorbKeeps(n: Notes, bytes: string)
    ensures AbsorbAll(n, bytes).pending == n.pending
    ensures AbsorbAll(n, bytes).capture.Capturing? == n.capture.Capturing?
    ensures n.capture.Capturing? ==>
              AbsorbAll(n, bytes).capture == n.capture.(over := AbsorbAll(n, bytes).capture.over)
    decreases |bytes|
  {
    if bytes != "" {
      AbsorbKeeps(Absorb(n, bytes[0]), bytes[1..]);
    }
  }

  function Settle(n: Notes, depth: nat, v: Json, next: char): Notes {
    var m := ScalarNotes(n, Text(v));
    if v.Num? then EndNumber(m, depth, next) else Finish(m, depth)
  }

  lemma ScalarQuiet(n: Notes, text: string)
    requires n.pending == ""
    ensures ScalarNotes(n, text) == AbsorbAll(n, text)
  {
    if text != "" {
      AbsorbKeeps(n, [text[0]]);
      assert text == [text[0]] + text[1..];
      AbsorbCons(n, text[0], text[1..]);
    }
  }

  lemma {:induction false} InertValue(n: Notes, mode: Mode, stack: seq<Frame>, v: Json, next: char)
    requires Ok(v) && Inert(mode, stack) && CapturedAbove(n, |stack|)
    ensures ValueNotes(n, mode, stack, v, next) == Settle(n, |stack|, v, next)
    decreases v, 2
  {
    hide Absorb, AbsorbAll, KeyNotes, Finish, Start, ElemsText, MembersText, ElemsNotes, MembersNotes;
    match v
    case Obj(gap, ms) =>
      var p := Start(Absorb(n, '{'), '{');
      Started(n, '{');
      AbsorbKeeps(p, gap);
      InertMembers(AbsorbAll(p, gap), mode, stack, ms);
      ContainerText(p, '{', gap, MembersText(ms), '}');
      assert Text(v)[1..] == gap + MembersText(ms) + ['}'];
    case Arr(gap, es) =>
      var p := Start(Absorb(n, '['), '[');
      Started(n, '[');
      AbsorbKeeps(p, gap);
      InertElems(AbsorbAll(p, gap), mode, stack, es);
      ContainerText(p, '[', gap, ElemsText(es), ']');
      assert Text(v)[1..] == gap + ElemsText(es) + [']'];
    case _ =>
  }

  lemma Started(n: Notes, b: char)
    ensures var p := Start(Absorb(n, b), b);
            && p.pending == "" && p.capture.Capturing? == n.capture.Capturing?
            && (n.capture.Capturing? ==> p.capture == n.capture.(over := p.capture.over))
  {
  }

  lemma ContainerText(p: Notes, open: char, gap: string, body: string, close: char)
    ensures AbsorbAll(p, gap + body + [close]) == Absorb(AbsorbAll(AbsorbAll(p, gap), body), close)
  {
    hide Absorb, AbsorbAll;
    assert gap + body + [close] == gap + (body + [close]);
    AbsorbAppend(p, gap, body + [close]);
    AbsorbAppend(AbsorbAll(p, gap), body, [close]);
    AbsorbCons(AbsorbAll(AbsorbAll(p, gap), body), close, "");
  }

  // Inside a container nothing ends the capture primed outside it.
  lemma InnerValue(n: Notes, mode: Mode, inner: seq<Frame>, v: Json, next: char)
    requires Ok(v) && inner != [] && Inert(mode, inner)
    requires n.pending == "" && CapturedAbove(n, |inner| - 1)
    ensures ValueNotes(n, mode, inner, v, next) == AbsorbAll(n, Text(v))
    decreases v, 3
  {
    hide Absorb, AbsorbAll, ValueNotes, Text;
    InertValue(n, mode, inner, v, next);
    ScalarQuiet(n, Text(v));
    AbsorbKeeps(n, Text(v));
  }

  lemma {:induction false} InertMembers(n: Notes, mode: Mode, stack: seq<Frame>, ms: Members)
    requires MembersOk(ms) && Inert(mode, stack) && n.pending == "" && CapturedAbove(n, |stack|)
    ensures MembersNotes(n, mode, stack, ms) == AbsorbAll(n, MembersText(ms))
    decreases ms, 1
  {
    hide Absorb, AbsorbAll, ValueNotes, KeyText, ColonText, Text, KeyNotes;
    if ms.NoMembers? {
      AbsorbNone(n);
    } else {
      var inner := stack + [Frame(true, KeyOf(ms.key))];
      var n1 := AbsorbAll(n, KeyText(ms));
      AbsorbKeeps(n, KeyText(ms));
      InertKey(n1, mode, inner);
      var n2 := AbsorbAll(n1, ColonText(ms));
      AbsorbKeeps(n1, ColonText(ms));
      InnerValue(n2, mode, inner, ms.value, Next(ms.post, ms.more.NoMembers?, '}'));
      var n3 := AbsorbAll(n2, Text(ms.value));
      AbsorbKeeps(n2, Text(ms.value));
      var n4 := AbsorbAll(n3, ms.post);
      AbsorbKeeps(n3, ms.post);
      assert MemberNotes(n, mode, stack, ms) == n4;
      var more := MembersText(ms.more);
      Four(n, KeyText(ms), ColonText(ms), Text(ms.value), ms.post, if ms.more.NoMembers? then "" else "," + more);
      if ms.more.NoMembers? {
        AbsorbNone(n4);
      } else {
        AbsorbKeeps(n4, ",");
        AbsorbCons(n4, ',', more);
        InertMembers(Absorb(n4, ','), mode, stack, ms.more);
      }
    }
  }

  lemma Four(n: Notes, a: string, b: string, c: string, d: string, e: string)
    ensures AbsorbAll(n, a + b + c + d + e) ==
            AbsorbAll(AbsorbAll(AbsorbAll(AbsorbAll(AbsorbAll(n, a), b), c), d), e)
  {
    hide *;
    AbsorbAppend(n, a + b + c + d, e);
    AbsorbAppend(n, a + b + c, d);
    AbsorbAppend(n, a + b, c);
    AbsorbAppend(n, a, b);
  }

  lemma InertKey(n: Notes, mode: Mode, inner: seq<Frame>)
    requires inner != [] && Inert(mode, inner[..|inner| - 1])
    ensures KeyNotes(n, mode, inner) == n
  {
  }

  lemma {:induction false} InertElems(n: Notes, mode: Mode, stack: seq<Frame>, es: Elems)
    requires ElemsOk(es) && Inert(mode, stack + [Frame(false, "")]) && n.pending == "" && CapturedAbove(n, |stack|)
    ensures ElemsNotes(n, mode, stack, es) == AbsorbAll(n, ElemsText(es))
    decreases es, 1
  {
    hide Absorb, AbsorbAll, ValueNotes, Text;
    if es.NoElems? {
      AbsorbNone(n);
    } else {
      var inner := stack + [Frame(false, "")];
      var n2 := AbsorbAll(n, es.pre);
      AbsorbKeeps(n, es.pre);
      InnerValue(n2, mode, inner, es.value, Next(es.post, es.more.NoElems?, ']'));
      var n3 := AbsorbAll(n2, Text(es.value));
      AbsorbKeeps(n2, Text(es.value));
      var n4 := AbsorbAll(n3, es.post);
      AbsorbKeeps(n3, es.post);
      var more := ElemsText(es.more);
      Four(n, "", es.pre, Text(es.value), es.post, if es.more.NoElems? then "" else "," + more);
      AbsorbNone(n);
      assert "" + es.pre == es.pre;
      if es.more.NoElems? {
        AbsorbNone(n4);
      } else {
        AbsorbKeeps(n4, ",");
        AbsorbCons(n4, ',', more);
        InertElems(Absorb(n4, ','), mode, stack, es.more);
      }
    }
  }

  // ---- one captured value ----

  predicate Open(n: Notes, name: string) {
    n.capture.Capturing? && n.capture.name == name && !n.capture.over
  }

  function Overflow(n: Notes, name: string): Notes
    requires n.capture.Capturing?
  {
    n.(capture := n.capture.(over := true), dropped := n.dropped + {name}, fields := n.fields - {name})
  }

  lemma {:induction false} AbsorbOver(n: Notes, bytes: string)
    requires n.capture.Capturing? && n.capture.over
    ensures AbsorbAll(n, bytes) == n
    decreases |bytes|
  {
    if bytes != "" { AbsorbOver(n, bytes[1..]); }
  }

  lemma {:induction false} AbsorbMore(n: Notes, name: string, bytes: string)
    requires Open(n, name) && name in n.fields && n.fields[name] != "" && |n.fields[name]| <= RawCap(name)
    ensures AbsorbAll(n, bytes) ==
            if |n.fields[name]| + |bytes| <= RawCap(name) then n.(fields := n.fields[name := n.fields[name] + bytes])
            else Overflow(n, name)
    decreases |bytes|
  {
    if bytes == "" {
      assert n.fields[name] + "" == n.fields[name];
      assert n.fields[name := n.fields[name]] == n.fields;
    } else {
      var m := Absorb(n, bytes[0]);
      if |n.fields[name]| + 1 > RawCap(name) {
        AbsorbOver(m, bytes[1..]);
      } else {
        AbsorbMore(m, name, bytes[1..]);
        assert n.fields[name] + [bytes[0]] + bytes[1..] == n.fields[name] + bytes;
        assert m.fields - {name} == n.fields - {name};
      }
    }
  }

  lemma AbsorbValue(n: Notes, name: string, bytes: string)
    requires Open(n, name) && name !in n.fields && RawCap(name) > 0
    requires bytes != "" && bytes[0] != ':' && !IsSpace(bytes[0])
    ensures AbsorbAll(n, bytes) ==
            if |bytes| <= RawCap(name) then n.(fields := n.fields[name := bytes]) else Overflow(n, name)
  {
    var m := Absorb(n, bytes[0]);
    assert "" + [bytes[0]] == [bytes[0]];
    AbsorbMore(m, name, bytes[1..]);
    assert [bytes[0]] + bytes[1..] == bytes;
    assert m.fields - {name} == n.fields - {name};
  }

  lemma {:induction false} AbsorbBlank(n: Notes, name: string, blank: string)
    requires Open(n, name) && name !in n.fields
    requires forall i :: 0 <= i < |blank| ==> blank[i] == ':' || IsSpace(blank[i])
    ensures AbsorbAll(n, blank) == n
    decreases |blank|
  {
    if blank != "" { AbsorbBlank(n, name, blank[1..]); }
  }

  // The colon, the value and, for a number, its ending byte.
  lemma CapturedValue(n: Notes, name: string, depth: nat, ms: Members, next: char)
    requires ms.Member? && MembersOk(ms) && n.capture == Capturing(name, depth, false)
    requires name !in n.fields && RawCap(name) > 0 && n.pending == name && name != ""
    ensures var f := Found("", name, ms.value, next);
            Settle(AbsorbAll(n, ColonText(ms)), depth, ms.value, next) ==
            n.(capture := Idle, pending := "",
               kinds := n.kinds[name := (FirstByte(ms.value); Text(ms.value)[0])],
               fields := if |Kept(f)| <= RawCap(name) then n.fields[name := Kept(f)] else n.fields - {name},
               dropped := if |Kept(f)| <= RawCap(name) then n.dropped else n.dropped + {name})
  {
    hide AbsorbAll, Absorb, RawCap;
    var v := ms.value;
    var text := Text(v);
    FirstByte(v);
    hide Text;
    AbsorbBlank(n, name, ColonText(ms));
    var s := n.(pending := "", kinds := n.kinds[name := text[0]]);
    CommuteStart(n, text);
    assert ScalarNotes(n, text) == AbsorbAll(s, text);
    if v.Num? {
      AbsorbAppend(s, text, [next]);
      AbsorbCons(AbsorbAll(s, text), next, "");
      AbsorbKeeps(s, text);
      AbsorbValue(s, name, text + [next]);
    } else {
      AbsorbValue(s, name, text);
      assert text + "" == text;
    }
  }

  // Noting the kind of a value and charging its bytes do not interfere.
  lemma CommuteStart(n: Notes, text: string)
    requires text != ""
    ensures ScalarNotes(n, text) == AbsorbAll(Start(n, text[0]), text)
  {
    hide AbsorbAll;
    assert text == [text[0]] + text[1..];
    AbsorbCons(Start(n, text[0]), text[0], text[1..]);
  }

  // ---- members of the root and of the response object ----

  predicate Quiet(n: Notes) { n.capture.Idle? && n.pending == "" }

  predicate Watched(mode: Mode, stack: seq<Frame>) {
    stack == [] || (mode.Envelope? && stack == [Frame(true, "response")])
  }

  lemma IdleValue(n: Notes, mode: Mode, inner: seq<Frame>, v: Json, next: char)
    requires Ok(v) && Inert(mode, inner) && n.capture.Idle?
    ensures ValueNotes(n, mode, inner, v, next) == Start(n, (FirstByte(v); Text(v)[0]))
  {
    hide ValueNotes, AbsorbAll, Text;
    InertValue(n, mode, inner, v, next);
    FirstByte(v);
    CommuteStart(n, Text(v));
    AbsorbIdle(Start(n, Text(v)[0]), Text(v));
  }

  /** One member of a watched object. */
  lemma {:induction false} WatchedMember(n: Notes, mode: Mode, stack: seq<Frame>, ms: Members)
    requires ms.Member? && MembersOk(ms) && Quiet(n) && Watched(mode, stack)
    requires !TracksResponse(mode, stack + [Frame(true, KeyOf(ms.key))])
    ensures forall f :: f in FoundHere(mode, stack, ms) ==> Ok(f.value)
    ensures MemberNotes(n, mode, stack, ms) == NoteAll(n, FoundHere(mode, stack, ms))
    ensures Quiet(MemberNotes(n, mode, stack, ms))
  {
    hide AbsorbAll, ValueNotes, Text, Absorb, RawCap;
    var key := KeyOf(ms.key);
    var inner := stack + [Frame(true, key)];
    var v, next := ms.value, Next(ms.post, ms.more.NoMembers?, '}');
    FirstByte(v);
    AbsorbIdle(n, KeyText(ms));
    var named := KeyNotes(n, mode, inner);
    if Selects(mode, inner) {
      SelectedMember(n, mode, stack, ms);
    } else {
      AbsorbIdle(named, ColonText(ms));
      IdleValue(named, mode, inner, v, next);
      AbsorbIdle(Start(named, Text(v)[0]), ms.post);
      if TracksOutput(mode, inner) {
        assert FoundHere(mode, stack, ms) == [Found("", "output", v, next)];
        NoteOne(n, Found("", "output", v, next));
      }
    }
  }

  lemma SelectedKey(n: Notes, mode: Mode, stack: seq<Frame>)
    requires Selects(mode, stack) && !TracksResponse(mode, stack)
    ensures var key := stack[|stack| - 1].key;
            && key != "" && key != "response" && FieldCap(key) > 0 && RawCap(key) > 0
            && KeyNotes(n, mode, stack) ==
               Mark(n, SeenName(mode, |stack|, key)).(
                 capture := Capturing(key, |stack|, false), pending := key, fields := n.fields - {key})
  {
  }

  lemma WatchedInner(mode: Mode, stack: seq<Frame>, key: string)
    requires Watched(mode, stack) && !TracksResponse(mode, stack + [Frame(true, key)])
    ensures Inert(mode, stack + [Frame(true, key)])
  {
  }

  lemma NotedValue(n: Notes, named: Notes, seen: string, key: string, depth: nat, ms: Members, next: char)
    requires ms.Member? && MembersOk(ms) && Quiet(n)
    requires key != "" && key != "response" && FieldCap(key) > 0 && RawCap(key) > 0 && seen != ""
    requires named == Mark(n, seen).(capture := Capturing(key, depth, false), pending := key,
                                     fields := n.fields - {key})
    ensures Settle(AbsorbAll(named, ColonText(ms)), depth, ms.value, next) == Note(n, Found(seen, key, ms.value, next))
    ensures Quiet(Note(n, Found(seen, key, ms.value, next)))
  {
    hide AbsorbAll, Text, Settle, RawCap, FieldCap;
    CapturedValue(named, key, depth, ms, next);
    FirstByte(ms.value);
    var f := Found(seen, key, ms.value, next);
    assert Kept(Found("", key, ms.value, next)) == Kept(f);
    assert (n.fields - {key})[key := Kept(f)] == n.fields[key := Kept(f)];
    assert (n.fields - {key}) - {key} == n.fields - {key};
  }

  lemma {:induction false} SelectedMember(n: Notes, mode: Mode, stack: seq<Frame>, ms: Members)
    requires ms.Member? && MembersOk(ms) && Quiet(n) && Watched(mode, stack)
    requires Selects(mode, stack + [Frame(true, KeyOf(ms.key))])
    requires !TracksResponse(mode, stack + [Frame(true, KeyOf(ms.key))])
    ensures var inner := stack + [Frame(true, KeyOf(ms.key))];
            var f := Found(SeenName(mode, |inner|, KeyOf(ms.key)), KeyOf(ms.key), ms.value,
                           Next(ms.post, ms.more.NoMembers?, '}'));
            && FoundHere(mode, stack, ms) == [f]
            && MemberNotes(n, mode, stack, ms) == Note(n, f)
            && Quiet(Note(n, f))
  {
    hide AbsorbAll, ValueNotes, Text, Absorb, RawCap, Settle, Selects, TracksResponse, KeyNotes, Note;
    var key := KeyOf(ms.key);
    var inner := stack + [Frame(true, key)];
    var v, next := ms.value, Next(ms.post, ms.more.NoMembers?, '}');
    AbsorbIdle(n, KeyText(ms));
    var named := KeyNotes(n, mode, inner);
    SelectedKey(n, mode, inner);
    var primed := AbsorbAll(named, ColonText(ms));
    AbsorbKeeps(named, ColonText(ms));
    WatchedInner(mode, stack, key);
    InertValue(primed, mode, inner, v, next);
    NotedValue(n, named, SeenName(mode, |inner|, key), key, |inner|, ms, next);
    AbsorbIdle(ValueNotes(primed, mode, inner, v, next), ms.post);
  }

  lemma NoteOne(n: Notes, f: Found)
    requires Ok(f.value)
    ensures NoteAll(n, [f]) == Note(n, f)
  {
    hide Note;
  }

  /** The response member of an envelope. */
  lemma {:induction false} ResponseMember(n: Notes, ms: Members)
    requires ms.Member? && MembersOk(ms) && Quiet(n) && KeyOf(ms.key) == "response"
    ensures var inner := [Frame(true, "response")];
            var here := Note(n, Found("response", "response", ms.value, Next(ms.post, ms.more.NoMembers?, '}')));
            MemberNotes(n, Envelope, [], ms) ==
            AbsorbAll(if ms.value.Obj? then
                        Finish(Absorb(MembersNotes(here, Envelope, inner, ms.value.members), '}'), 1)
                      else here, ms.post)
  {
    hide AbsorbAll, Text, Absorb, MembersNotes, ElemsNotes, RawCap, Finish;
    var inner := [Frame(true, "response")];
    assert [] + [Frame(true, KeyOf(ms.key))] == inner;
    var v, next := ms.value, Next(ms.post, ms.more.NoMembers?, '}');
    FirstByte(v);
    AbsorbIdle(n, KeyText(ms));
    var named := KeyNotes(n, Envelope, inner);
    assert named == Mark(n, "response").(responseSeen := true, pending := "response");
    AbsorbIdle(named, ColonText(ms));
    var here := Start(named, Text(v)[0]);
    assert here == Note(n, Found("response", "response", v, next));
    ResponseValue(named, v, next);
  }

  lemma ResponseValue(n: Notes, v: Json, next: char)
    requires Ok(v) && n.capture.Idle?
    ensures var inner := [Frame(true, "response")];
            var here := Start(n, (FirstByte(v); Text(v)[0]));
            ValueNotes(n, Envelope, inner, v, next) ==
            if v.Obj? then Finish(Absorb(MembersNotes(here, Envelope, inner, v.members), '}'), 1) else here
  {
    hide AbsorbAll, Absorb, MembersNotes;
    var inner := [Frame(true, "response")];
    FirstByte(v);
    var first := Text(v)[0];
    IdleByte(n, first);
    var here := Start(n, first);
    match v
    case Obj(gap, ms) =>
      assert first == '{';
      AbsorbIdle(here, gap);
    case Arr(gap, es) =>
      assert first == '[';
      AbsorbIdle(here, gap);
      InertElems(here, Envelope, inner, es);
      AbsorbIdle(here, ElemsText(es));
      IdleByte(here, ']');
    case _ =>
      CommuteStart(n, Text(v));
      AbsorbIdle(here, Text(v));
      IdleByte(here, next);
  }

  lemma IdleByte(n: Notes, b: char)
    requires n.capture.Idle?
    ensures Absorb(n, b) == n && Start(n, b).capture.Idle? && Start(n, b).pending == ""
  {
  }

  /** A watched object leaves exactly the notes of its tracked members. */
  lemma {:induction false} WatchedMembers(n: Notes, mode: Mode, stack: seq<Frame>, ms: Members)
    requires MembersOk(ms) && Quiet(n) && Watched(mode, stack)
    ensures forall f :: f in FoundIn(mode, stack, ms) ==> Ok(f.value)
    ensures MembersNotes(n, mode, stack, ms) == NoteAll(n, FoundIn(mode, stack, ms))
    ensures Quiet(MembersNotes(n, mode, stack, ms))
    decreases ms
  {
    FoundOk(mode, stack, ms);
    if ms.Member? {
      hide AbsorbAll, MemberNotes, Note, Absorb, FoundHere, NoteAll, Finish;
      var inner := stack + [Frame(true, KeyOf(ms.key))];
      var ended := MemberNotes(n, mode, stack, ms);
      var nested := if TracksResponse(mode, inner) && ms.value.Obj?
                    then FoundIn(mode, inner, ms.value.members) else [];
      var here := FoundHere(mode, stack, ms);
      if TracksResponse(mode, inner) {
        ResponseCase(n, mode, stack, ms);
      } else {
        WatchedMember(n, mode, stack, ms);
        assert here + [] == here;
      }
      assert ended == NoteAll(n, here + nested) && Quiet(ended);
      FoundOk(mode, stack, ms.more);
      NoteAppend(n, here + nested, FoundIn(mode, stack, ms.more));
      if ms.more.NoMembers? {
        assert FoundIn(mode, stack, ms.more) == [];
        assert here + nested + [] == here + nested;
      } else {
        IdleByte(ended, ',');
        WatchedMembers(ended, mode, stack, ms.more);
      }
    } else {
      assert NoteAll(n, []) == n;
    }
  }

  lemma {:induction false} ResponseCase(n: Notes, mode: Mode, stack: seq<Frame>, ms: Members)
    requires ms.Member? && MembersOk(ms) && Quiet(n) && Watched(mode, stack)
    requires TracksResponse(mode, stack + [Frame(true, KeyOf(ms.key))])
    ensures var inner := stack + [Frame(true, KeyOf(ms.key))];
            assert Ok(ms.value);
            var nested := if ms.value.Obj? then FoundIn(mode, inner, ms.value.members) else [];
            var fs := FoundHere(mode, stack, ms) + nested;
            && (forall f :: f in fs ==> Ok(f.value))
            && MemberNotes(n, mode, stack, ms) == NoteAll(n, fs)
            && Quiet(NoteAll(n, fs))
    decreases ms, 0
  {
    hide AbsorbAll, Absorb, FoundIn, MemberNotes, Text;
    var inner := stack + [Frame(true, KeyOf(ms.key))];
    assert stack == [] && inner == [Frame(true, "response")];
    var f := Found("response", "response", ms.value, Next(ms.post, ms.more.NoMembers?, '}'));
    assert FoundHere(mode, stack, ms) == [f];
    var here := Note(n, f);
    assert Quiet(here) by { FirstByte(ms.value); }
    NoteOne(n, f);
    ResponseMember(n, ms);
    if ms.value.Obj? {
      var m := MembersNotes(here, mode, inner, ms.value.members);
      WatchedMembers(here, mode, inner, ms.value.members);
      IdleByte(m, '}');
      AbsorbIdle(m, ms.post);
      NoteAppend(n, [f], FoundIn(mode, inner, ms.value.members));
    } else {
      AbsorbIdle(here, ms.post);
      assert [f] + [] == [f];
    }
  }

  /** The notes of a whole document are those of its tracked members. */
  lemma DocumentIsTracked(mode: Mode, d: Document)
    requires DocumentOk(d) && d.value.Obj?
    ensures forall f :: f in Tracked(mode, d) ==> Ok(f.value)
    ensures DocumentNotes(mode, d) == NoteAll(Fresh(mode).notes, Tracked(mode, d))
  {
    hide AbsorbAll, Absorb, MembersNotes, NoteAll;
    var n := Fresh(mode).notes;
    var Obj(gap, ms) := d.value;
    IdleByte(n, '{');
    AbsorbIdle(Start(n, '{'), gap);
    WatchedMembers(n, mode, [], ms);
    var m := MembersNotes(n, mode, [], ms);
    IdleByte(m, '}');
    AbsorbIdle(m, d.trail);
  }
}
