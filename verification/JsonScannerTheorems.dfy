/** The scanner against the grammar of RFC 8259: which inputs are usable, what
    is kept of them, and what bounds hold on every input. */
module JsonScannerTheorems {
  import opened JsonGrammar
  import opened JsonScanner
  import opened JsonScannerRuns
  import opened JsonScannerParse
  import opened JsonScannerCapture

  /** The documents the scanner is meant to accept: an object, at most
      MAX_DEPTH nested containers, no spaced empty array, and no tracked name
      twice. */
  predicate Admissible(mode: Mode, d: Document) {
    && DocumentOk(d) && d.value.Obj? && Tight(d.value) && Depth(d.value) <= MAX_DEPTH
    && Distinct(Tracked(mode, d))
  }

  // ---- repeated names ----

  function SeenNames(fs: seq<Found>): set<string> {
    set f <- fs | f.seen != "" :: f.seen
  }

  lemma {:induction false} NotedNames(n: Notes, fs: seq<Found>)
    requires forall f :: f in fs ==> Ok(f.value)
    ensures NoteAll(n, fs).seen == n.seen + SeenNames(fs)
    ensures NoteAll(n, fs).duplicates <==> n.duplicates || !Distinct(fs) || SeenNames(fs) * n.seen != {}
    decreases |fs|
  {
    hide Note, Ok;
    if fs != [] {
      var f, more := fs[0], fs[1..];
      var m := Note(n, f);
      NotedName(n, f);
      NotedNames(m, more);
      DistinctCons(fs);
      MeetCons(fs, n.seen);
      hide Distinct, SeenNames;
    }
  }

  lemma NotedName(n: Notes, f: Found)
    requires Ok(f.value)
    ensures Note(n, f).seen == n.seen + if f.seen == "" then {} else {f.seen}
    ensures Note(n, f).duplicates <==> n.duplicates || (f.seen != "" && f.seen in n.seen)
  {
    hide Kept, RawCap, FieldCap, Text, Ok;
  }

  lemma MeetCons(fs: seq<Found>, before: set<string>)
    requires fs != [] && SeenNames(fs) == (if fs[0].seen == "" then {} else {fs[0].seen}) + SeenNames(fs[1..])
    ensures var f, more := fs[0], SeenNames(fs[1..]);
            var after := before + if f.seen == "" then {} else {f.seen};
            && (SeenNames(fs) * before != {} <==> (f.seen != "" && f.seen in before) || more * before != {})
            && (more * after != {} <==> (f.seen != "" && f.seen in more) || more * before != {})
  {
    var all, f, more := SeenNames(fs), fs[0], SeenNames(fs[1..]);
    hide SeenNames;
    var one := if f.seen == "" then {} else {f.seen};
    assert all * before == one * before + more * before;
    assert more * (before + one) == more * before + more * one;
    if f.seen != "" && f.seen in before { assert f.seen in one * before; }
    if f.seen != "" && f.seen in more { assert f.seen in more * one; }
  }

  lemma DistinctCons(fs: seq<Found>)
    requires fs != []
    ensures Distinct(fs) <==> Distinct(fs[1..]) && (fs[0].seen == "" || fs[0].seen !in SeenNames(fs[1..]))
    ensures SeenNames(fs) == (if fs[0].seen == "" then {} else {fs[0].seen}) + SeenNames(fs[1..])
  {
    var f, more := fs[0], fs[1..];
    assert fs == [f] + more;
    if Distinct(fs) {
      forall i, j | 0 <= i < j < |more| && more[i].seen != "" ensures more[i].seen != more[j].seen {
        assert fs[i + 1].seen != fs[j + 1].seen;
      }
      forall g | g in more && f.seen != "" ensures g.seen != f.seen {
        var j :| 0 <= j < |more| && more[j] == g;
        assert fs[0].seen != fs[j + 1].seen;
      }
    } else {
      var i, j :| 0 <= i < j < |fs| && fs[i].seen != "" && fs[i].seen == fs[j].seen;
      assert fs[j] == more[j - 1] && more[j - 1] in more;
      if i != 0 { assert more[i - 1].seen == more[j - 1].seen; }
    }
  }

  /** The scanner accepts exactly the texts of admissible documents. */
  lemma UsableIffAdmissible(mode: Mode, input: string)
    ensures Usable(Feed(Fresh(mode), input)) <==> exists d :: Admissible(mode, d) && DocumentText(d) == input
  {
    if Accepts(Fresh(mode), input) {
      var d := ParseDocument(mode, input);
      if d.value.Obj? { UsableText(mode, d); }
    }
    forall d | DocumentText(d) == input && Admissible(mode, d) ensures Usable(Feed(Fresh(mode), input)) {
      UsableText(mode, d);
    }
  }

  // A bounded object document is usable unless a tracked name repeats.
  lemma UsableText(mode: Mode, d: Document)
    requires DocumentOk(d) && d.value.Obj? && Tight(d.value) && Depth(d.value) <= MAX_DEPTH
    ensures Usable(Feed(Fresh(mode), DocumentText(d))) <==> Distinct(Tracked(mode, d))
    ensures forall f :: f in Tracked(mode, d) ==> Ok(f.value)
    ensures Finished(Feed(Fresh(mode), DocumentText(d)))
    ensures Feed(Fresh(mode), DocumentText(d)).notes == NoteAll(Fresh(mode).notes, Tracked(mode, d))
  {
    FeedDocument(mode, d);
    DocumentIsTracked(mode, d);
    NotedNames(Fresh(mode).notes, Tracked(mode, d));
  }

  // ---- captured fields ----

  predicate Captured(f: Found) { FieldCap(f.name) > 0 }

  function SeenFor(mode: Mode, name: string): string {
    if name == "output" then ""
    else if mode.Envelope? && name != "type" && name != "response" then "response." + name
    else name
  }

  lemma HereDecidesSeen(mode: Mode, stack: seq<Frame>, ms: Members)
    requires ms.Member? && MembersOk(ms) && Watched(mode, stack)
    ensures forall f :: f in FoundHere(mode, stack, ms) ==>
              f.seen == SeenFor(mode, f.name) && (Captured(f) ==> f.seen != "")
  {
    hide KeyOf;
  }

  lemma {:induction false} NamesDecideSeen(mode: Mode, stack: seq<Frame>, ms: Members)
    requires MembersOk(ms) && Watched(mode, stack)
    ensures forall f :: f in FoundIn(mode, stack, ms) ==>
              f.seen == SeenFor(mode, f.name) && (Captured(f) ==> f.seen != "")
    decreases ms
  {
    hide KeyOf, FoundHere, SeenFor, Captured;
    if ms.Member? {
      var inner := stack + [Frame(true, KeyOf(ms.key))];
      HereDecidesSeen(mode, stack, ms);
      assert Ok(ms.value);
      if TracksResponse(mode, inner) && ms.value.Obj? {
        NamesDecideSeen(mode, inner, ms.value.members);
      }
      NamesDecideSeen(mode, stack, ms.more);
    }
  }

  predicate Retained(n: Notes, f: Found) {
    if |Kept(f)| <= RawCap(f.name)
    then f.name in n.fields && n.fields[f.name] == Kept(f) && f.name !in n.dropped
    else f.name !in n.fields && f.name in n.dropped
  }

  predicate UniqueNames(fs: seq<Found>) {
    forall i, j :: 0 <= i < j < |fs| && Captured(fs[i]) ==> fs[i].name != fs[j].name
  }

  lemma NoteOther(n: Notes, f: Found, name: string)
    requires Ok(f.value) && f.name != name
    ensures var m := Note(n, f);
            && (name in m.fields <==> name in n.fields) && (name in m.dropped <==> name in n.dropped)
            && (name in n.fields ==> m.fields[name] == n.fields[name])
            && (name in m.kinds <==> name in n.kinds) && (name in n.kinds ==> m.kinds[name] == n.kinds[name])
  {
    hide Kept, RawCap, FieldCap, Text;
  }

  lemma {:induction false} OthersKeep(n: Notes, fs: seq<Found>, name: string)
    requires forall f :: f in fs ==> Ok(f.value) && f.name != name
    ensures var m := NoteAll(n, fs);
            && (name in m.fields <==> name in n.fields) && (name in m.dropped <==> name in n.dropped)
            && (name in n.fields ==> m.fields[name] == n.fields[name])
            && (name in m.kinds <==> name in n.kinds) && (name in n.kinds ==> m.kinds[name] == n.kinds[name])
    decreases |fs|
  {
    hide Note;
    if fs != [] {
      NoteOther(n, fs[0], name);
      OthersKeep(Note(n, fs[0]), fs[1..], name);
    }
  }

  lemma {:induction false} NotedFields(n: Notes, fs: seq<Found>)
    requires forall f :: f in fs ==> Ok(f.value)
    requires UniqueNames(fs)
    requires forall f :: f in fs && Captured(f) ==> f.name !in n.fields && f.name !in n.dropped
    ensures forall f :: f in fs && Captured(f) ==> Retained(NoteAll(n, fs), f)
    decreases |fs|
  {
    hide Kept, RawCap, FieldCap, Text;
    if fs != [] {
      var f, more := fs[0], fs[1..];
      var m := Note(n, f);
      assert fs == [f] + more;
      forall g | g in more && Captured(f) ensures g.name != f.name {
        var j :| 0 <= j < |more| && more[j] == g;
        assert fs[j + 1] == g && fs[0] == f;
      }
      if Captured(f) {
        OthersKeep(m, more, f.name);
        assert "response" != f.name by { assert FieldCap("response") == 0 by { NotAField(); } }
        assert Retained(m, f);
      }
      forall g | g in more && Captured(g) ensures g.name !in m.fields && g.name !in m.dropped {
      }
      forall i, j | 0 <= i < j < |more| && Captured(more[i]) ensures more[i].name != more[j].name {
        assert fs[i + 1] == more[i] && fs[j + 1] == more[j];
      }
      NotedFields(m, more);
    }
  }

  lemma NotAField()
    ensures FieldCap("response") == 0
  {
  }

  lemma {:induction false} OnlyFound(n: Notes, fs: seq<Found>)
    requires forall f :: f in fs ==> Ok(f.value)
    ensures forall name :: name in NoteAll(n, fs).fields || name in NoteAll(n, fs).dropped ==>
              name in n.fields || name in n.dropped || exists f :: f in fs && f.name == name && Captured(f)
    decreases |fs|
  {
    hide Kept, RawCap, Text, FieldCap;
    if fs != [] {
      var m := Note(n, fs[0]);
      OnlyFound(m, fs[1..]);
      forall name | name in NoteAll(n, fs).fields || name in NoteAll(n, fs).dropped
        ensures name in n.fields || name in n.dropped || exists f :: f in fs && f.name == name && Captured(f)
      {
        if name !in n.fields && name !in n.dropped {
          if name in m.fields || name in m.dropped {
            assert fs[0] in fs && fs[0].name == name && Captured(fs[0]);
          } else {
            var f :| f in fs[1..] && f.name == name && Captured(f);
            assert f in fs;
          }
        }
      }
    }
  }

  /** On an accepted document each selected member within its cap is kept as
      exactly its raw text, each other one is dropped whole, and nothing else
      is kept. Members are selected by decoded key. */
  lemma CaptureIsExact(mode: Mode, d: Document)
    requires Admissible(mode, d)
    ensures var s := Feed(Fresh(mode), DocumentText(d));
            && s.Live?
            && (forall f :: f in Tracked(mode, d) && Captured(f) ==> Retained(s.notes, f))
            && (forall name :: name in s.notes.fields || name in s.notes.dropped ==>
                  exists f :: f in Tracked(mode, d) && f.name == name && Captured(f))
  {
    var fs := Tracked(mode, d);
    UsableText(mode, d);
    NamesDecideSeen(mode, [], d.value.members);
    forall i, j | 0 <= i < j < |fs| && Captured(fs[i]) ensures fs[i].name != fs[j].name {
      assert fs[i] in fs && fs[j] in fs;
    }
    NotedFields(Fresh(mode).notes, fs);
    OnlyFound(Fresh(mode).notes, fs);
  }

  // ---- bounds on every input ----

  // States between a key's colon and the end of its value.
  predicate InValue(lex: Lex) {
    || lex.Colon? || lex.Value? || lex.InWord? || InNumber(lex)
    || (lex.InString? && !lex.isKey) || (lex.InEscape? && !lex.isKey) || (lex.InUnicode? && !lex.isKey)
  }

  predicate KeyBounded(k: Key) { |k.buf| <= MAX_KEY }

  predicate LexBounded(lex: Lex) {
    match lex
    case InString(_, k) => KeyBounded(k)
    case InEscape(_, k) => KeyBounded(k)
    case InUnicode(_, k, hex) => KeyBounded(k) && |hex| < 4
    case InWord(rest) => 1 <= |rest| <= 4
    case _ => true
  }

  predicate FieldsBounded(n: Notes) {
    forall name :: name in n.fields ==> FieldCap(name) > 0 && |n.fields[name]| <= RawCap(name)
  }

  predicate StackBounded(stack: seq<Frame>) {
    |stack| <= MAX_DEPTH && forall i :: 0 <= i < |stack| ==> |stack[i].key| <= MAX_KEY
  }

  /** The open capture belongs to a member on the current path, and at its own
      level the scanner is inside that member's value. */
  predicate CaptureSound(s: Scanner)
    requires s.Live?
  {
    s.notes.capture.Capturing? ==>
      var c := s.notes.capture;
      && 1 <= c.depth <= |s.stack|
      && s.stack[c.depth - 1].key == c.name
      && Selects(s.mode, s.stack[..c.depth])
      && (c.depth == |s.stack| ==> InValue(s.lex))
  }

  predicate Bounded(s: Scanner) {
    s.Live? ==> StackBounded(s.stack) && LexBounded(s.lex) && FieldsBounded(s.notes) && CaptureSound(s)
  }

  lemma AbsorbBounded(n: Notes, b: char)
    requires FieldsBounded(n) && (n.capture.Capturing? ==> FieldCap(n.capture.name) > 0)
    ensures FieldsBounded(Absorb(n, b))
    ensures Absorb(n, b).capture.Capturing? == n.capture.Capturing?
    ensures n.capture.Capturing? ==> Absorb(n, b).capture == n.capture.(over := Absorb(n, b).capture.over)
  {
    hide RawCap, FieldCap;
  }

  lemma EndValueBounded(s: Scanner)
    requires s.Live? && StackBounded(s.stack) && FieldsBounded(s.notes)
    requires s.notes.capture.Capturing? ==>
               var c := s.notes.capture;
               1 <= c.depth <= |s.stack| && s.stack[c.depth - 1].key == c.name && Selects(s.mode, s.stack[..c.depth])
    ensures Bounded(EndValue(s))
  {
    hide RawCap, FieldCap, Selects;
  }

  lemma PopBounded(s: Scanner)
    requires s.Live? && Bounded(s) && !InValue(s.lex)
    ensures Bounded(Pop(s))
  {
    if s.stack != [] {
      var t := s.(stack := s.stack[..|s.stack| - 1]);
      if s.notes.capture.Capturing? {
        assert t.stack[..s.notes.capture.depth] == s.stack[..s.notes.capture.depth];
      }
      hide RawCap, FieldCap, Selects, EndValue;
      EndValueBounded(t);
    }
  }

  lemma PushBounded(s: Scanner, isObject: bool)
    requires s.Live? && Bounded(s)
    ensures Bounded(Push(s, isObject))
  {
    hide RawCap, FieldCap, Selects;
    var t := Push(s, isObject);
    if t.Live? && s.notes.capture.Capturing? {
      assert t.stack[..s.notes.capture.depth] == s.stack[..s.notes.capture.depth];
    }
  }

  /** A key never opens a capture inside another one. */
  lemma CapturesNeverNest(s: Scanner, key: string)
    requires s.Live? && Bounded(s) && s.lex.InString? && s.lex.isKey && s.stack != []
    requires Selects(s.mode, WithKey(s.stack, key))
    ensures s.notes.capture.Idle?
  {
  }

  lemma EndKeyBounded(s: Scanner, key: string)
    requires s.Live? && Bounded(s) && s.lex.InString? && s.lex.isKey && |key| <= MAX_KEY
    ensures Bounded(EndKey(s, key))
  {
    if s.stack != [] {
      var stack := WithKey(s.stack, key);
      if Selects(s.mode, stack) {
        CapturesNeverNest(s, key);
        assert stack[..|stack|] == stack;
        SelectedField(s.mode, stack);
      }
      if s.notes.capture.Capturing? {
        assert stack[..s.notes.capture.depth] == s.stack[..s.notes.capture.depth];
      }
      hide RawCap, FieldCap, Selects;
    }
  }

  lemma SelectedField(mode: Mode, stack: seq<Frame>)
    requires Selects(mode, stack)
    ensures FieldCap(stack[|stack| - 1].key) > 0
  {
  }

  lemma GrowBounded(k: Key, bytes: string)
    requires KeyBounded(k)
    ensures KeyBounded(Grow(k, bytes))
  {
  }

  lemma StringBounded(s: Scanner, b: char)
    requires s.Live? && Bounded(s) && (s.lex.InString? || s.lex.InEscape? || s.lex.InUnicode?)
    ensures Bounded(StepPlain(s, b))
  {
    hide RawCap, FieldCap, Selects, EndKey, EndValue, Utf8, CodeUnit, Grow;
    GrowBounded(s.lex.key, [b]);
    GrowBounded(s.lex.key, [EscapedByte(b)]);
    match s.lex
    case InString(_, k) =>
      EndKeyWhenKey(s, if k.over then "" else k.buf);
      EndValueBounded(s);
    case InUnicode(_, k, hex) =>
      var all := hex + [b];
      if |all| == 4 && IsHex(all[0]) && IsHex(all[1]) && IsHex(all[2]) && IsHex(b) {
        GrowBounded(k, Utf8(CodeUnit(all[0], all[1], all[2], all[3])));
      }
    case _ =>
  }

  lemma EndKeyWhenKey(s: Scanner, key: string)
    requires s.Live? && Bounded(s) && s.lex.InString? && |key| <= MAX_KEY
    ensures s.lex.isKey ==> Bounded(EndKey(s, key))
  {
    if s.lex.isKey { EndKeyBounded(s, key); }
  }

  lemma ValueBounded(s: Scanner, b: char)
    requires s.Live? && Bounded(s) && s.lex.Value?
    ensures Bounded(StepPlain(s, b))
  {
    hide RawCap, FieldCap, Selects, Push;
    var t := s.(notes := Start(s.notes, b));
    PushBounded(t, true);
    PushBounded(t, false);
  }

  lemma PlainBounded(s: Scanner, b: char)
    requires s.Live? && Bounded(s) && !InNumber(s.lex)
    ensures Bounded(StepPlain(s, b))
  {
    hide RawCap, FieldCap, Selects, Pop, EndValue;
    if s.lex.Value? { ValueBounded(s, b); }
    else if s.lex.InString? || s.lex.InEscape? || s.lex.InUnicode? { StringBounded(s, b); }
    else {
      EndValueBounded(s);
      if !InValue(s.lex) { PopBounded(s); }
    }
  }

  lemma NumberBounded(s: Scanner, b: char)
    requires s.Live? && Bounded(s) && InNumber(s.lex)
    ensures Bounded(StepNumber(s, b))
  {
    EndValueBounded(s);
    assert !InNumber(EndValue(s).lex);
    PlainBounded(EndValue(s), b);
    hide RawCap, FieldCap, Selects, StepPlain, EndValue;
  }

  lemma ByteBounded(s: Scanner, b: char)
    requires Bounded(s)
    ensures Bounded(FeedByte(s, b))
  {
    if s.Live? {
      hide RawCap, FieldCap, StepPlain, StepNumber, Pop;
      var t := s.(notes := Absorb(s.notes, b));
      assert s.notes.capture.Capturing? ==> FieldCap(s.notes.capture.name) > 0;
      AbsorbBounded(s.notes, b);
      hide Absorb, Selects;
      assert Bounded(t);
      if InNumber(t.lex) { NumberBounded(t, b); }
      else if t.lex.ValueOrEnd? {
        PopBounded(t);
        PlainBounded(t.(lex := Value), b);
      } else { PlainBounded(t, b); }
    }
  }

  lemma {:induction false} RunBounded(s: Scanner, input: string)
    requires Bounded(s)
    ensures Bounded(Feed(s, input))
    decreases |input|
  {
    hide Bounded, FeedByte;
    if input != "" {
      ByteBounded(s, input[0]);
      RunBounded(FeedByte(s, input[0]), input[1..]);
    }
  }

  /** Whatever is fed, the stack, the keys and the kept fields stay within
      their caps and at most one capture is open. */
  lemma AlwaysBounded(mode: Mode, input: string)
    ensures Bounded(Feed(Fresh(mode), input))
  {
    RunBounded(Fresh(mode), input);
  }

  // ---- the documented domain is narrower than JSON ----

  /** An empty array containing a space is valid JSON, but not accepted. */
  lemma SpacedEmptyArrayIsRejected()
    ensures exists d :: DocumentOk(d) && d.value.Obj? && DocumentText(d) == SPACED
    ensures !Usable(Feed(Fresh(Unary), SPACED))
  {
    SpacedIsJson();
    SpacedRun();
    DeadStaysDead(SPACED[8..]);
  }

  const SPACED: string := "{\"a\":[ ]}"

  lemma SpacedIsJson()
    ensures exists d :: DocumentOk(d) && d.value.Obj? && DocumentText(d) == SPACED
  {
    var d := Document("", Obj("", Member("", [Plain('a')], "", "", Arr(" ", NoElems), "", NoMembers)), "");
    assert UnitsText([Plain('a')]) == "a" by { assert UnitsText([]) == ""; }
    assert KeyText(d.value.members) == "\"a\"";
    assert ColonText(d.value.members) == ":";
    assert Text(Arr(" ", NoElems)) == "[ ]";
    assert MembersText(d.value.members) == "\"a\":[ ]";
    assert DocumentText(d) == SPACED;
  }

  // `{"a":` brings the scanner to a member value.
  lemma SpacedKey() returns (t: Scanner)
    ensures t.Live? && t.lex.Value? && |t.stack| == 1 && Feed(Fresh(Unary), SPACED) == Feed(t, SPACED[5..])
  {
    hide Absorb, KeyNotes, Start, Feed, KeyOf;
    var ms := Member("", [Plain('a')], "", "", Arr(" ", NoElems), "", NoMembers);
    var s := Fresh(Unary);
    OpenByte(s, '{');
    FeedOne(s, '{', SPACED[1..]);
    assert SPACED == ['{'] + SPACED[1..];
    assert KeyText(ms) == "\"a\"" by { assert UnitsText([]) == ""; assert UnitsText([Plain('a')]) == "a"; }
    assert SPACED[1..] == "\"a\"" + SPACED[4..];
    FeedKey(FeedByte(s, '{'), [], ms, SPACED[4..]);
    var c := FeedByte(s, '{').(lex := Colon, stack := [] + [Frame(true, KeyOf(ms.key))],
                              notes := KeyNotes(AbsorbAll(FeedByte(s, '{').notes, KeyText(ms)), Unary,
                                                [] + [Frame(true, KeyOf(ms.key))]));
    FeedColon(c, "", "", SPACED[5..]);
    assert "" + ":" + "" + SPACED[5..] == SPACED[4..];
    t := c.(lex := Value, notes := AbsorbAll(c.notes, "" + ":" + ""));
  }

  lemma SpacedByte(t: Scanner)
    requires t.Live? && t.lex.ValueOrEnd?
    ensures var u := FeedByte(t, ' '); u.Live? && u.lex.Value? && FeedByte(u, ']') == Dead
  {
    hide Absorb, Start;
  }

  lemma SpacedRun()
    ensures Feed(Fresh(Unary), SPACED) == Feed(Dead, SPACED[8..])
  {
    hide Absorb, Start;
    var s := SpacedKey();
    OpenByte(s, '[');
    var t := FeedByte(s, '[');
    var u := FeedByte(t, ' ');
    SpacedByte(t);
    hide FeedByte, Feed;
    FeedOne(s, '[', SPACED[6..]);
    FeedOne(t, ' ', SPACED[7..]);
    FeedOne(u, ']', SPACED[8..]);
    assert SPACED[5..] == ['['] + SPACED[6..] && SPACED[6..] == [' '] + SPACED[7..];
    assert SPACED[7..] == [']'] + SPACED[8..];
  }
}
