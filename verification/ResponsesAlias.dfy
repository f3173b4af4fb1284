/** The JSON library also fills a field from a key that differs in case; the
    scanner does not. One event on which the two paths therefore disagree. */
module ResponsesAlias {
  import opened JsonGrammar
  import opened JsonScanner
  import opened JsonScannerRuns
  import opened JsonScannerCapture
  import opened JsonScannerTheorems
  import opened ResponsesVerdict
  import opened ResponsesVerdictProofs

  function Spelled(s: string): seq<Unit> { if s == "" then [] else [JsonGrammar.Plain(s[0])] + Spelled(s[1..]) }

  predicate Simple(s: string) { forall i :: 0 <= i < |s| ==> s[i] >= ' ' && s[i] != '"' && s[i] != '\\' }

  lemma {:induction false} SpelledIs(s: string)
    requires Simple(s)
    ensures UnitsOk(Spelled(s)) && Decoded(Spelled(s)) == s && UnitsText(Spelled(s)) == s
    decreases |s|
  {
    if s != "" {
      SpelledIs(s[1..]);
      assert s == [s[0]] + s[1..];
    }
  }

  function Quoted(s: string): Json { Str(Spelled(s)) }

  function One(key: string, value: Json, more: Members): Members { Member("", Spelled(key), "", "", value, "", more) }

  // {"type":T,"response":{"status":A,K:B}}, with the keys of the type, the
  // response and the status given.
  function Inner(status: string, a: string, key: string, b: string): Members {
    One(status, Quoted(a), One(key, Quoted(b), NoMembers))
  }

  function Outer(kind: string, t: string, response: string, inner: Members): Members {
    One(kind, Quoted(t), One(response, Obj("", inner), NoMembers))
  }

  lemma QuotedIs(x: string)
    requires Simple(x)
    ensures var v := Quoted(x); Ok(v) && v.Str? && Tight(v) && Depth(v) == 0 && Text(v) == "\"" + x + "\""
  {
    SpelledIs(x);
  }

  /** The member spells this key and has this value. */
  predicate Spells(ms: Members, key: string, value: Json) {
    ms.Member? && UnitsOk(ms.key) && KeyOf(ms.key) == Decoded(ms.key) == key && ms.value == value
  }

  lemma OneIs(key: string, value: Json, more: Members)
    requires Simple(key) && |key| <= MAX_KEY && Ok(value) && MembersOk(more) && Tight(value) && TightMembers(more)
    ensures var ms := One(key, value, more);
            && Spells(ms, key, value) && ms.more == more
            && MembersOk(ms) && TightMembers(ms) && MembersDepth(ms) == Max(Depth(value), MembersDepth(more))
  {
    SpelledIs(key);
    hide Ok, Tight, Depth;
  }

  lemma InnerIs(status: string, a: string, key: string, b: string)
    requires Simple(status) && |status| <= MAX_KEY && Simple(a) && Simple(key) && |key| <= MAX_KEY && Simple(b)
    ensures var ms := Inner(status, a, key, b);
            && MembersOk(ms) && TightMembers(ms) && MembersDepth(ms) == 0
            && ms.Member? && Spells(ms, status, Quoted(a)) && Spells(ms.more, key, Quoted(b)) && ms.more.more.NoMembers?
  {
    QuotedIs(a);
    QuotedIs(b);
    hide Quoted, Spelled, Text, Ok, Tight, Depth, KeyOf, Decoded, One, Simple;
    OneIs(key, Quoted(b), NoMembers);
    OneIs(status, Quoted(a), One(key, Quoted(b), NoMembers));
  }

  lemma OuterIs(kind: string, t: string, response: string, inner: Members)
    requires Simple(kind) && |kind| <= MAX_KEY && Simple(t) && Simple(response) && |response| <= MAX_KEY
    requires inner.Member? && MembersOk(inner) && TightMembers(inner) && MembersDepth(inner) == 0
    ensures var ms := Outer(kind, t, response, inner);
            && MembersOk(ms) && TightMembers(ms) && MembersDepth(ms) == 1
            && ms.Member? && Spells(ms, kind, Quoted(t)) && Spells(ms.more, response, Obj("", inner))
            && ms.more.more.NoMembers?
  {
    QuotedIs(t);
    var r := Obj("", inner);
    assert Ok(r) && Tight(r) && Depth(r) == 1;
    hide Quoted, Spelled, Text, Ok, Tight, Depth, KeyOf, Decoded, One, Simple;
    OneIs(response, r, NoMembers);
    OneIs(kind, Quoted(t), One(response, r, NoMembers));
  }

  // ---- what the scanner notes ----

  /** Three tracked members, in order: the type, the response, its status. */
  predicate Three(fs: seq<Found>, t: Json, r: Json, a: Json) {
    && |fs| == 3 && (fs[0].name, fs[1].name, fs[2].name) == ("type", "response", "status")
    && (fs[0].value, fs[1].value, fs[2].value) == (t, r, a)
  }

  lemma InnerTracked(inner: Members, a: Json, key: string, b: Json)
    requires MembersOk(inner) && Spells(inner, "status", a) && Spells(inner.more, key, b) && inner.more.more.NoMembers?
    requires key !in ResponseFields()
    ensures var fs := FoundIn(Envelope, INNER, inner); |fs| == 1 && fs[0].name == "status" && fs[0].value == a
  {
    InnerHere(inner);
    InnerSplit(inner);
    InnerHere(inner.more);
    InnerSplit(inner.more);
    hide FoundHere, KeyOf, Decoded;
  }

  lemma OuterTracked(ms: Members, t: Json, inner: Members, a: Json)
    requires MembersOk(ms) && MembersOk(inner)
    requires Spells(ms, "type", t) && Spells(ms.more, "response", Obj("", inner)) && ms.more.more.NoMembers?
    requires var fs := FoundIn(Envelope, INNER, inner); |fs| == 1 && fs[0].name == "status" && fs[0].value == a
    ensures Three(FoundIn(Envelope, [], ms), t, Obj("", inner), a)
  {
    RootHere(ms);
    RootSplit(ms);
    RootHere(ms.more);
    RootSplit(ms.more);
    hide FoundHere, KeyOf, Decoded;
    assert Nested(ms.more) == FoundIn(Envelope, INNER, inner);
    assert FoundIn(Envelope, [], ms.more.more) == [];
  }

  lemma ThreeDistinct(ms: Members, t: Json, r: Json, a: Json)
    requires MembersOk(ms) && Three(FoundIn(Envelope, [], ms), t, r, a)
    ensures Distinct(FoundIn(Envelope, [], ms))
  {
    NamesDecideSeen(Envelope, [], ms);
    hide FoundIn;
    var fs := FoundIn(Envelope, [], ms);
    assert fs[0] in fs && fs[1] in fs && fs[2] in fs;
  }

  lemma ThreeLast(fs: seq<Found>, t: Json, r: Json, a: Json, name: string)
    requires Three(fs, t, r, a)
    ensures LastFound(fs, name) ==
            if name == "status" then Some(fs[2]) else if name == "response" then Some(fs[1])
            else if name == "type" then Some(fs[0]) else None
  {
    var more := fs[1..];
    assert more[1..] == [fs[2]];
    assert LastFound([fs[2]], name) == if fs[2].name == name then Some(fs[2]) else None;
    assert LastFound(more, name) ==
           if fs[2].name == name then Some(fs[2]) else if fs[1].name == name then Some(fs[1]) else None;
  }

  // ---- the two verdicts ----

  /** The event {"type":T,"response":{"status":A,K:B}}. */
  function Event(t: string, a: string, key: string, b: string): Document {
    Document("", Obj("", Outer("type", t, "response", Inner("status", a, key, b))), "")
  }

  /** The library reads a quoted simple string as it is. */
  predicate Unquotes(dec: Decoder, x: string) { dec.text("\"" + x + "\"") == Some(x) }

  lemma EventTracked(t: string, a: string, key: string, b: string)
    requires Simple(t) && Simple(a) && Simple(key) && |key| <= MAX_KEY && Simple(b) && key !in ResponseFields()
    ensures var d := Event(t, a, key, b);
            && Admissible(Envelope, d) && MembersOk(d.value.members)
            && Three(Tracked(Envelope, d), Quoted(t), Obj("", Inner("status", a, key, b)), Quoted(a))
  {
    hide Inner, Outer, Quoted, FoundIn, Distinct, Three, MembersOk, TightMembers, MembersDepth, Spells, Simple,
         ResponseFields, Admissible;
    var inner := Inner("status", a, key, b);
    var ms := Outer("type", t, "response", inner);
    FieldNames();
    InnerIs("status", a, key, b);
    OuterIs("type", t, "response", inner);
    InnerTracked(inner, Quoted(a), key, Quoted(b));
    OuterTracked(ms, Quoted(t), inner, Quoted(a));
    ThreeDistinct(ms, Quoted(t), Obj("", inner), Quoted(a));
    BareAdmissible(ms);
  }

  lemma FieldNames()
    ensures Simple("type") && Simple("response") && Simple("status")
    ensures |"type"| <= MAX_KEY && |"response"| <= MAX_KEY && |"status"| <= MAX_KEY
  {
  }

  lemma BareAdmissible(ms: Members)
    requires ms.Member? && MembersOk(ms) && TightMembers(ms) && MembersDepth(ms) == 1
    requires Distinct(FoundIn(Envelope, [], ms))
    ensures var d := Document("", Obj("", ms), "");
            Admissible(Envelope, d) && Tracked(Envelope, d) == FoundIn(Envelope, [], ms)
  {
    hide FoundIn, Distinct, MembersOk, TightMembers, MembersDepth;
  }

  lemma ShortKept(dec: Decoder, n: Notes, f: Found, x: string)
    requires Retained(n, f) && f.value == Quoted(x) && Simple(x) && |x| <= 64 && Unquotes(dec, x)
    requires f.name == "type" || f.name == "status"
    ensures ScannedField(dec, n, f.name) == Some(x) && !Dropped(dec, n, f.name)
  {
    assert FieldCap(f.name) == 64 && RawCap(f.name) == 386;
    QuotedIs(x);
    hide Quoted, Text, Simple, FieldCap, RawCap;
    assert Kept(f) == Text(Quoted(x));
  }

  // The scanner keeps the status it saw under the exact key.
  lemma StatusKept(dec: Decoder, d: Document, t: string, r: Json, a: string)
    requires Admissible(Envelope, d) && Three(Tracked(Envelope, d), Quoted(t), r, Quoted(a))
    requires Simple(t) && Simple(a) && |t| <= 64 && |a| <= 64 && Unquotes(dec, t) && Unquotes(dec, a)
    ensures var s := Feed(Fresh(Envelope), DocumentText(d));
            && s.Live? && ScannedField(dec, s.notes, "type") == Some(t)
            && ScannedField(dec, s.notes, "status") == Some(a)
            && !Dropped(dec, s.notes, "type") && !Dropped(dec, s.notes, "status")
  {
    var fs := Tracked(Envelope, d);
    assert Captured(fs[0]) && Captured(fs[2]);
    hide Admissible, Feed, Tracked, DocumentText, Text, Quoted, Simple, Unquotes, LastFound, Captured, Retained,
         ScannedField, Dropped;
    NotesOf(d, "type");
    NotesOf(d, "status");
    ThreeLast(fs, Quoted(t), r, Quoted(a), "type");
    ThreeLast(fs, Quoted(t), r, Quoted(a), "status");
    ShortKept(dec, Feed(Fresh(Envelope), DocumentText(d)).notes, fs[0], t);
    ShortKept(dec, Feed(Fresh(Envelope), DocumentText(d)).notes, fs[2], a);
  }

  lemma KindsKept(d: Document, t: string, inner: Members, a: string)
    requires Admissible(Envelope, d) && Three(Tracked(Envelope, d), Quoted(t), Obj("", inner), Quoted(a)) && Simple(a)
    ensures var s := Feed(Fresh(Envelope), DocumentText(d)); s.Live? && EnvelopeWellTyped(s.notes)
  {
    var fs := Tracked(Envelope, d);
    hide Admissible, Feed, Tracked, DocumentText, Text, Quoted, Simple, LastFound, Captured, Retained;
    forall name ensures LastFound(fs, name) ==
            if name == "status" then Some(fs[2]) else if name == "response" then Some(fs[1])
            else if name == "type" then Some(fs[0]) else None {
      ThreeLast(fs, Quoted(t), Obj("", inner), Quoted(a), name);
    }
    NotesOf(d, "response");
    NotesOf(d, "status");
    NotesOf(d, "model");
    NotesOf(d, "usage");
    NotesOf(d, "error");
    NotesOf(d, "incomplete_details");
    NotesOf(d, "output");
    FirstKind(Obj("", inner));
    QuotedIs(a);
    FirstKind(Quoted(a));
  }

  // The library takes the last key that reads as the status.
  lemma InnerLasts(dec: Decoder, inner: Members, a: Json, key: string, b: Json, name: string)
    requires MembersOk(inner) && Spells(inner, "status", a) && Spells(inner.more, key, b) && inner.more.more.NoMembers?
    requires key !in ResponseFields() && dec.fold(key) == "status" && name in ResponseFields()
    ensures Last(dec, ResponseFields(), inner, name) == if name == "status" then Some(b) else None
  {
    assert "status" in ResponseFields();
    hide ResponseFields, Decoded, KeyOf;
    assert MembersOk(inner.more);
    assert Last(dec, ResponseFields(), inner.more.more, name).None?;
    assert Last(dec, ResponseFields(), inner.more, name) == if name == "status" then Some(b) else None;
  }

  lemma OuterLasts(dec: Decoder, ms: Members, t: Json, r: Json)
    requires MembersOk(ms) && Spells(ms, "type", t) && Spells(ms.more, "response", r) && ms.more.more.NoMembers?
    requires t.Str?
    ensures Last(dec, EnvelopeFields(), ms, "type") == Some(t) && Last(dec, EnvelopeFields(), ms, "response") == Some(r)
    ensures EnvelopeDecodes(dec, ms)
  {
    InEnvelope();
    assert "response" !in StringFields() && "response" !in IntFields() && "type" !in IntFields();
    hide EnvelopeFields, StringFields, IntFields, Decoded, KeyOf;
    assert MembersOk(ms.more);
    assert Last(dec, EnvelopeFields(), ms.more.more, "type").None?;
    assert Last(dec, EnvelopeFields(), ms.more.more, "response").None?;
    assert Last(dec, EnvelopeFields(), ms.more, "type").None?;
    assert Last(dec, EnvelopeFields(), ms.more, "response") == Some(r);
    assert EnvelopeDecodes(dec, ms.more);
  }

  lemma SalvageSees(dec: Decoder, d: Document, t: string, inner: Members, a: string)
    requires Admissible(Envelope, d) && Three(Tracked(Envelope, d), Quoted(t), Obj("", inner), Quoted(a))
    requires Simple(t) && Simple(a) && |t| <= 64 && |a| <= 64 && Unquotes(dec, t) && Unquotes(dec, a)
    requires EventClass(t).Some?
    ensures var s := Feed(Fresh(Envelope), DocumentText(d));
            && s.Live? && Usable(s) && !Dropped(dec, s.notes, "type") && !Dropped(dec, s.notes, "status")
            && SalvageVerdict(dec, s) == VerdictOf(EventClass(t).value, a)
  {
    assert t != "error" && Distinct(Tracked(Envelope, d));
    hide Feed, Tracked, DocumentText, Three, Quoted, Simple, Unquotes, Dropped, ScannedField, EnvelopeWellTyped,
         Usable, VerdictOf, EventClass, Distinct;
    UsableText(Envelope, d);
    StatusKept(dec, d, t, Obj("", inner), a);
    KindsKept(d, t, inner, a);
  }

  lemma EventLasts(dec: Decoder, t: string, a: string, key: string, b: string)
    requires Simple(t) && Simple(a) && Simple(key) && |key| <= MAX_KEY && Simple(b)
    requires key !in ResponseFields() && dec.fold(key) == "status"
    ensures var ms, inner := Event(t, a, key, b).value.members, Inner("status", a, key, b);
            && MembersOk(ms) && MembersOk(inner) && EnvelopeDecodes(dec, ms)
            && Last(dec, EnvelopeFields(), ms, "type") == Some(Quoted(t))
            && Last(dec, EnvelopeFields(), ms, "response") == Some(Obj("", inner))
            && forall name :: name in ResponseFields() ==>
                 Last(dec, ResponseFields(), inner, name) == if name == "status" then Some(Quoted(b)) else None
  {
    hide Inner, Outer, Quoted, Last, EnvelopeDecodes, MembersOk, TightMembers, MembersDepth, Spells, Simple,
         ResponseFields, EnvelopeFields;
    var inner := Inner("status", a, key, b);
    FieldNames();
    InnerIs("status", a, key, b);
    OuterIs("type", t, "response", inner);
    QuotedIs(t);
    OuterLasts(dec, Outer("type", t, "response", inner), Quoted(t), Obj("", inner));
    forall name | name in ResponseFields()
      ensures Last(dec, ResponseFields(), inner, name) == if name == "status" then Some(Quoted(b)) else None {
      InnerLasts(dec, inner, Quoted(a), key, Quoted(b), name);
    }
  }

  lemma LibrarySees(dec: Decoder, s: Scanner, ms: Members, t: string, inner: Members, b: string)
    requires MembersOk(ms) && MembersOk(inner) && EnvelopeDecodes(dec, ms) && s.Live?
    requires Usable(s) && !Dropped(dec, s.notes, "type") && !Dropped(dec, s.notes, "status")
    requires Last(dec, EnvelopeFields(), ms, "type") == Some(Quoted(t))
    requires Last(dec, EnvelopeFields(), ms, "response") == Some(Obj("", inner))
    requires forall name :: name in ResponseFields() ==>
               Last(dec, ResponseFields(), inner, name) == if name == "status" then Some(Quoted(b)) else None
    requires Simple(t) && Simple(b) && Unquotes(dec, t) && Unquotes(dec, b) && EventClass(t).Some?
    ensures BufferedVerdict(dec, s, ms) == VerdictOf(EventClass(t).value, b)
  {
    assert t != "error" && !IsNull(Obj("", inner));
    assert forall name :: name in {"status", "model", "usage", "error", "incomplete_details", "output"} ==>
             name in ResponseFields();
    QuotedIs(t);
    QuotedIs(b);
    hide Last, Quoted, Text, Simple, Usable, Dropped, EnvelopeDecodes, EnvelopeFields, ResponseFields, VerdictOf,
         EventClass, MembersOk;
    assert BodyTyped(dec, inner);
  }

  /** An event that spells a second status under a key the library folds: the
      buffered path judges it by the second value, the salvage path by the
      first. */
  lemma AliasSplitsTheVerdict(dec: Decoder, t: string, a: string, key: string, b: string)
    requires EventClass(t).Some? && Simple(t) && Simple(a) && |t| <= 64 && |a| <= 64
    requires Simple(key) && |key| <= MAX_KEY && key !in ResponseFields() && dec.fold(key) == "status"
    requires Simple(b) && Unquotes(dec, t) && Unquotes(dec, a) && Unquotes(dec, b)
    ensures var d, c := Event(t, a, key, b), EventClass(t).value;
            && Admissible(Envelope, d) && MembersOk(d.value.members) && EnvelopeDecodes(dec, d.value.members)
            && var s := Feed(Fresh(Envelope), DocumentText(d));
            && SalvageVerdict(dec, s) == VerdictOf(c, a) && BufferedVerdict(dec, s, d.value.members) == VerdictOf(c, b)
  {
    var d, inner := Event(t, a, key, b), Inner("status", a, key, b);
    var ms, s := d.value.members, Feed(Fresh(Envelope), DocumentText(Event(t, a, key, b)));
    hide *;
    EventTracked(t, a, key, b);
    SalvageSees(dec, d, t, inner, a);
    EventLasts(dec, t, a, key, b);
    LibrarySees(dec, s, ms, t, inner, b);
  }

  /** So a completed event with a second, folded status that failed is an
      error to one path and a success to the other. */
  lemma VerdictsMayDiffer(dec: Decoder)
    requires dec.fold("STATUS") == "status"
    requires Unquotes(dec, "response.completed") && Unquotes(dec, "completed") && Unquotes(dec, "failed")
    ensures exists d :: Admissible(Envelope, d) && MembersOk(d.value.members) &&
                        EnvelopeDecodes(dec, d.value.members) &&
                        var s := Feed(Fresh(Envelope), DocumentText(d));
                        SalvageVerdict(dec, s) == Success && BufferedVerdict(dec, s, d.value.members) == Error
  {
    hide Unquotes, Admissible, MembersOk, EnvelopeDecodes, Feed, DocumentText, SalvageVerdict, BufferedVerdict, Event;
    AliasSplitsTheVerdict(dec, "response.completed", "completed", "STATUS", "failed");
  }
}
