/** The buffered and the salvage path give a terminal event the same verdict. */
module ResponsesVerdictProofs {
  import opened JsonGrammar
  import opened JsonScanner
  import opened JsonScannerRuns
  import opened JsonScannerCapture
  import opened JsonScannerTheorems
  import opened ResponsesVerdict

  /** No member matches a declared field only after case folding. */
  predicate NoAlias(dec: Decoder, declared: set<string>, ms: Members)
    requires MembersOk(ms)
    decreases ms
  {
    ms.NoMembers? ||
    ((Decoded(ms.key) in declared || dec.fold(Decoded(ms.key)) !in declared) && NoAlias(dec, declared, ms.more))
  }

  /** The last tracked member noted under a name. */
  function LastFound(fs: seq<Found>, name: string): Option<Found> {
    if fs == [] then None
    else
      match LastFound(fs[1..], name)
      case Some(f) => Some(f)
      case None => if fs[0].name == name then Some(fs[0]) else None
  }

  lemma {:induction false} LastFoundAppend(a: seq<Found>, b: seq<Found>, name: string)
    ensures LastFound(a + b, name) == if LastFound(b, name).Some? then LastFound(b, name) else LastFound(a, name)
    decreases |a|
  {
    if a == [] {
      assert a + b == b;
    } else {
      assert (a + b)[0] == a[0] && (a + b)[1..] == a[1..] + b;
      LastFoundAppend(a[1..], b, name);
    }
  }

  lemma {:induction false} LastFoundIn(fs: seq<Found>, name: string)
    ensures var f := LastFound(fs, name); f.Some? ==> f.value in fs && f.value.name == name
    ensures LastFound(fs, name).None? ==> forall f :: f in fs ==> f.name != name
    decreases |fs|
  {
    if fs != [] {
      LastFoundIn(fs[1..], name);
      assert fs == [fs[0]] + fs[1..];
    }
  }

  // ---- kinds ----

  /** The kind noted for a name is the first byte of its last value. */
  lemma {:induction false} KindsNoted(n: Notes, fs: seq<Found>, name: string)
    requires forall f :: f in fs ==> Ok(f.value)
    ensures var m, f := NoteAll(n, fs), LastFound(fs, name);
            match f
            case None => (name in m.kinds <==> name in n.kinds) && (name in n.kinds ==> m.kinds[name] == n.kinds[name])
            case Some(g) => g in fs && Text(g.value) != "" && name in m.kinds && m.kinds[name] == Text(g.value)[0]
    decreases |fs|
  {
    hide Note, Text;
    LastFoundIn(fs, name);
    if fs != [] {
      var m := Note(n, fs[0]);
      KindNoted(n, fs[0]);
      KindsNoted(m, fs[1..], name);
    }
  }

  lemma KindNoted(n: Notes, f: Found)
    requires Ok(f.value)
    ensures Text(f.value) != "" && Note(n, f).kinds == n.kinds[f.name := Text(f.value)[0]]
  {
    hide Kept, RawCap, FieldCap, Text;
    JsonScannerRuns.FirstByte(f.value);
  }

  lemma {:induction false} SeenNoted(n: Notes, fs: seq<Found>)
    requires forall f :: f in fs ==> Ok(f.value)
    ensures NoteAll(n, fs).responseSeen <==> n.responseSeen || LastFound(fs, "response").Some?
    decreases |fs|
  {
    hide Kept, RawCap, FieldCap, Text;
    if fs != [] {
      var m := Note(n, fs[0]);
      SeenNoted(m, fs[1..]);
      assert m.responseSeen <==> n.responseSeen || fs[0].name == "response";
      hide Note;
    }
  }

  // ---- the tree and what is tracked ----

  const INNER: seq<Frame> := [Frame(true, "response")]

  /** Names of root members the scan tracks. */
  predicate RootName(name: string) { name == "type" || name == "response" }

  lemma ShortName(name: string)
    requires RootName(name) || name in ResponseFields()
    ensures 0 < |name| <= MAX_KEY
    ensures name in ResponseFields() ==> !RootName(name)
  {
  }

  /** A key is read as a tracked name exactly when it decodes to it. */
  lemma KeyIs(us: seq<Unit>, name: string)
    requires UnitsOk(us) && 0 < |name| <= MAX_KEY
    ensures KeyOf(us) == name <==> Decoded(us) == name
  {
  }

  lemma RootHere(ms: Members)
    requires ms.Member? && MembersOk(ms)
    ensures var key, fs := KeyOf(ms.key), FoundHere(Envelope, [], ms);
            if RootName(key)
            then |fs| == 1 && fs[0].name == key && fs[0].value == ms.value && (key == "response" ==> fs[0].seen == key)
            else fs == []
    ensures TracksResponse(Envelope, [Frame(true, KeyOf(ms.key))]) <==> KeyOf(ms.key) == "response"
  {
    hide KeyOf;
  }

  lemma InnerHere(ms: Members)
    requires ms.Member? && MembersOk(ms)
    ensures var key, fs := KeyOf(ms.key), FoundHere(Envelope, INNER, ms);
            if key in ResponseFields() then |fs| == 1 && fs[0].name == key && fs[0].value == ms.value else fs == []
    ensures !TracksResponse(Envelope, INNER + [Frame(true, KeyOf(ms.key))])
  {
    hide KeyOf;
  }

  // The members of the response object, by name.
  lemma {:induction false} InnerLast(dec: Decoder, ms: Members, name: string)
    requires MembersOk(ms) && NoAlias(dec, ResponseFields(), ms) && name in ResponseFields()
    ensures var f, v := LastFound(FoundIn(Envelope, INNER, ms), name), Last(dec, ResponseFields(), ms, name);
            f.Some? == v.Some? && (f.Some? ==> f.value.value == v.value)
    ensures forall f :: f in FoundIn(Envelope, INNER, ms) ==> f.name in ResponseFields()
    decreases ms
  {
    if ms.Member? {
      InnerHere(ms);
      ShortName(name);
      KeyIs(ms.key, name);
      InnerLast(dec, ms.more, name);
      InnerSplit(ms);
      LastFoundAppend(FoundHere(Envelope, INNER, ms), FoundIn(Envelope, INNER, ms.more), name);
      NamedField(dec, ResponseFields(), Decoded(ms.key), name);
      hide FoundHere, KeyOf, Decoded, ResponseFields, FieldOf, FoundIn;
    }
  }

  lemma InnerSplit(ms: Members)
    requires ms.Member? && MembersOk(ms)
    ensures FoundIn(Envelope, INNER, ms) == FoundHere(Envelope, INNER, ms) + FoundIn(Envelope, INNER, ms.more)
  {
    InnerHere(ms);
    hide FoundHere, KeyOf;
    assert FoundHere(Envelope, INNER, ms) + [] == FoundHere(Envelope, INNER, ms);
  }

  // Without aliases a key names a field exactly when it is spelled so.
  lemma NamedField(dec: Decoder, declared: set<string>, key: string, name: string)
    requires name in declared && name != "" && (key in declared || dec.fold(key) !in declared)
    ensures FieldOf(dec, declared, key) == name <==> key == name
  {
  }

  lemma {:induction false} NoneNamed(fs: seq<Found>, name: string)
    requires forall f :: f in fs ==> f.name != name
    ensures LastFound(fs, name).None?
    decreases |fs|
  {
    if fs != [] { NoneNamed(fs[1..], name); }
  }

  // The tracked members nested under one root member.
  function Nested(ms: Members): seq<Found>
    requires ms.Member? && MembersOk(ms)
  {
    assert Ok(ms.value);
    if KeyOf(ms.key) == "response" && ms.value.Obj? then FoundIn(Envelope, INNER, ms.value.members) else []
  }

  lemma RootSplit(ms: Members)
    requires ms.Member? && MembersOk(ms)
    ensures FoundIn(Envelope, [], ms) == FoundHere(Envelope, [], ms) + Nested(ms) + FoundIn(Envelope, [], ms.more)
  {
    RootHere(ms);
    hide FoundHere, KeyOf;
    assert [] + [Frame(true, KeyOf(ms.key))] == [Frame(true, KeyOf(ms.key))];
  }

  lemma {:induction false} NestedNames(ms: Members)
    requires MembersOk(ms)
    ensures forall f :: f in FoundIn(Envelope, INNER, ms) ==> f.name in ResponseFields()
    decreases ms
  {
    if ms.Member? {
      InnerHere(ms);
      NestedNames(ms.more);
      hide FoundHere, KeyOf, ResponseFields;
    }
  }

  // Root members, by name.
  lemma {:induction false} RootLast(dec: Decoder, ms: Members, name: string)
    requires MembersOk(ms) && NoAlias(dec, EnvelopeFields(), ms) && RootName(name)
    ensures var f, v := LastFound(FoundIn(Envelope, [], ms), name), Last(dec, EnvelopeFields(), ms, name);
            f.Some? == v.Some? && (f.Some? ==> f.value.value == v.value)
    decreases ms
  {
    if ms.Member? {
      var here, nested, more := FoundHere(Envelope, [], ms), Nested(ms), FoundIn(Envelope, [], ms.more);
      RootHere(ms);
      RootSplit(ms);
      ShortName(name);
      KeyIs(ms.key, name);
      RootLast(dec, ms.more, name);
      assert Ok(ms.value);
      if ms.value.Obj? { NestedNames(ms.value.members); }
      assert forall f :: f in nested ==> f.name in ResponseFields();
      assert name !in ResponseFields();
      NoneNamed(nested, name);
      LastFoundAppend(here + nested, more, name);
      LastFoundAppend(here, nested, name);
      assert name in EnvelopeFields();
      hide FoundHere, KeyOf, Decoded, EnvelopeFields, ResponseFields, FoundIn, Nested;
      NamedField(dec, EnvelopeFields(), Decoded(ms.key), name);
    }
  }

  lemma DistinctParts(a: seq<Found>, b: seq<Found>)
    requires Distinct(a + b)
    ensures Distinct(b)
    ensures forall f, g :: f in a && g in b && f.seen != "" ==> f.seen != g.seen
  {
    var c := a + b;
    forall i, j | 0 <= i < j < |b| && b[i].seen != "" ensures b[i].seen != b[j].seen {
      assert c[|a| + i] == b[i] && c[|a| + j] == b[j];
    }
    forall f, g | f in a && g in b && f.seen != "" ensures f.seen != g.seen {
      var i :| 0 <= i < |a| && a[i] == f;
      var j :| 0 <= j < |b| && b[j] == g;
      assert c[i] == f && c[|a| + j] == g;
    }
  }

  lemma {:induction false} ResponseSeen(ms: Members)
    requires MembersOk(ms)
    ensures forall f :: f in FoundIn(Envelope, [], ms) && f.name == "response" ==> f.seen == "response"
    decreases ms
  {
    if ms.Member? {
      RootHere(ms);
      RootSplit(ms);
      ResponseSeen(ms.more);
      assert Ok(ms.value);
      if ms.value.Obj? { NestedNames(ms.value.members); }
      assert "response" !in ResponseFields();
      hide FoundHere, KeyOf, ResponseFields, FoundIn;
    }
  }

  /** The value of the response member, if it is an object. */
  function ResponseObject(dec: Decoder, ms: Members): Option<Members>
    requires MembersOk(ms)
  {
    match Last(dec, EnvelopeFields(), ms, "response")
    case None => None
    case Some(v) => if v.Obj? then Some(v.members) else None
  }

  lemma ResponseMembersOk(dec: Decoder, ms: Members)
    requires MembersOk(ms)
    ensures ResponseObject(dec, ms).Some? ==> MembersOk(ResponseObject(dec, ms).value)
  {
    LastOk(dec, EnvelopeFields(), ms, "response");
  }

  predicate Plain(dec: Decoder, ms: Members)
    requires MembersOk(ms)
  {
    ResponseMembersOk(dec, ms);
    && NoAlias(dec, EnvelopeFields(), ms)
    && (ResponseObject(dec, ms).Some? ==> NoAlias(dec, ResponseFields(), ResponseObject(dec, ms).value))
  }

  // Tracked members of the response object, by name.
  lemma {:induction false} NestedLast(dec: Decoder, ms: Members, name: string)
    requires MembersOk(ms) && Plain(dec, ms) && Distinct(FoundIn(Envelope, [], ms)) && name in ResponseFields()
    ensures ResponseObject(dec, ms).Some? ==> MembersOk(ResponseObject(dec, ms).value)
    ensures var f, r := LastFound(FoundIn(Envelope, [], ms), name), ResponseObject(dec, ms);
            if r.None? then f.None?
            else var v := Last(dec, ResponseFields(), r.value, name);
                 f.Some? == v.Some? && (f.Some? ==> f.value.value == v.value)
    decreases ms
  {
    ResponseMembersOk(dec, ms);
    if ms.Member? {
      var here, nested, more := FoundHere(Envelope, [], ms), Nested(ms), FoundIn(Envelope, [], ms.more);
      RootHere(ms);
      RootSplit(ms);
      DistinctParts(here + nested, more);
      ShortName(name);
      ShortName("response");
      KeyIs(ms.key, "response");
      RootLast(dec, ms.more, "response");
      ResponseSeen(ms.more);
      LastFoundIn(more, "response");
      assert "response" in EnvelopeFields() by { InEnvelope(); }
      NamedField(dec, EnvelopeFields(), Decoded(ms.key), "response");
      LastFoundAppend(here + nested, more, name);
      LastFoundAppend(here, nested, name);
      NoneNamed(here, name);
      hide FoundHere, Decoded, EnvelopeFields, ResponseFields, FoundIn, FieldOf, LastFound, Distinct;
      if KeyOf(ms.key) == "response" {
        assert Last(dec, EnvelopeFields(), ms.more, "response").None?;
        NestedLast(dec, ms.more, name);
        if ms.value.Obj? { InnerLast(dec, ms.value.members, name); }
      } else {
        NestedLast(dec, ms.more, name);
      }
    }
  }

  lemma InEnvelope()
    ensures "response" in EnvelopeFields() && "type" in EnvelopeFields() && "type" in StringFields()
  {
  }

  // ---- one field ----

  /** A retained string field reads the same on both paths. */
  lemma FieldAgrees(dec: Decoder, n: Notes, name: string, v: Option<Json>)
    requires FieldCap(name) > 0 && IsString(name)
    requires v.None? ==> name !in n.fields && name !in n.dropped
    requires v.Some? ==> Ok(v.value) && (v.value.Str? || IsNull(v.value)) && Retained(n, Found("", name, v.value, ' '))
    ensures Dropped(dec, n, name) ==> ScannedField(dec, n, name).None?
    ensures !Dropped(dec, n, name) ==> Or(ScannedField(dec, n, name)) == DecodedText(dec, v)
    ensures !Dropped(dec, n, name) && ScannedField(dec, n, name).None? ==> DecodedText(dec, v) == ""
  {
    hide FieldCap, RawCap, Text;
    if v.Some? { assert Kept(Found("", name, v.value, ' ')) == Text(v.value); }
  }

  // What the accepted document says about one tracked name.
  lemma NotesOf(d: Document, name: string)
    requires Admissible(Envelope, d)
    ensures Feed(Fresh(Envelope), DocumentText(d)).Live?
    ensures var fs, n := Tracked(Envelope, d), Feed(Fresh(Envelope), DocumentText(d)).notes;
            && (forall f :: f in fs ==> Ok(f.value))
            && (n.responseSeen <==> LastFound(fs, "response").Some?)
            && match LastFound(fs, name)
               case None => name !in n.kinds && name !in n.fields && name !in n.dropped
               case Some(f) =>
                 && f in fs && f.name == name && Text(f.value) != "" && name in n.kinds
                 && n.kinds[name] == Text(f.value)[0]
                 && (Captured(f) ==> Retained(n, f))
  {
    UsableText(Envelope, d);
    CaptureIsExact(Envelope, d);
    var fs := Tracked(Envelope, d);
    hide Admissible, Feed, Tracked, Text, Captured, Retained, DocumentText;
    KindsNoted(Fresh(Envelope).notes, fs, name);
    SeenNoted(Fresh(Envelope).notes, fs);
    LastFoundIn(fs, name);
    hide LastFound, NoteAll;
  }

  lemma RetainedAs(n: Notes, f: Found)
    requires Retained(n, f) && !f.value.Num?
    ensures Retained(n, Found("", f.name, f.value, ' '))
  {
    assert Kept(f) == Kept(Found("", f.name, f.value, ' '));
  }

  lemma {:induction false} TypeDecodes(dec: Decoder, ms: Members)
    requires MembersOk(ms) && EnvelopeDecodes(dec, ms)
    ensures var v := Last(dec, EnvelopeFields(), ms, "type"); v.Some? ==> v.value.Str? || IsNull(v.value)
    decreases ms
  {
    if ms.Member? {
      InEnvelope();
      TypeDecodes(dec, ms.more);
      hide FieldOf, EnvelopeFields, StringFields, IntFields;
    }
  }

  lemma TypeAgrees(dec: Decoder, d: Document)
    requires Admissible(Envelope, d) && MembersOk(d.value.members)
    requires Plain(dec, d.value.members) && EnvelopeDecodes(dec, d.value.members)
    ensures Feed(Fresh(Envelope), DocumentText(d)).Live?
    ensures var n := Feed(Fresh(Envelope), DocumentText(d)).notes;
            var v := Last(dec, EnvelopeFields(), d.value.members, "type");
            && (Dropped(dec, n, "type") ==> ScannedField(dec, n, "type").None?)
            && (!Dropped(dec, n, "type") ==> Or(ScannedField(dec, n, "type")) == DecodedText(dec, v))
            && (!Dropped(dec, n, "type") && ScannedField(dec, n, "type").None? ==> DecodedText(dec, v) == "")
  {
    var ms := d.value.members;
    var fs := Tracked(Envelope, d);
    assert fs == FoundIn(Envelope, [], ms);
    NotesOf(d, "type");
    RootLast(dec, ms, "type");
    TypeDecodes(dec, ms);
    LastOk(dec, EnvelopeFields(), ms, "type");
    assert FieldCap("type") > 0 && IsString("type");
    var n, v := Feed(Fresh(Envelope), DocumentText(d)).notes, Last(dec, EnvelopeFields(), ms, "type");
    hide Admissible, Feed, Tracked, Text, Retained, DocumentText, EnvelopeFields, Last, LastFound, Plain,
         EnvelopeDecodes, FieldCap;
    if v.Some? { RetainedAs(n, LastFound(fs, "type").value); }
    FieldAgrees(dec, n, "type", v);
  }

  /** The scanner's kind of a member is the kind of its last value. */
  lemma KindAgrees(dec: Decoder, d: Document, name: string, want: char)
    requires Admissible(Envelope, d) && MembersOk(d.value.members) && Plain(dec, d.value.members)
    requires name in ResponseFields()
    requires ResponseObject(dec, d.value.members).Some?
    ensures Feed(Fresh(Envelope), DocumentText(d)).Live?
    ensures MembersOk(ResponseObject(dec, d.value.members).value)
    ensures var v := Last(dec, ResponseFields(), ResponseObject(dec, d.value.members).value, name);
            && (v.Some? ==> Ok(v.value) && Text(v.value) != "")
            && (KindOk(Feed(Fresh(Envelope), DocumentText(d)).notes, name, want) <==> Typed(v, want))
  {
    var ms := d.value.members;
    assert Tracked(Envelope, d) == FoundIn(Envelope, [], ms);
    NotesOf(d, name);
    NestedLast(dec, ms, name);
    var rms := ResponseObject(dec, ms).value;
    LastOk(dec, ResponseFields(), rms, name);
    var v := Last(dec, ResponseFields(), rms, name);
    if v.Some? { FirstKind(v.value); }
    hide Admissible, Feed, Tracked, Text, Retained, DocumentText, EnvelopeFields, ResponseFields, Last, LastFound,
         Plain, Captured;
  }

  /** Both paths check the same kinds of the response object. */
  lemma EnvelopeAgrees(dec: Decoder, d: Document)
    requires Admissible(Envelope, d) && MembersOk(d.value.members) && Plain(dec, d.value.members)
    ensures Feed(Fresh(Envelope), DocumentText(d)).Live?
    ensures ResponseObject(dec, d.value.members).Some? ==> MembersOk(ResponseObject(dec, d.value.members).value)
    ensures EnvelopeWellTyped(Feed(Fresh(Envelope), DocumentText(d)).notes) <==>
            ResponseObject(dec, d.value.members).Some? && BodyTyped(dec, ResponseObject(dec, d.value.members).value)
  {
    var ms := d.value.members;
    assert Tracked(Envelope, d) == FoundIn(Envelope, [], ms);
    NotesOf(d, "response");
    RootLast(dec, ms, "response");
    LastOk(dec, EnvelopeFields(), ms, "response");
    ResponseMembersOk(dec, ms);
    var v := Last(dec, EnvelopeFields(), ms, "response");
    if v.Some? { FirstKind(v.value); }
    hide Admissible, Feed, Tracked, Text, DocumentText, EnvelopeFields, Last, LastFound, Plain, KindOk, Typed;
    if v.Some? && v.value.Obj? {
      KindAgrees(dec, d, "status", '"');
      KindAgrees(dec, d, "model", '"');
      KindAgrees(dec, d, "usage", '{');
      KindAgrees(dec, d, "error", '{');
      KindAgrees(dec, d, "incomplete_details", '{');
      KindAgrees(dec, d, "output", '[');
      hide ResponseFields;
    }
  }

  lemma StatusAgrees(dec: Decoder, d: Document)
    requires Admissible(Envelope, d) && MembersOk(d.value.members) && Plain(dec, d.value.members)
    requires ResponseObject(dec, d.value.members).Some? && MembersOk(ResponseObject(dec, d.value.members).value)
    requires BodyTyped(dec, ResponseObject(dec, d.value.members).value)
    ensures Feed(Fresh(Envelope), DocumentText(d)).Live?
    ensures var n, v := Feed(Fresh(Envelope), DocumentText(d)).notes,
                        Last(dec, ResponseFields(), ResponseObject(dec, d.value.members).value, "status");
            Or(ScannedField(dec, n, "status")) == if Dropped(dec, n, "status") then "" else DecodedText(dec, v)
  {
    var ms := d.value.members;
    var fs, rms := Tracked(Envelope, d), ResponseObject(dec, ms).value;
    assert fs == FoundIn(Envelope, [], ms) && "status" in ResponseFields();
    NotesOf(d, "status");
    NestedLast(dec, ms, "status");
    LastOk(dec, ResponseFields(), rms, "status");
    var n, v := Feed(Fresh(Envelope), DocumentText(d)).notes, Last(dec, ResponseFields(), rms, "status");
    if v.Some? { FirstKind(v.value); }
    assert Typed(v, '"');
    assert FieldCap("status") > 0 && IsString("status");
    hide Admissible, Feed, Tracked, Text, Retained, DocumentText, ResponseFields, Last, LastFound, Plain, FieldCap,
         BodyTyped;
    if v.Some? { RetainedAs(n, LastFound(fs, "status").value); }
    FieldAgrees(dec, n, "status", v);
  }

  // ---- the verdicts ----

  /** A terminal type over a response that is explicitly null: the buffered
      path takes the class of the type, the salvage path has no verdict. */
  predicate NullResponse(dec: Decoder, s: Scanner, ms: Members)
    requires MembersOk(ms) && s.Live?
  {
    && !Dropped(dec, s.notes, "type")
    && EventClass(DecodedText(dec, Last(dec, EnvelopeFields(), ms, "type"))).Some?
    && Last(dec, EnvelopeFields(), ms, "response") == Some(Lit("null"))
  }

  /** What the scanner kept would be judged: an error event, or a terminal type
      over a response object whose members have their kinds. */
  predicate Judged(dec: Decoder, s: Scanner, ms: Members)
    requires MembersOk(ms) && s.Live?
  {
    ResponseMembersOk(dec, ms);
    var eventType, response := ScannedField(dec, s.notes, "type"), ResponseObject(dec, ms);
    && eventType.Some?
    && (eventType.value == "error" ||
        (EventClass(eventType.value).Some? && response.Some? && BodyTyped(dec, response.value)))
  }

  /** For every usable payload that spells its fields exactly, whatever the
      types of its members: when it decodes, the two paths give the same
      verdict except exactly for a terminal event whose response is null; when
      another member of the envelope is ill-typed, exactly when the salvage
      path has nothing to judge. */
  lemma VerdictsAgree(dec: Decoder, d: Document)
    requires Admissible(Envelope, d) && MembersOk(d.value.members) && Plain(dec, d.value.members)
    ensures Feed(Fresh(Envelope), DocumentText(d)).Live?
    ensures var s, ms := Feed(Fresh(Envelope), DocumentText(d)), d.value.members;
            BufferedVerdict(dec, s, ms) == SalvageVerdict(dec, s) <==>
            if EnvelopeDecodes(dec, ms) then !NullResponse(dec, s, ms) else !Judged(dec, s, ms)
  {
    var s, ms := Feed(Fresh(Envelope), DocumentText(d)), d.value.members;
    UsableText(Envelope, d);
    EnvelopeAgrees(dec, d);
    NeverNone(dec);
    assert Usable(s);
    if EnvelopeDecodes(dec, ms) {
      DecodedVerdictsAgree(dec, d);
      hide *;
    } else {
      hide Admissible, Feed, DocumentText, Plain, EnvelopeDecodes, Last, ResponseObject, BodyTyped, ScannedField,
           EnvelopeWellTyped, EventClass, Usable, VerdictOf;
    }
  }

  lemma DecodedVerdictsAgree(dec: Decoder, d: Document)
    requires Admissible(Envelope, d) && MembersOk(d.value.members)
    requires Plain(dec, d.value.members) && EnvelopeDecodes(dec, d.value.members)
    ensures Feed(Fresh(Envelope), DocumentText(d)).Live?
    ensures var s, ms := Feed(Fresh(Envelope), DocumentText(d)), d.value.members;
            BufferedVerdict(dec, s, ms) == SalvageVerdict(dec, s) <==> !NullResponse(dec, s, ms)
  {
    var s, ms := Feed(Fresh(Envelope), DocumentText(d)), d.value.members;
    UsableText(Envelope, d);
    TypeAgrees(dec, d);
    EnvelopeAgrees(dec, d);
    LastOk(dec, EnvelopeFields(), ms, "response");
    assert Usable(s);
    assert EventClass("").None? && "" != "error";
    if ResponseObject(dec, ms).Some? && BodyTyped(dec, ResponseObject(dec, ms).value) { StatusAgrees(dec, d); }
    hide Admissible, Feed, DocumentText, Plain, EnvelopeDecodes, Last, EnvelopeFields, ResponseFields, BodyTyped,
         Dropped,
         ScannedField, EnvelopeWellTyped, DecodedText, EventClass, Usable, Text;
    NeverNone(dec);
  }

  lemma NeverNone(dec: Decoder)
    ensures forall c, status :: VerdictOf(c, status) != NoVerdict
  {
  }
}
