/** The verdict of a Responses stream event (contrib/openai/responses.go): the
    buffered path decodes the payload with the JSON library, the salvage path
    sees only what the scanner kept. */
module ResponsesVerdict {
  import opened JsonGrammar
  import opened JsonScanner
  import JsonScannerRuns
  import opened JsonScannerCapture

  datatype Option<T> = None | Some(value: T)

  datatype Class = Completed | Incomplete | Failed

  datatype Verdict = NoVerdict | Success | Partial | Error

  /** The JSON library: `text` decodes raw bytes as a string, `fold` names the
      declared field a key matches only after case folding ("" for none), and
      `isInt` tells whether a value decodes as an integer. */
  datatype Decoder = Decoder(text: string -> Option<string>, fold: string -> string, isInt: Json -> bool)

  // ---- classes ----

  function EventClass(eventType: string): Option<Class> {
    if eventType == "response.completed" then Some(Completed)
    else if eventType == "response.failed" then Some(Failed)
    else if eventType == "response.incomplete" then Some(Incomplete)
    else None
  }

  function EmbeddedClass(status: string): Option<Class> {
    if status == "" then None
    else if status == "completed" then Some(Completed)
    else if status == "failed" then Some(Failed)
    else Some(Incomplete)
  }

  function Rank(c: Class): nat { match c case Failed => 2 case Incomplete => 1 case Completed => 0 }

  function MoreSevereClass(event: Class, status: string): (Class, bool) {
    match EmbeddedClass(status)
    case None => (event, false)
    case Some(embedded) =>
      if Rank(embedded) > Rank(event) then (embedded, true) else (event, embedded != event)
  }

  /** The more severe of the two classes wins, and a mismatch is reported
      exactly when an embedded status disagrees. */
  lemma SeverityIsTheMaximum(event: Class, status: string)
    ensures var (c, mismatch) := MoreSevereClass(event, status);
            && Rank(c) >= Rank(event) && (c == event || EmbeddedClass(status) == Some(c))
            && (EmbeddedClass(status).Some? ==> Rank(c) >= Rank(EmbeddedClass(status).value))
            && (mismatch <==> status != "" && EmbeddedClass(status) != Some(event))
  {
  }

  function VerdictOf(event: Class, status: string): Verdict {
    match MoreSevereClass(event, status).0
    case Failed => Error
    case Incomplete => Partial
    case Completed => Success
  }

  // ---- the salvage path ----

  /** A retained string field, within its decoded cap. */
  function ScannedField(dec: Decoder, n: Notes, name: string): Option<string> {
    if name !in n.fields then None
    else
      match dec.text(n.fields[name])
      case None => None
      case Some(value) => if |value| > FieldCap(name) then None else Some(value)
  }

  predicate KindOk(n: Notes, name: string, want: char) {
    name !in n.kinds || n.kinds[name] == want || n.kinds[name] == 'n'
  }

  predicate EnvelopeWellTyped(n: Notes) {
    && n.responseSeen && "response" in n.kinds && n.kinds["response"] == '{'
    && KindOk(n, "status", '"') && KindOk(n, "model", '"') && KindOk(n, "usage", '{')
    && KindOk(n, "error", '{') && KindOk(n, "incomplete_details", '{') && KindOk(n, "output", '[')
  }

  function Or(value: Option<string>): string { if value.Some? then value.value else "" }

  function SalvageVerdict(dec: Decoder, s: Scanner): Verdict {
    if !Usable(s) then NoVerdict
    else
      match ScannedField(dec, s.notes, "type")
      case None => NoVerdict
      case Some(eventType) =>
        if eventType == "error" then Error
        else
          match EventClass(eventType)
          case None => NoVerdict
          case Some(c) =>
            if !EnvelopeWellTyped(s.notes) then NoVerdict
            else VerdictOf(c, Or(ScannedField(dec, s.notes, "status")))
  }

  // ---- the buffered path ----

  function StringFields(): set<string> {
    {"type", "item_id", "delta", "text", "refusal", "arguments", "partial_image_b64", "code", "message", "param"}
  }

  function IntFields(): set<string> { {"output_index", "content_index"} }

  function RawFields(): set<string> { {"item", "part", "response"} }

  function EnvelopeFields(): set<string> { StringFields() + IntFields() + RawFields() }

  function ResponseFields(): set<string> { {"id", "status", "model", "usage", "error", "incomplete_details", "output"} }

  /** The declared field a key is decoded into: an exact match, else one after
      folding. */
  function FieldOf(dec: Decoder, declared: set<string>, key: string): string {
    if key in declared then key else if dec.fold(key) in declared then dec.fold(key) else ""
  }

  /** The value that decoding leaves in a field: that of its last member. */
  function Last(dec: Decoder, declared: set<string>, ms: Members, name: string): Option<Json>
    requires MembersOk(ms)
    decreases ms
  {
    if ms.NoMembers? then None
    else
      match Last(dec, declared, ms.more, name)
      case Some(v) => Some(v)
      case None => if FieldOf(dec, declared, Decoded(ms.key)) == name then Some(ms.value) else None
  }

  predicate IsNull(v: Json) { v == Lit("null") }

  predicate Decodes(dec: Decoder, name: string, v: Json) {
    || IsNull(v)
    || ((name in StringFields() ==> v.Str?) && (name in IntFields() ==> dec.isInt(v)))
  }

  /** Decoding the envelope reports no type error. */
  predicate EnvelopeDecodes(dec: Decoder, ms: Members)
    requires MembersOk(ms)
    decreases ms
  {
    ms.NoMembers? ||
    (Decodes(dec, FieldOf(dec, EnvelopeFields(), Decoded(ms.key)), ms.value) && EnvelopeDecodes(dec, ms.more))
  }

  /** Fields dropped by the scan or for their decoded length. */
  predicate Dropped(dec: Decoder, n: Notes, name: string) {
    || name in n.dropped
    || (name in n.fields && IsString(name) && dec.text(n.fields[name]).Some? &&
        |dec.text(n.fields[name]).value| > FieldCap(name))
  }

  predicate Typed(v: Option<Json>, want: char)
    requires v.Some? ==> Ok(v.value) && Text(v.value) != ""
  {
    v.None? || IsNull(v.value) || Text(v.value)[0] == want
  }

  function DecodedText(dec: Decoder, v: Option<Json>): string {
    match v case None => "" case Some(w) => Or(dec.text(Text(w)))
  }

  predicate BodyTyped(dec: Decoder, rms: Members)
    requires MembersOk(rms)
  {
    LastsOk(dec, ResponseFields(), rms);
    && Typed(Last(dec, ResponseFields(), rms, "status"), '"') && Typed(Last(dec, ResponseFields(), rms, "model"), '"')
    && Typed(Last(dec, ResponseFields(), rms, "usage"), '{') && Typed(Last(dec, ResponseFields(), rms, "error"), '{')
    && Typed(Last(dec, ResponseFields(), rms, "incomplete_details"), '{')
    && Typed(Last(dec, ResponseFields(), rms, "output"), '[')
  }

  lemma {:induction false} LastOk(dec: Decoder, declared: set<string>, ms: Members, name: string)
    requires MembersOk(ms)
    ensures var v := Last(dec, declared, ms, name); v.Some? ==> Ok(v.value) && Text(v.value) != ""
    decreases ms
  {
    if ms.Member? {
      LastOk(dec, declared, ms.more, name);
      FirstKind(ms.value);
      hide Text, FieldOf;
    }
  }

  lemma LastsOk(dec: Decoder, declared: set<string>, ms: Members)
    requires MembersOk(ms)
    ensures forall name :: Last(dec, declared, ms, name).Some? ==>
              Ok(Last(dec, declared, ms, name).value) && Text(Last(dec, declared, ms, name).value) != ""
  {
    hide Last, Text;
    forall name ensures Last(dec, declared, ms, name).Some? ==>
              Ok(Last(dec, declared, ms, name).value) && Text(Last(dec, declared, ms, name).value) != "" {
      LastOk(dec, declared, ms, name);
    }
  }

  /** The first byte of a value tells its kind. */
  lemma FirstKind(v: Json)
    requires Ok(v)
    ensures Text(v) != ""
    ensures (Text(v)[0] == '"' <==> v.Str?) && (Text(v)[0] == '{' <==> v.Obj?) && (Text(v)[0] == '[' <==> v.Arr?)
    ensures Text(v)[0] == 'n' <==> IsNull(v)
  {
    hide UnitsText, ElemsText, MembersText, UnitsOk, ElemsOk, MembersOk, NumberText, NumberOk, AllSpace;
    if v.Num? { JsonScannerRuns.FirstOfNumber(v.number); }
  }

  function ResponseVerdict(dec: Decoder, n: Notes, c: Class, response: Option<Json>): Verdict
    requires response.Some? ==> Ok(response.value)
  {
    match response
    case None => NoVerdict
    case Some(v) =>
      if IsNull(v) then VerdictOf(c, "")
      else if !v.Obj? || !BodyTyped(dec, v.members) then NoVerdict
      else if Dropped(dec, n, "status") then VerdictOf(c, "")
      else VerdictOf(c, DecodedText(dec, Last(dec, ResponseFields(), v.members, "status")))
  }

  function BufferedVerdict(dec: Decoder, s: Scanner, ms: Members): Verdict
    requires MembersOk(ms)
  {
    if !Usable(s) || !EnvelopeDecodes(dec, ms) || Dropped(dec, s.notes, "type") then NoVerdict
    else
      var eventType := DecodedText(dec, Last(dec, EnvelopeFields(), ms, "type"));
      if eventType == "error" then Error
      else
        match EventClass(eventType)
        case None => NoVerdict
        case Some(c) =>
          LastOk(dec, EnvelopeFields(), ms, "response");
          ResponseVerdict(dec, s.notes, c, Last(dec, EnvelopeFields(), ms, "response"))
  }
}
