/** Request-scoped trace attributes (context.go, baggage.go): a layer set by
    local calls and a layer accepted from imported baggage. The operations as
    functions, and their laws. */
module TraceState {
  import opened BoundedKeys

  const MAX_VALUE: nat := 200
  const MAX_RUNES: nat := 200
  const MAX_SERIALIZED: nat := 0x10_0000

  datatype Option<T> = None | Some(value: T)

  datatype Field = Name | User | Session | Version | Environment

  datatype Origin = OfField(field: Field) | OfKey(key: string)

  // Empty strings stand for unset fields. `wire` marks metadata whose value
  // was a string after masking; `accepted` marks what came from baggage.
  datatype State = State(name: string, user: string, session: string, version: string, environment: string,
                         metadata: map<string, string>, wire: set<string>, accepted: set<Origin>)

  const EMPTY: State := State("", "", "", "", "", map[], {}, {})

  // A metadata value: text, or anything else with its JSON encoding if it has
  // one.
  datatype Value = Text(text: string) | Json(encoded: Option<string>)

  // What the client brings: its masker, and the text functions.
  datatype Config = Config(mask: map<string, Value> -> Option<map<string, Value>>, utf8: string -> bool,
                           runes: string -> nat)

  function Get(s: State, f: Field): string {
    match f
    case Name => s.name
    case User => s.user
    case Session => s.session
    case Version => s.version
    case Environment => s.environment
  }

  function Set(s: State, f: Field, value: string): State {
    match f
    case Name => s.(name := value)
    case User => s.(user := value)
    case Session => s.(session := value)
    case Version => s.(version := value)
    case Environment => s.(environment := value)
  }

  // ---- the wire domain ----

  predicate WireByte(b: char) { 0x20 < b as int < 0x7f && b != '+' }

  /** Printable ASCII without space and plus, at most 200 bytes. */
  predicate WireValue(value: string) {
    value != "" && |value| <= MAX_VALUE && forall i :: 0 <= i < |value| ==> WireByte(value[i])
  }

  predicate WireKeyByte(b: char) {
    || 'a' <= b <= 'z' || 'A' <= b <= 'Z' || '0' <= b <= '9' || b == '.' || b == '_' || b == '~' || b == '-'
  }

  predicate WireKey(key: string) {
    key != "" && |key| <= MAX_VALUE && forall i :: 0 <= i < |key| ==> WireKeyByte(key[i])
  }

  predicate EnvironmentByte(b: char) { 'a' <= b <= 'z' || '0' <= b <= '9' || b == '_' || b == '-' }

  predicate ValidEnvironment(value: string) {
    value != "" && |value| <= 40 && !("langfuse" <= value) && forall i :: 0 <= i < |value| ==> EnvironmentByte(value[i])
  }

  predicate ValidFor(f: Field, value: string) { WireValue(value) && (f.Environment? ==> ValidEnvironment(value)) }

  // ---- member names ----

  datatype Member = Claim | Scalar(field: Field) | Meta(suffix: string) | Unknown | Foreign

  function FieldName(f: Field): string {
    match f
    case Name => "langfuse_trace_name"
    case User => "langfuse_user_id"
    case Session => "langfuse_session_id"
    case Version => "langfuse_version"
    case Environment => "langfuse_environment"
  }

  function MetaPrefix(): string { "langfuse_metadata_" }

  function MetaName(suffix: string): string { MetaPrefix() + suffix }

  function ClaimName(): string { "langfuse_trace_id" }

  function Parse(key: string): Member {
    if !("langfuse_" <= key) then Foreign
    else if key == ClaimName() then Claim
    else if key == FieldName(Environment) then Scalar(Environment)
    else if key == FieldName(Session) then Scalar(Session)
    else if key == FieldName(User) then Scalar(User)
    else if key == FieldName(Name) then Scalar(Name)
    else if key == FieldName(Version) then Scalar(Version)
    else if MetaPrefix() <= key then Meta(key[|MetaPrefix()|..])
    else Unknown
  }

  /** Names and members correspond. */
  lemma ParseNames(key: string, f: Field, suffix: string)
    ensures Parse(FieldName(f)) == Scalar(f) && Parse(MetaName(suffix)) == Meta(suffix)
    ensures Parse(key) == Scalar(f) <==> key == FieldName(f)
    ensures Parse(key) == Meta(suffix) <==> key == MetaName(suffix)
  {
    assert MetaName(suffix)[|MetaPrefix()|..] == suffix;
    assert |MetaPrefix()| == 18 && MetaName(suffix)[9] == 'm';
    assert "langfuse_" <= MetaName(suffix) by { assert MetaName(suffix)[..9] == "langfuse_"; }
    if MetaPrefix() <= key { assert key == MetaPrefix() + key[|MetaPrefix()|..]; }
  }

  // ---- normalizing metadata ----

  function Encode(cfg: Config, v: Value): Option<string> {
    match v
    case Text(t) => if cfg.utf8(t) && |t| <= MAX_SERIALIZED then Some(t) else None
    case Json(e) => e
  }

  function ValidKeys(cfg: Config, keys: set<string>): set<string> { set k <- keys | MetadataKey(k, cfg.utf8) }

  /** Keys that exist already, and the smallest new ones that still fit. */
  ghost function Chosen(cfg: Config, keys: set<string>, existing: set<string>): set<string> {
    var valid := ValidKeys(cfg, keys);
    valid * existing + Elements(SmallestOf(valid - existing, MAX_METADATA - Clamp(|existing|)))
  }

  predicate Kept(cfg: Config, v: Value) { Encode(cfg, v).Some? && cfg.runes(Encode(cfg, v).value) <= MAX_RUNES }

  datatype Normalized = Normalized(values: map<string, string>, strings: set<string>)

  /** The chosen keys whose values encode to short strings. */
  function Encoded(cfg: Config, masked: map<string, Value>, chosen: set<string>): Normalized {
    Normalized(map k | k in chosen * masked.Keys && Kept(cfg, masked[k]) :: Encode(cfg, masked[k]).value,
               set k | k in chosen * masked.Keys && Kept(cfg, masked[k]) && masked[k].Text?)
  }

  /** Masked, bounded and encoded; `strings` are the keys that hold text after
      masking. */
  ghost function Normalize(cfg: Config, values: map<string, Value>, existing: set<string>): Normalized {
    if values == map[] then Normalized(map[], {})
    else
      match cfg.mask(values)
      case None => Normalized(map[], {})
      case Some(masked) =>
        Encoded(cfg, masked, Chosen(cfg, masked.Keys, existing))
  }

  // ---- import ----

  function LocalKeys(s: State): set<string> { set k <- s.metadata.Keys | OfKey(k) !in s.accepted }

  predicate HasNamespace(bag: map<string, string>) { exists key :: key in bag && !Parse(key).Foreign? }

  predicate Offered(bag: map<string, string>, f: Field) { FieldName(f) in bag && ValidFor(f, bag[FieldName(f)]) }

  predicate Replaceable(s: State, f: Field) { Get(s, f) == "" || OfField(f) in s.accepted }

  predicate Confirmed(s: State, bag: map<string, string>, f: Field) { Offered(bag, f) && Replaceable(s, f) }

  function ImportedField(s: State, bag: map<string, string>, f: Field): string {
    if Confirmed(s, bag, f) then bag[FieldName(f)] else if OfField(f) in s.accepted then "" else Get(s, f)
  }

  function Fields(): set<Field> { {Name, User, Session, Version, Environment} }

  predicate OffersMeta(s: State, bag: map<string, string>, suffix: string) {
    && MetaName(suffix) in bag && WireKey(suffix) && WireValue(bag[MetaName(suffix)]) && suffix !in LocalKeys(s)
  }

  /** The metadata an import passes on to be normalized. */
  function OfferedMeta(s: State, bag: map<string, string>): map<string, Value> {
    map suffix | suffix in (set key <- bag | Parse(key).Meta? :: Parse(key).suffix) && OffersMeta(s, bag, suffix)
      :: Text(bag[MetaName(suffix)])
  }

  ghost function ImportMetadata(s: State, n: Normalized): State {
    var local := LocalKeys(s);
    var added := n.values.Keys - local;
    s.(metadata := map k | k in local + added :: if k in local then s.metadata[k] else n.values[k],
       wire := (s.wire * local) + (n.strings - local),
       accepted := (set o <- s.accepted | o.OfField?) + (set k <- added :: OfKey(k)))
  }

  function ImportFields(s: State, bag: map<string, string>): State {
    State(ImportedField(s, bag, Name), ImportedField(s, bag, User), ImportedField(s, bag, Session),
          ImportedField(s, bag, Version), ImportedField(s, bag, Environment), s.metadata, s.wire,
          (set o <- s.accepted | o.OfKey?) + (set f <- Fields() | Confirmed(s, bag, f) :: OfField(f)))
  }

  /** Importing the Langfuse members of a bag: the accepted layer becomes a
      projection of this bag, and nothing local changes. */
  ghost function Import(cfg: Config, s: State, bag: map<string, string>): State {
    if !HasNamespace(bag) then s
    else ImportMetadata(ImportFields(s, bag), Normalize(cfg, OfferedMeta(s, bag), LocalKeys(s)))
  }

  // ---- local calls ----

  predicate Propagated(cfg: Config, value: string) { value != "" && cfg.utf8(value) && cfg.runes(value) <= MAX_RUNES }

  function MergedField(cfg: Config, s: State, f: Field, value: string): State {
    if (if f.Environment? then ValidEnvironment(value) else Propagated(cfg, value))
    then var t := Set(s, f, value); t.(accepted := t.accepted - {OfField(f)})
    else s
  }

  ghost function MergeMetadata(s: State, n: Normalized): State {
    s.(metadata := s.metadata + n.values,
       wire := (s.wire - n.values.Keys) + n.strings,
       accepted := s.accepted - (set k <- n.values.Keys :: OfKey(k)))
  }

  /** A local call: every value given takes its field, metadata takes its
      keys. */
  ghost function Merge(cfg: Config, s: State, values: map<Field, string>, metadata: map<string, Value>): State {
    var a := if Name in values then MergedField(cfg, s, Name, values[Name]) else s;
    var b := if User in values then MergedField(cfg, a, User, values[User]) else a;
    var c := if Session in values then MergedField(cfg, b, Session, values[Session]) else b;
    var d := if Version in values then MergedField(cfg, c, Version, values[Version]) else c;
    var e := if Environment in values then MergedField(cfg, d, Environment, values[Environment]) else d;
    MergeMetadata(e, Normalize(cfg, metadata, s.metadata.Keys))
  }

  // ---- well-formed states ----

  ghost predicate Wf(cfg: Config, s: State) {
    && (forall f :: OfField(f) in s.accepted ==> Get(s, f) != "")
    && (forall k :: OfKey(k) in s.accepted ==> k in s.metadata)
    && s.wire <= s.metadata.Keys
    && (forall k :: k in s.metadata ==> MetadataKey(k, cfg.utf8) && cfg.runes(s.metadata[k]) <= MAX_RUNES)
    && |s.metadata| <= MAX_METADATA
    && (s.environment != "" ==> ValidEnvironment(s.environment))
  }
}
