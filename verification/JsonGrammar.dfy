/** RFC 8259, sections 2 to 7, as concrete syntax trees.

    A tree keeps every byte of its text: the whitespace around structural
    characters, the spelling of each string unit and each part of a number.
    A text belongs to the grammar exactly when it is the rendering of a
    well-formed tree. A byte is modelled as a `char` and a byte slice as a
    `string`; string bytes above 0x7F are not checked to be UTF-8.
  */
module JsonGrammar {

  // Section 7: one unit of a string body.
  datatype Unit =
    | Plain(c: char)
    | Escaped(c: char)
    | Code(h0: char, h1: char, h2: char, h3: char)

  // Section 6: sign is "", "+" or "-".
  datatype Exponent = NoExponent | Exponent(e: char, sign: string, digits: string)
  datatype Fraction = NoFraction | Fraction(digits: string)
  datatype Number = Number(minus: bool, integer: string, fraction: Fraction, exponent: Exponent)

  // Sections 3, 4 and 5. `gap` is the whitespace of an empty container.
  datatype Json =
    | Str(units: seq<Unit>)
    | Num(number: Number)
    | Lit(word: string)
    | Arr(gap: string, elems: Elems)
    | Obj(gap: string, members: Members)

  datatype Elems = NoElems | Elem(pre: string, value: Json, post: string, more: Elems)

  datatype Members =
    | NoMembers
    | Member(pre: string, key: seq<Unit>, beforeColon: string, afterColon: string,
             value: Json, post: string, more: Members)

  // Section 2: a JSON text is one value with surrounding whitespace.
  datatype Document = Document(lead: string, value: Json, trail: string)

  predicate IsSpace(c: char) { c == ' ' || c == '\t' || c == '\n' || c == '\r' }

  predicate AllSpace(s: string) { forall i :: 0 <= i < |s| ==> IsSpace(s[i]) }

  predicate IsDigit(c: char) { '0' <= c <= '9' }

  predicate AllDigits(s: string) { forall i :: 0 <= i < |s| ==> IsDigit(s[i]) }

  predicate IsHex(c: char) { IsDigit(c) || 'a' <= c <= 'f' || 'A' <= c <= 'F' }

  predicate IsEscapable(c: char) {
    c == '"' || c == '\\' || c == '/' || c == 'b' || c == 'f' || c == 'n' || c == 'r' || c == 't'
  }

  predicate IsWord(w: string) { w == "true" || w == "false" || w == "null" }

  function UnitText(u: Unit): string {
    match u
    case Plain(c) => [c]
    case Escaped(c) => ['\\', c]
    case Code(h0, h1, h2, h3) => ['\\', 'u', h0, h1, h2, h3]
  }

  function UnitsText(us: seq<Unit>): string {
    if us == [] then "" else UnitText(us[0]) + UnitsText(us[1..])
  }

  function ExponentText(e: Exponent): string {
    match e
    case NoExponent => ""
    case Exponent(c, sign, digits) => [c] + sign + digits
  }

  function FractionText(f: Fraction): string {
    match f
    case NoFraction => ""
    case Fraction(digits) => "." + digits
  }

  function NumberText(n: Number): string {
    (if n.minus then "-" else "") + n.integer + FractionText(n.fraction) + ExponentText(n.exponent)
  }

  function Text(v: Json): string {
    match v
    case Str(us) => "\"" + UnitsText(us) + "\""
    case Num(n) => NumberText(n)
    case Lit(w) => w
    case Arr(gap, es) => "[" + gap + ElemsText(es) + "]"
    case Obj(gap, ms) => "{" + gap + MembersText(ms) + "}"
  }

  function ElemsText(es: Elems): string {
    match es
    case NoElems => ""
    case Elem(pre, v, post, more) =>
      pre + Text(v) + post + (if more.NoElems? then "" else "," + ElemsText(more))
  }

  function MembersText(ms: Members): string {
    if ms.NoMembers? then ""
    else
      KeyText(ms) + ColonText(ms) + Text(ms.value) + ms.post +
      (if ms.more.NoMembers? then "" else "," + MembersText(ms.more))
  }

  function KeyText(ms: Members): string
    requires ms.Member?
  {
    ms.pre + "\"" + UnitsText(ms.key) + "\""
  }

  function ColonText(ms: Members): string
    requires ms.Member?
  {
    ms.beforeColon + ":" + ms.afterColon
  }

  function DocumentText(d: Document): string { d.lead + Text(d.value) + d.trail }

  predicate UnitOk(u: Unit) {
    match u
    case Plain(c) => c >= ' ' && c != '"' && c != '\\'
    case Escaped(c) => IsEscapable(c)
    case Code(h0, h1, h2, h3) => IsHex(h0) && IsHex(h1) && IsHex(h2) && IsHex(h3)
  }

  predicate UnitsOk(us: seq<Unit>) { forall i :: 0 <= i < |us| ==> UnitOk(us[i]) }

  predicate IntegerOk(s: string) { s == "0" || (s != "" && AllDigits(s) && s[0] != '0') }

  predicate FractionOk(f: Fraction) { f.NoFraction? || (f.digits != "" && AllDigits(f.digits)) }

  predicate ExponentOk(e: Exponent) {
    e.NoExponent? ||
    ((e.e == 'e' || e.e == 'E') && (e.sign == "" || e.sign == "+" || e.sign == "-") &&
     e.digits != "" && AllDigits(e.digits))
  }

  predicate NumberOk(n: Number) { IntegerOk(n.integer) && FractionOk(n.fraction) && ExponentOk(n.exponent) }

  /** The tree follows the grammar. */
  predicate Ok(v: Json) {
    match v
    case Str(us) => UnitsOk(us)
    case Num(n) => NumberOk(n)
    case Lit(w) => IsWord(w)
    case Arr(gap, es) => AllSpace(gap) && (es.NoElems? || gap == "") && ElemsOk(es)
    case Obj(gap, ms) => AllSpace(gap) && (ms.NoMembers? || gap == "") && MembersOk(ms)
  }

  predicate ElemsOk(es: Elems) {
    match es
    case NoElems => true
    case Elem(pre, v, post, more) => AllSpace(pre) && Ok(v) && AllSpace(post) && ElemsOk(more)
  }

  predicate MembersOk(ms: Members) {
    match ms
    case NoMembers => true
    case Member(pre, key, b, a, v, post, more) =>
      AllSpace(pre) && UnitsOk(key) && AllSpace(b) && AllSpace(a) && Ok(v) && AllSpace(post) && MembersOk(more)
  }

  predicate DocumentOk(d: Document) { AllSpace(d.lead) && Ok(d.value) && AllSpace(d.trail) }

  function Max(a: nat, b: nat): nat { if a < b then b else a }

  /** Containers on the deepest path of the tree. */
  function Depth(v: Json): nat {
    match v
    case Arr(_, es) => 1 + ElemsDepth(es)
    case Obj(_, ms) => 1 + MembersDepth(ms)
    case _ => 0
  }

  function ElemsDepth(es: Elems): nat {
    if es.NoElems? then 0 else Max(Depth(es.value), ElemsDepth(es.more))
  }

  function MembersDepth(ms: Members): nat {
    if ms.NoMembers? then 0 else Max(Depth(ms.value), MembersDepth(ms.more))
  }

  /** No empty array contains whitespace. */
  predicate Tight(v: Json) {
    match v
    case Arr(gap, es) => gap == "" && TightElems(es)
    case Obj(_, ms) => TightMembers(ms)
    case _ => true
  }

  predicate TightElems(es: Elems) { es.NoElems? || (Tight(es.value) && TightElems(es.more)) }

  predicate TightMembers(ms: Members) { ms.NoMembers? || (Tight(ms.value) && TightMembers(ms.more)) }

  function HexValue(c: char): (n: nat)
    requires IsHex(c)
    ensures n < 16
  {
    if IsDigit(c) then c as int - '0' as int
    else if 'a' <= c <= 'f' then c as int - 'a' as int + 10
    else c as int - 'A' as int + 10
  }

  function EscapedByte(c: char): char {
    match c
    case 'b' => '\U{0008}'
    case 'f' => '\U{000C}'
    case 'n' => '\n'
    case 'r' => '\r'
    case 't' => '\t'
    case _ => c
  }

  /** The UTF-8 bytes of one UTF-16 code unit; a surrogate becomes the
      replacement character. */
  function Utf8(v: nat): string
    requires v < 0x10000
  {
    if v < 0x80 then [v as char]
    else if v < 0x800 then [(0xC0 + v / 64) as char, (0x80 + v % 64) as char]
    else if 0xD800 <= v < 0xE000 then [0xEF as char, 0xBF as char, 0xBD as char]
    else [(0xE0 + v / 4096) as char, (0x80 + v / 64 % 64) as char, (0x80 + v % 64) as char]
  }

  function CodeUnit(h0: char, h1: char, h2: char, h3: char): (v: nat)
    requires IsHex(h0) && IsHex(h1) && IsHex(h2) && IsHex(h3)
    ensures v < 0x10000
  {
    HexValue(h0) * 4096 + HexValue(h1) * 256 + HexValue(h2) * 16 + HexValue(h3)
  }

  function UnitDecoded(u: Unit): string
    requires UnitOk(u)
  {
    match u
    case Plain(c) => [c]
    case Escaped(c) => [EscapedByte(c)]
    case Code(h0, h1, h2, h3) => Utf8(CodeUnit(h0, h1, h2, h3))
  }

  /** The decoded spelling of a string body. */
  function Decoded(us: seq<Unit>): string
    requires UnitsOk(us)
  {
    if us == [] then "" else UnitDecoded(us[0]) + Decoded(us[1..])
  }
}
