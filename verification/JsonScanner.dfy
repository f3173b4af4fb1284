/** The push-mode control scanner as a function from state and byte to state
    (contrib/openai/scanjson.go). `Dead` stands for every state with the
    invalid flag set: nothing after that flag can be read back as usable. */
module JsonScanner {
  import opened JsonGrammar

  const MAX_DEPTH: nat := 64
  const MAX_KEY: nat := 64

  datatype Mode = Envelope | Unary

  // A key under assembly, decoded and bounded; `over` marks a key too long
  // to be selected.
  datatype Key = Key(buf: string, over: bool)

  datatype Lex =
    | Value
    | InString(isKey: bool, key: Key)
    | InEscape(isKey: bool, key: Key)
    | InUnicode(isKey: bool, key: Key, hex: string)
    | NumSign | NumZero | NumInt | NumFracFirst | NumFrac | NumExpSign | NumExpFirst | NumExp
    | InWord(rest: string)
    | KeyOrEnd | KeyStart | Colon | MemberDone | ElemDone | ValueOrEnd | Trailing

  datatype Frame = Frame(isObject: bool, key: string)

  datatype Capture = Idle | Capturing(name: string, depth: nat, over: bool)

  // What the scanner remembers beside the grammar state.
  datatype Notes = Notes(
    seen: set<string>,           // tracked keys seen, response members prefixed
    duplicates: bool,
    fields: map<string, string>, // retained raw values
    dropped: set<string>,        // fields whose cap was breached
    kinds: map<string, char>,    // first byte of each tracked member's value
    pending: string,             // member whose first value byte is awaited
    responseSeen: bool,
    capture: Capture)

  datatype Scanner =
    | Dead
    | Live(mode: Mode, lex: Lex, stack: seq<Frame>, rootObject: bool, notes: Notes)

  function Fresh(mode: Mode): Scanner {
    Live(mode, Value, [], false, Notes({}, false, map[], {}, map[], "", false, Idle))
  }

  predicate IsString(name: string) { name == "id" || name == "type" || name == "status" || name == "model" }

  /** The cap of each retained field; 0 for any other name. */
  function FieldCap(name: string): nat {
    if name == "id" then 128
    else if name == "type" || name == "status" then 64
    else if name == "model" then 256
    else if name == "usage" || name == "error" then 4096
    else if name == "incomplete_details" then 1024
    else 0
  }

  function RawCap(name: string): nat {
    if IsString(name) then FieldCap(name) * 6 + 2 else FieldCap(name)
  }

  /** Whether the top frame's key selects a retained field. */
  predicate Selects(mode: Mode, stack: seq<Frame>) {
    && stack != [] && stack[|stack| - 1].isObject
    && var key := stack[|stack| - 1].key;
    && FieldCap(key) > 0
    && match mode
       case Unary => |stack| == 1 && key != "type"
       case Envelope =>
         (|stack| == 1 && key == "type") || (|stack| == 2 && stack[0].key == "response" && key != "type")
  }

  function SeenName(mode: Mode, depth: nat, name: string): string {
    if mode.Envelope? && depth == 2 then "response." + name else name
  }

  function Mark(n: Notes, name: string): Notes {
    n.(duplicates := n.duplicates || name in n.seen, seen := n.seen + {name})
  }

  predicate TracksOutput(mode: Mode, stack: seq<Frame>) {
    && stack != [] && stack[|stack| - 1].key == "output"
    && match mode
       case Envelope => |stack| == 2 && stack[0].key == "response"
       case Unary => |stack| == 1
  }

  predicate TracksResponse(mode: Mode, stack: seq<Frame>) {
    mode.Envelope? && |stack| == 1 && stack[0].key == "response"
  }

  /** The bookkeeping done when a key has been read into the top frame. */
  function KeyNotes(n: Notes, mode: Mode, stack: seq<Frame>): Notes
    requires stack != []
  {
    var key := stack[|stack| - 1].key;
    var a := if TracksResponse(mode, stack)
             then Mark(n, "response").(responseSeen := true, pending := "response")
             else n;
    var b := if Selects(mode, stack)
             then Mark(a, SeenName(mode, |stack|, key)).(
                    capture := Capturing(key, |stack|, false), pending := key, fields := a.fields - {key})
             else a;
    if TracksOutput(mode, stack) then b.(pending := "output") else b
  }

  /** Charge one byte to the open capture. The colon and whitespace before
      a value are neither charged nor kept. */
  function Absorb(n: Notes, b: char): Notes {
    if n.capture.Idle? || n.capture.over then n
    else
      var name := n.capture.name;
      var field := if name in n.fields then n.fields[name] else "";
      if field == "" && (b == ':' || IsSpace(b)) then n
      else if |field| + 1 > RawCap(name) then
        n.(capture := n.capture.(over := true), dropped := n.dropped + {name}, fields := n.fields - {name})
      else n.(fields := n.fields[name := field + [b]])
  }

  function Start(n: Notes, b: char): Notes {
    if n.pending == "" then n else n.(kinds := n.kinds[n.pending := b], pending := "")
  }

  function Finish(n: Notes, depth: nat): Notes {
    if n.capture.Capturing? && n.capture.depth == depth then n.(capture := Idle) else n
  }

  function After(stack: seq<Frame>): Lex {
    if stack == [] then Trailing else if stack[|stack| - 1].isObject then MemberDone else ElemDone
  }

  function EndValue(s: Scanner): Scanner
    requires s.Live?
  {
    s.(lex := After(s.stack), notes := Finish(s.notes, |s.stack|))
  }

  function Pop(s: Scanner): Scanner
    requires s.Live?
  {
    if s.stack == [] then Dead else EndValue(s.(stack := s.stack[..|s.stack| - 1]))
  }

  function Push(s: Scanner, isObject: bool): Scanner
    requires s.Live?
  {
    if |s.stack| >= MAX_DEPTH then Dead
    else s.(stack := s.stack + [Frame(isObject, "")],
            rootObject := if s.stack == [] then isObject else s.rootObject,
            lex := if isObject then KeyOrEnd else ValueOrEnd)
  }

  function Grow(k: Key, bytes: string): Key {
    if k.over then k else if |k.buf| + |bytes| > MAX_KEY then Key("", true) else Key(k.buf + bytes, false)
  }

  function BeginKey(s: Scanner): Scanner
    requires s.Live?
  {
    s.(lex := InString(true, Key("", false)))
  }

  function WithKey(stack: seq<Frame>, key: string): seq<Frame>
    requires stack != []
  {
    stack[|stack| - 1 := stack[|stack| - 1].(key := key)]
  }

  function EndKey(s: Scanner, key: string): Scanner
    requires s.Live?
  {
    if s.stack == [] then Dead
    else
      var stack := WithKey(s.stack, key);
      s.(stack := stack, lex := Colon, notes := KeyNotes(s.notes, s.mode, stack))
  }

  function StepValue(s: Scanner, b: char): Scanner
    requires s.Live?
  {
    if IsSpace(b) then s
    else
      var t := s.(notes := Start(s.notes, b));
      if b == '{' then Push(t, true)
      else if b == '[' then Push(t, false)
      else if b == '"' then t.(lex := InString(false, Key("", false)))
      else if b == '-' then t.(lex := NumSign)
      else if b == '0' then t.(lex := NumZero)
      else if IsDigit(b) then t.(lex := NumInt)
      else if b == 't' then t.(lex := InWord("rue"))
      else if b == 'f' then t.(lex := InWord("alse"))
      else if b == 'n' then t.(lex := InWord("ull"))
      else Dead
  }

  function StepString(s: Scanner, b: char): Scanner
    requires s.Live? && s.lex.InString?
  {
    var k := s.lex.key;
    if b == '"' then
      if s.lex.isKey then EndKey(s, if k.over then "" else k.buf) else EndValue(s)
    else if b == '\\' then s.(lex := InEscape(s.lex.isKey, k))
    else if b < ' ' then Dead
    else s.(lex := InString(s.lex.isKey, if s.lex.isKey then Grow(k, [b]) else k))
  }

  function StepUnicode(s: Scanner, b: char): Scanner
    requires s.Live? && s.lex.InUnicode?
  {
    var isKey, k, hex := s.lex.isKey, s.lex.key, s.lex.hex + [b];
    if !IsHex(b) then Dead
    else if |hex| < 4 then s.(lex := InUnicode(isKey, k, hex))
    else if isKey && !k.over then
      if |hex| == 4 && IsHex(hex[0]) && IsHex(hex[1]) && IsHex(hex[2])
      then s.(lex := InString(isKey, Grow(k, Utf8(CodeUnit(hex[0], hex[1], hex[2], hex[3])))))
      else Dead
    else s.(lex := InString(isKey, k))
  }

  /** States that handle a byte without handing it on. */
  function StepPlain(s: Scanner, b: char): Scanner
    requires s.Live?
  {
    match s.lex
    case Value => StepValue(s, b)
    case InString(_, _) => StepString(s, b)
    case InEscape(isKey, k) =>
      if IsEscapable(b) then s.(lex := InString(isKey, if isKey then Grow(k, [EscapedByte(b)]) else k))
      else if b == 'u' then s.(lex := InUnicode(isKey, k, ""))
      else Dead
    case InUnicode(_, _, _) => StepUnicode(s, b)
    case InWord(rest) =>
      if rest == "" || b != rest[0] then Dead
      else if |rest| == 1 then EndValue(s)
      else s.(lex := InWord(rest[1..]))
    case KeyOrEnd =>
      if b == '}' then Pop(s) else if b == '"' then BeginKey(s) else if IsSpace(b) then s else Dead
    case KeyStart => if b == '"' then BeginKey(s) else if IsSpace(b) then s else Dead
    case Colon => if b == ':' then s.(lex := Value) else if IsSpace(b) then s else Dead
    case MemberDone =>
      if b == ',' then s.(lex := KeyStart) else if b == '}' then Pop(s) else if IsSpace(b) then s else Dead
    case ElemDone =>
      if b == ',' then s.(lex := Value) else if b == ']' then Pop(s) else if IsSpace(b) then s else Dead
    case Trailing => if IsSpace(b) then s else Dead
    case _ => Dead
  }

  /** A number ends at the first byte that cannot continue it, and that byte
      is handled again by the enclosing state. */
  function StepNumber(s: Scanner, b: char): Scanner
    requires s.Live?
  {
    match s.lex
    case NumSign => if b == '0' then s.(lex := NumZero) else if IsDigit(b) then s.(lex := NumInt) else Dead
    case NumZero =>
      if IsDigit(b) then Dead
      else if b == '.' then s.(lex := NumFracFirst)
      else if b == 'e' || b == 'E' then s.(lex := NumExpSign)
      else StepPlain(EndValue(s), b)
    case NumInt =>
      if IsDigit(b) then s
      else if b == '.' then s.(lex := NumFracFirst)
      else if b == 'e' || b == 'E' then s.(lex := NumExpSign)
      else StepPlain(EndValue(s), b)
    case NumFracFirst => if IsDigit(b) then s.(lex := NumFrac) else Dead
    case NumFrac =>
      if IsDigit(b) then s
      else if b == 'e' || b == 'E' then s.(lex := NumExpSign)
      else StepPlain(EndValue(s), b)
    case NumExpSign =>
      if b == '+' || b == '-' then s.(lex := NumExpFirst) else if IsDigit(b) then s.(lex := NumExp) else Dead
    case NumExpFirst => if IsDigit(b) then s.(lex := NumExp) else Dead
    case NumExp => if IsDigit(b) then s else StepPlain(EndValue(s), b)
    case _ => Dead
  }

  predicate InNumber(lex: Lex) {
    || lex.NumSign? || lex.NumZero? || lex.NumInt? || lex.NumFracFirst? || lex.NumFrac?
    || lex.NumExpSign? || lex.NumExpFirst? || lex.NumExp?
  }

  function Step(s: Scanner, b: char): Scanner
    requires s.Live?
  {
    if InNumber(s.lex) then StepNumber(s, b)
    else if s.lex.ValueOrEnd? then if b == ']' then Pop(s) else StepPlain(s.(lex := Value), b)
    else StepPlain(s, b)
  }

  /** One byte of input: charge the capture, then move. */
  function FeedByte(s: Scanner, b: char): Scanner {
    if s.Dead? then Dead else Step(s.(notes := Absorb(s.notes, b)), b)
  }

  function Feed(s: Scanner, bytes: string): Scanner
    decreases |bytes|
  {
    if bytes == "" then s else Feed(FeedByte(s, bytes[0]), bytes[1..])
  }

  predicate Finished(s: Scanner) { s.Live? && s.lex.Trailing? }

  /** Hard verdicts may be derived. */
  predicate Usable(s: Scanner) { Finished(s) && !s.notes.duplicates && s.rootObject }

  lemma {:induction false} FeedAppend(s: Scanner, a: string, b: string)
    ensures Feed(s, a + b) == Feed(Feed(s, a), b)
    decreases |a|
  {
    if a == "" {
      assert a + b == b;
    } else {
      assert (a + b)[0] == a[0] && (a + b)[1..] == a[1..] + b;
      FeedAppend(FeedByte(s, a[0]), a[1..], b);
    }
  }

  lemma {:induction false} DeadStaysDead(bytes: string)
    ensures Feed(Dead, bytes) == Dead
    decreases |bytes|
  {
    if bytes != "" { DeadStaysDead(bytes[1..]); }
  }

  function AbsorbAll(n: Notes, bytes: string): Notes
    decreases |bytes|
  {
    if bytes == "" then n else AbsorbAll(Absorb(n, bytes[0]), bytes[1..])
  }

  lemma {:induction false} AbsorbAppend(n: Notes, a: string, b: string)
    ensures AbsorbAll(n, a + b) == AbsorbAll(AbsorbAll(n, a), b)
    decreases |a|
  {
    if a == "" {
      assert a + b == b;
    } else {
      assert (a + b)[0] == a[0] && (a + b)[1..] == a[1..] + b;
      AbsorbAppend(Absorb(n, a[0]), a[1..], b);
    }
  }
}
