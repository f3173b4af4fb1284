/** The scanner as the source keeps it: one object whose fields each byte
    updates (contrib/openai/scanjson.go). Every method is the corresponding
    step of `JsonScanner` on the abstract state `View()`. */
module ControlScanner {
  import opened JsonGrammar
  import JsonScanner
  import opened JsonScannerTheorems
  import opened Pieces

  datatype State =
    | ScanValue | ScanString | ScanStringEscape | ScanStringUnicode
    | ScanNumberSign | ScanNumberZero | ScanNumberInt | ScanNumberFracFirst | ScanNumberFrac
    | ScanNumberExpSign | ScanNumberExpFirst | ScanNumberExp
    | ScanLiteral | ScanObjectKeyOrEnd | ScanObjectKey | ScanObjectColon
    | ScanObjectValueDone | ScanArrayValueDone | ScanValueOrArrayEnd | ScanTrailing

  lemma SelectedNonEmpty(mode: JsonScanner.Mode, stack: seq<JsonScanner.Frame>)
    requires stack != []
    ensures JsonScanner.Selects(mode, stack) ==> stack[|stack| - 1].key != ""
  {
  }

  predicate AllHex(s: string) { forall i :: 0 <= i < |s| ==> IsHex(s[i]) }

  class Scanner {
    const mode: JsonScanner.Mode
    var state: State
    var stack: seq<JsonScanner.Frame>

    var invalid: bool
    var duplicates: bool
    var rootObject: bool
    var fieldOver: bool
    var complete: bool

    var droppedFields: set<string>
    var valueKinds: map<string, char>
    var kindPending: string
    var responseSeen: bool

    var isKey: bool
    var keyBuf: string
    var keyOver: bool
    var unicodeAcc: string
    var unicodeLeft: nat
    var literal: string
    var literalLeft: nat

    var fields: map<string, string>
    var seen: set<string>
    var captureName: string
    var captureDepth: nat
    var captureOver: bool

    constructor (mode: JsonScanner.Mode)
      ensures Valid() && View() == JsonScanner.Fresh(mode) && this.mode == mode
    {
      this.mode := mode;
      state, stack := ScanValue, [];
      invalid, duplicates, rootObject, fieldOver, complete := false, false, false, false, false;
      droppedFields, valueKinds, kindPending, responseSeen := {}, map[], "", false;
      isKey, keyBuf, keyOver := false, "", false;
      unicodeAcc, unicodeLeft, literal, literalLeft := "", 0, "", 0;
      fields, seen, captureName, captureDepth, captureOver := map[], {}, "", 0, false;
    }

    ghost predicate Valid()
      reads this
    {
      && (fieldOver <==> droppedFields != {})
      && (invalid ==> state == ScanTrailing)
      && (!invalid ==>
            && (complete <==> state == ScanTrailing)
            && (state == ScanStringUnicode ==>
                  unicodeLeft + |unicodeAcc| == 4 && 0 < unicodeLeft && AllHex(unicodeAcc))
            && (state == ScanLiteral ==> 0 < literalLeft <= |literal|))
    }

    ghost function KeyView(): JsonScanner.Key
      reads this`isKey, this`keyBuf, this`keyOver
    {
      if isKey then JsonScanner.Key(keyBuf, keyOver) else JsonScanner.Key("", false)
    }

    ghost function LexView(): JsonScanner.Lex
      requires Valid() && !invalid
      reads this
    {
      match state
      case ScanValue => JsonScanner.Value
      case ScanString => JsonScanner.InString(isKey, KeyView())
      case ScanStringEscape => JsonScanner.InEscape(isKey, KeyView())
      case ScanStringUnicode => JsonScanner.InUnicode(isKey, KeyView(), unicodeAcc)
      case ScanNumberSign => JsonScanner.NumSign
      case ScanNumberZero => JsonScanner.NumZero
      case ScanNumberInt => JsonScanner.NumInt
      case ScanNumberFracFirst => JsonScanner.NumFracFirst
      case ScanNumberFrac => JsonScanner.NumFrac
      case ScanNumberExpSign => JsonScanner.NumExpSign
      case ScanNumberExpFirst => JsonScanner.NumExpFirst
      case ScanNumberExp => JsonScanner.NumExp
      case ScanLiteral => JsonScanner.InWord(literal[|literal| - literalLeft..])
      case ScanObjectKeyOrEnd => JsonScanner.KeyOrEnd
      case ScanObjectKey => JsonScanner.KeyStart
      case ScanObjectColon => JsonScanner.Colon
      case ScanObjectValueDone => JsonScanner.MemberDone
      case ScanArrayValueDone => JsonScanner.ElemDone
      case ScanValueOrArrayEnd => JsonScanner.ValueOrEnd
      case ScanTrailing => JsonScanner.Trailing
    }

    ghost function NotesView(): JsonScanner.Notes
      reads this`seen, this`duplicates, this`fields, this`droppedFields, this`valueKinds, this`kindPending,
            this`responseSeen, this`captureName, this`captureDepth, this`captureOver
    {
      JsonScanner.Notes(seen, duplicates, fields, droppedFields, valueKinds, kindPending, responseSeen,
                        if captureName == "" then JsonScanner.Idle
                        else JsonScanner.Capturing(captureName, captureDepth, captureOver))
    }

    /** The abstract state; an invalid scanner has nothing left to observe. */
    ghost function View(): JsonScanner.Scanner
      requires Valid()
      reads this
    {
      if invalid then JsonScanner.Dead
      else JsonScanner.Live(mode, LexView(), stack, rootObject, NotesView())
    }

    method Fail()
      requires fieldOver <==> droppedFields != {}
      modifies this`invalid, this`state, this`captureName
      ensures Valid() && View() == JsonScanner.Dead
    {
      hide LexView, NotesView, KeyView;
      invalid := true;
      state := ScanTrailing;
      captureName := "";
    }

    /** Ends the value just read below `stack`. */
    method EndScalar()
      requires Valid() && !invalid
      modifies this`captureName, this`complete, this`state
      ensures Valid() && View() == JsonScanner.EndValue(old(View()))
    {
      hide KeyView, AllHex, JsonScanner.KeyNotes;
      if captureName != "" && |stack| == captureDepth {
        captureName := "";
      }
      if |stack| == 0 {
        complete := true;
        state := ScanTrailing;
      } else {
        complete := false;
        state := if stack[|stack| - 1].isObject then ScanObjectValueDone else ScanArrayValueDone;
      }
    }

    method Pop()
      requires Valid() && !invalid
      modifies this`invalid, this`stack, this`captureName, this`complete, this`state
      ensures Valid() && View() == JsonScanner.Pop(old(View()))
    {
      hide KeyView, AllHex, NotesView, JsonScanner.EndValue;
      if |stack| == 0 {
        Fail();
        return;
      }
      stack := stack[..|stack| - 1];
      EndScalar();
    }

    method Push(isObject: bool)
      requires Valid() && state == ScanValue && !invalid
      modifies this`invalid, this`state, this`captureName, this`rootObject, this`stack
      ensures Valid() && View() == JsonScanner.Push(old(View()), isObject)
    {
      hide NotesView, KeyView, AllHex;
      if |stack| >= JsonScanner.MAX_DEPTH {
        Fail();
        return;
      }
      if |stack| == 0 {
        rootObject := isObject;
      }
      stack := stack + [JsonScanner.Frame(isObject, "")];
      state := if isObject then ScanObjectKeyOrEnd else ScanValueOrArrayEnd;
    }

    method BeginKey()
      requires Valid() && !invalid && state != ScanTrailing
      modifies this`isKey, this`keyBuf, this`keyOver, this`state
      ensures Valid() && View() == JsonScanner.BeginKey(old(View()))
    {
      hide NotesView, AllHex;
      isKey, keyBuf, keyOver := true, "", false;
      state := ScanString;
    }

    method GrowKey(bytes: string)
      modifies this`keyBuf, this`keyOver
      ensures JsonScanner.Key(keyBuf, keyOver) == JsonScanner.Grow(JsonScanner.Key(old(keyBuf), old(keyOver)), bytes)
    {
      if !keyOver {
        keyBuf := keyBuf + bytes;
        if |keyBuf| > JsonScanner.MAX_KEY {
          keyBuf := "";
          keyOver := true;
        }
      }
    }

    method EndKey()
      requires Valid() && !invalid && state == ScanString && isKey
      modifies this
      ensures Valid()
      ensures View() == JsonScanner.EndKey(old(View()), if old(keyOver) then "" else old(keyBuf))
    {
      hide JsonScanner.KeyNotes, JsonScanner.Grow, NotesView, AllHex;
      var key := if keyOver then "" else keyBuf;
      if |stack| == 0 {
        Fail();
        return;
      }
      stack := JsonScanner.WithKey(stack, key);
      isKey := false;
      state := ScanObjectColon;
      NoteKey();
    }

    method MarkSeen(name: string)
      modifies this`duplicates, this`seen
      ensures NotesView() == JsonScanner.Mark(old(NotesView()), name)
    {
      duplicates := duplicates || name in seen;
      seen := seen + {name};
    }

    method BeginCapture(name: string)
      requires name != ""
      modifies this`kindPending, this`captureName, this`captureDepth, this`captureOver, this`fields
      ensures NotesView() == old(NotesView()).(capture := JsonScanner.Capturing(name, |stack|, false), pending := name,
                                               fields := old(fields) - {name})
    {
      captureName, captureDepth, captureOver := name, |stack|, false;
      kindPending := name;
      fields := fields - {name};
    }

    /** Duplicate detection, capture and kind tracking for the top key. */
    method NoteKey()
      requires stack != []
      modifies this`duplicates, this`seen, this`responseSeen, this`kindPending,
               this`captureName, this`captureDepth, this`captureOver, this`fields
      ensures NotesView() == JsonScanner.KeyNotes(old(NotesView()), mode, stack)
    {
      SelectedNonEmpty(mode, stack);
      hide Valid, View, LexView, KeyView, JsonScanner.Selects, JsonScanner.TracksResponse, JsonScanner.TracksOutput,
           JsonScanner.SeenName;
      var key := stack[|stack| - 1].key;
      if JsonScanner.TracksResponse(mode, stack) {
        MarkSeen("response");
        responseSeen := true;
        kindPending := "response";
      }
      if JsonScanner.Selects(mode, stack) {
        MarkSeen(JsonScanner.SeenName(mode, |stack|, key));
        BeginCapture(key);
      }
      if JsonScanner.TracksOutput(mode, stack) {
        kindPending := "output";
      }
    }

    /** The first byte of a tracked member's value. */
    method NoteKind(b: char)
      modifies this`valueKinds, this`kindPending
      ensures NotesView() == JsonScanner.Start(old(NotesView()), b)
    {
      if kindPending != "" {
        valueKinds := valueKinds[kindPending := b];
        kindPending := "";
      }
    }

    method StepValue(b: char)
      requires Valid() && !invalid && state == ScanValue
      modifies this
      ensures Valid() && View() == JsonScanner.StepValue(old(View()), b)
    {
      hide JsonScanner.Push, JsonScanner.Start, NotesView, JsonScanner.After, AllHex, IsSpace;
      if IsSpace(b) { return; }
      NoteKind(b);
      if b == '{' { Push(true); }
      else if b == '[' { Push(false); }
      else if b == '"' { isKey := false; state := ScanString; }
      else if b == '-' { state := ScanNumberSign; }
      else if b == '0' { state := ScanNumberZero; }
      else if '1' <= b <= '9' { state := ScanNumberInt; }
      else if b == 't' { BeginLiteral("true"); }
      else if b == 'f' { BeginLiteral("false"); }
      else if b == 'n' { BeginLiteral("null"); }
      else { Fail(); }
    }

    // The first byte of the word has been read.
    method BeginLiteral(word: string)
      requires Valid() && !invalid && state == ScanValue && |word| > 1
      modifies this`literal, this`literalLeft, this`state
      ensures Valid() && old(View()).Live? && View() == old(View()).(lex := JsonScanner.InWord(word[1..]))
    {
      literal, literalLeft := word, |word| - 1;
      state := ScanLiteral;
    }

    method StepString(b: char)
      requires Valid() && !invalid && state == ScanString
      modifies this
      ensures Valid() && View() == JsonScanner.StepString(old(View()), b)
    {
      if b == '"' {
        if isKey { EndKey(); } else { EndScalar(); }
      } else if b == '\\' {
        state := ScanStringEscape;
      } else if b < ' ' {
        Fail();
      } else if isKey {
        GrowKey([b]);
      }
    }

    method StepEscape(b: char)
      requires Valid() && !invalid && state == ScanStringEscape
      modifies this
      ensures Valid() && View() == JsonScanner.StepPlain(old(View()), b)
    {
      hide JsonScanner.StepValue, JsonScanner.StepString, JsonScanner.StepUnicode, JsonScanner.Pop,
           JsonScanner.BeginKey, JsonScanner.Grow, JsonScanner.EndValue,
           NotesView, IsSpace, IsEscapable, EscapedByte;
      if IsEscapable(b) {
        state := ScanString;
        if isKey { GrowKey([EscapedByte(b)]); }
      } else if b == 'u' {
        state := ScanStringUnicode;
        unicodeLeft, unicodeAcc := 4, "";
      } else {
        Fail();
      }
    }

    method StepUnicode(b: char)
      requires Valid() && !invalid && state == ScanStringUnicode
      modifies this
      ensures Valid() && View() == JsonScanner.StepUnicode(old(View()), b)
    {
      hide JsonScanner.Grow, Utf8, CodeUnit, NotesView, IsHex;
      if !IsHex(b) {
        Fail();
        return;
      }
      unicodeAcc := unicodeAcc + [b];
      unicodeLeft := unicodeLeft - 1;
      if unicodeLeft == 0 {
        state := ScanString;
        if isKey && !keyOver {
          GrowKey(Utf8(CodeUnit(unicodeAcc[0], unicodeAcc[1], unicodeAcc[2], unicodeAcc[3])));
        }
      }
    }

    method StepLiteral(b: char)
      requires Valid() && !invalid && state == ScanLiteral
      modifies this
      ensures Valid() && View() == JsonScanner.StepPlain(old(View()), b)
    {
      hide JsonScanner.StepValue, JsonScanner.StepString, JsonScanner.StepUnicode, JsonScanner.Pop,
           JsonScanner.BeginKey, JsonScanner.Grow, JsonScanner.Finish,
           NotesView, IsSpace, AllHex;
      if b != literal[|literal| - literalLeft] {
        Fail();
        return;
      }
      var left := literalLeft - 1;
      if left == 0 {
        EndScalar();
      }
      literalLeft := left;
    }

    method StepSign(b: char)
      requires Valid() && !invalid && state == ScanNumberSign
      modifies this
      ensures Valid() && View() == JsonScanner.StepNumber(old(View()), b)
    {
      if b == '0' {
        state := ScanNumberZero;
      } else if '1' <= b <= '9' {
        state := ScanNumberInt;
      } else {
        Fail();
      }
    }

    /** States that hold no byte back. */
    method StepPlain(b: char)
      requires Valid() && !invalid && !JsonScanner.InNumber(LexView()) && state != ScanValueOrArrayEnd
      modifies this
      ensures Valid() && View() == JsonScanner.StepPlain(old(View()), b)
    {
      hide JsonScanner.StepValue, JsonScanner.StepString, JsonScanner.StepUnicode, JsonScanner.Pop, JsonScanner.Grow,
           NotesView, KeyView, AllHex, IsSpace;
      if state == ScanValue { StepValue(b); }
      else if state == ScanString { StepString(b); }
      else if state == ScanStringEscape { StepEscape(b); }
      else if state == ScanStringUnicode { StepUnicode(b); }
      else if state == ScanLiteral { StepLiteral(b); }
      else if state == ScanTrailing {
        if !IsSpace(b) {
          invalid := true;
          complete := false;
        }
      } else { StepStructure(b); }
    }

    method StepStructure(b: char)
      requires Valid() && !invalid
      requires state in {ScanObjectKeyOrEnd, ScanObjectKey, ScanObjectColon, ScanObjectValueDone, ScanArrayValueDone}
      modifies this
      ensures Valid() && View() == JsonScanner.StepPlain(old(View()), b)
    {
      hide JsonScanner.StepValue, JsonScanner.StepString, JsonScanner.StepUnicode, JsonScanner.Pop,
           JsonScanner.BeginKey, JsonScanner.Grow, JsonScanner.EndValue,
           NotesView, KeyView, AllHex;
      if IsSpace(b) { return; }
      if state == ScanObjectKeyOrEnd {
        if b == '}' { Pop(); } else if b == '"' { BeginKey(); } else { Fail(); }
      } else if state == ScanObjectKey {
        if b == '"' { BeginKey(); } else { Fail(); }
      } else if state == ScanObjectColon {
        if b == ':' { state := ScanValue; } else { Fail(); }
      } else if state == ScanObjectValueDone {
        if b == ',' { state := ScanObjectKey; } else if b == '}' { Pop(); } else { Fail(); }
      } else {
        if b == ',' { state := ScanValue; } else if b == ']' { Pop(); } else { Fail(); }
      }
    }

    method StepNumber(b: char)
      requires Valid() && !invalid && JsonScanner.InNumber(LexView())
      modifies this
      ensures Valid() && View() == JsonScanner.StepNumber(old(View()), b)
    {
      hide JsonScanner.StepPlain, JsonScanner.EndValue, JsonScanner.Pop, JsonScanner.Grow, NotesView, KeyView, AllHex,
           IsSpace;
      if state == ScanNumberSign { StepSign(b); }
      else if state == ScanNumberFracFirst {
        if IsDigit(b) { state := ScanNumberFrac; } else { Fail(); }
      } else if state == ScanNumberExpSign {
        if b == '+' || b == '-' { state := ScanNumberExpFirst; }
        else if IsDigit(b) { state := ScanNumberExp; }
        else { Fail(); }
      } else if state == ScanNumberExpFirst {
        if IsDigit(b) { state := ScanNumberExp; } else { Fail(); }
      } else { StepDigits(b); }
    }

    method StepDigits(b: char)
      requires Valid() && !invalid
      requires state in {ScanNumberZero, ScanNumberInt, ScanNumberFrac, ScanNumberExp}
      modifies this
      ensures Valid() && View() == JsonScanner.StepNumber(old(View()), b)
    {
      hide JsonScanner.StepPlain, JsonScanner.Finish, JsonScanner.Pop, JsonScanner.BeginKey, JsonScanner.Grow,
           NotesView, KeyView, IsSpace, AllHex;
      if IsDigit(b) {
        if state == ScanNumberZero { Fail(); }
      } else if b == '.' && (state == ScanNumberZero || state == ScanNumberInt) {
        state := ScanNumberFracFirst;
      } else if (b == 'e' || b == 'E') && state != ScanNumberExp {
        state := ScanNumberExpSign;
      } else {
        EndScalar();
        StepPlain(b);
      }
    }

    method Step(b: char)
      requires Valid() && !invalid
      modifies this
      ensures Valid() && View() == JsonScanner.Step(old(View()), b)
    {
      hide JsonScanner.StepPlain, JsonScanner.StepNumber, JsonScanner.Pop, JsonScanner.Grow, NotesView, KeyView,
           IsSpace, AllHex;
      if JsonScanner.InNumber(LexOf(state)) {
        StepNumber(b);
      } else if state == ScanValueOrArrayEnd {
        if b == ']' {
          Pop();
        } else {
          state := ScanValue;
          StepPlain(b);
        }
      } else {
        StepPlain(b);
      }
    }

    // The number states, as the abstract scanner names them.
    static function LexOf(state: State): JsonScanner.Lex {
      match state
      case ScanNumberSign => JsonScanner.NumSign
      case ScanNumberZero => JsonScanner.NumZero
      case ScanNumberInt => JsonScanner.NumInt
      case ScanNumberFracFirst => JsonScanner.NumFracFirst
      case ScanNumberFrac => JsonScanner.NumFrac
      case ScanNumberExpSign => JsonScanner.NumExpSign
      case ScanNumberExpFirst => JsonScanner.NumExpFirst
      case ScanNumberExp => JsonScanner.NumExp
      case _ => JsonScanner.Value
    }

    method Charge(b: char)
      requires fieldOver <==> droppedFields != {}
      modifies this`fields, this`fieldOver, this`droppedFields, this`captureOver
      ensures fieldOver <==> droppedFields != {}
      ensures NotesView() == JsonScanner.Absorb(old(NotesView()), b)
    {
      hide JsonScanner.RawCap, IsSpace;
      if captureName != "" && !captureOver {
        var field := if captureName in fields then fields[captureName] else "";
        if |field| != 0 || (b != ':' && !IsSpace(b)) {
          if |field| + 1 > JsonScanner.RawCap(captureName) {
            captureOver := true;
            fieldOver := true;
            droppedFields := droppedFields + {captureName};
            fields := fields - {captureName};
          } else {
            fields := fields[captureName := field + [b]];
          }
        }
      }
    }

    /** Consumes one segment, byte by byte. */
    method Feed(p: string)
      requires Valid()
      modifies this
      ensures Valid() && View() == JsonScanner.Feed(old(View()), p)
    {
      hide JsonScanner.Step, JsonScanner.Absorb, JsonScanner.StepPlain, JsonScanner.StepNumber, JsonScanner.Grow,
           NotesView, KeyView, AllHex;
      var index := 0;
      while index < |p|
        invariant 0 <= index <= |p|
        invariant Valid() && JsonScanner.Feed(View(), p[index..]) == JsonScanner.Feed(old(View()), p)
      {
        if invalid {
          JsonScanner.DeadStaysDead(p[index..]);
          return;
        }
        ghost var before := View();
        Charge(p[index]);
        assert Valid() && View() == before.(notes := JsonScanner.Absorb(before.notes, p[index]));
        Step(p[index]);
        assert View() == JsonScanner.FeedByte(before, p[index]);
        assert p[index..][1..] == p[index + 1..];
        index := index + 1;
      }
      assert p[index..] == "";
    }

    method DocumentUsable() returns (usable: bool)
      requires Valid()
      ensures usable == JsonScanner.Usable(View())
    {
      usable := complete && !invalid && !duplicates && rootObject;
    }
  }

  /** A payload fed in any segments, as the parsers use the scanner: usable
      exactly when the whole is the text of an admissible document. */
  method Scan(mode: JsonScanner.Mode, pieces: seq<string>) returns (usable: bool)
    ensures usable <==> exists d :: Admissible(mode, d) && DocumentText(d) == Flatten(pieces)
  {
    hide JsonScanner.Feed, JsonScanner.Usable, Admissible, DocumentText;
    var s := new Scanner(mode);
    var i := 0;
    assert pieces[0..] == pieces;
    while i < |pieces|
      invariant 0 <= i <= |pieces| && fresh(s) && s.Valid()
      invariant JsonScanner.Feed(s.View(), Flatten(pieces[i..])) ==
                JsonScanner.Feed(JsonScanner.Fresh(mode), Flatten(pieces))
    {
      assert pieces[i..][1..] == pieces[i + 1..];
      JsonScanner.FeedAppend(s.View(), pieces[i], Flatten(pieces[i + 1..]));
      s.Feed(pieces[i]);
      i := i + 1;
    }
    FeedNothing(s.View());
    usable := s.DocumentUsable();
    UsableIffAdmissible(mode, Flatten(pieces));
  }

  lemma FeedNothing(s: JsonScanner.Scanner)
    ensures JsonScanner.Feed(s, "") == s
  {
  }
}
