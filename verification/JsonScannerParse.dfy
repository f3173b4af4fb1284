/** From an accepting run back to a syntax tree: whatever the scanner reads to
    the end is the text of a well-formed, bounded document. */
module JsonScannerParse {
  import opened JsonGrammar
  import opened JsonScanner
  import opened JsonScannerRuns

  predicate Accepts(s: Scanner, input: string) { Finished(Feed(s, input)) }

  // An accepting run is live from its first byte on.
  lemma Ahead(s: Scanner, input: string)
    requires Accepts(s, input)
    ensures s.Live?
    ensures input == "" ==> s.lex.Trailing?
    ensures input != "" ==> FeedByte(s, input[0]).Live? && Accepts(FeedByte(s, input[0]), input[1..])
    ensures input != "" ==> input == [input[0]] + input[1..]
    ensures input != "" ==> Feed(s, input) == Feed(FeedByte(s, input[0]), input[1..])
  {
    hide FeedByte;
    if s.Dead? { DeadStaysDead(input); }
    if input != "" && FeedByte(s, input[0]).Dead? { DeadStaysDead(input[1..]); }
  }

  predicate SpaceSplit(s: Scanner, input: string, w: string, rest: string, t: Scanner) {
    && s.Live? && input == w + rest && AllSpace(w) && (rest != "" ==> !IsSpace(rest[0]))
    && t.Live? && t == s.(notes := t.notes) && Accepts(t, rest) && Feed(t, rest) == Feed(s, input)
  }

  lemma {:induction false} SplitSpace(s: Scanner, input: string) returns (w: string, rest: string, t: Scanner)
    requires s.Live? && Skips(s.lex) && Accepts(s, input)
    ensures SpaceSplit(s, input, w, rest, t)
    decreases |input|
  {
    hide FeedByte;
    if input == "" || !IsSpace(input[0]) {
      w, rest, t := "", input, s;
    } else {
      Ahead(s, input);
      SpaceByte(s, input[0]);
      var v;
      v, rest, t := SplitSpace(FeedByte(s, input[0]), input[1..]);
      w := [input[0]] + v;
    }
  }

  predicate DigitsSplit(s: Scanner, input: string, ds: string, rest: string, t: Scanner) {
    && s.Live? && input == ds + rest && AllDigits(ds) && rest != "" && !IsDigit(rest[0])
    && t.Live? && t == s.(notes := t.notes) && Accepts(t, rest) && Feed(t, rest) == Feed(s, input)
  }

  lemma {:induction false} SplitDigits(s: Scanner, input: string) returns (ds: string, rest: string, t: Scanner)
    requires s.Live? && Digesting(s.lex) && Accepts(s, input)
    ensures DigitsSplit(s, input, ds, rest, t)
    decreases |input|
  {
    hide Absorb;
    Ahead(s, input);
    if !IsDigit(input[0]) {
      ds, rest, t := "", input, s;
    } else {
      assert FeedByte(s, input[0]) == s.(notes := Absorb(s.notes, input[0]));
      hide FeedByte;
      var more;
      more, rest, t := SplitDigits(FeedByte(s, input[0]), input[1..]);
      ds := [input[0]] + more;
    }
  }

  // What an accepting run can meet inside a string.
  lemma StringByte(s: Scanner, isKey: bool, input: string)
    requires s.Live? && s.lex.InString? && s.lex.isKey == isKey && Accepts(s, input)
    ensures input != ""
    ensures input[0] == '"' || input[0] == '\\' || UnitOk(Plain(input[0]))
    ensures input[0] != '"' ==>
              var t := FeedByte(s, input[0]);
              && t.Live? && t.stack == s.stack && t.mode == s.mode && t.rootObject == s.rootObject
              && if input[0] == '\\' then t.lex.InEscape? && t.lex.isKey == isKey
                 else t.lex.InString? && t.lex.isKey == isKey
  {
    hide Absorb, Grow;
    Ahead(s, input);
  }

  lemma EscapeByte(s: Scanner, isKey: bool, input: string)
    requires s.Live? && s.lex.InEscape? && s.lex.isKey == isKey && Accepts(s, input)
    ensures input != "" && (IsEscapable(input[0]) || input[0] == 'u')
    ensures var t := FeedByte(s, input[0]);
            && t.Live? && t.stack == s.stack && t.mode == s.mode && t.rootObject == s.rootObject
            && if input[0] == 'u' then t.lex.InUnicode? && t.lex.isKey == isKey && t.lex.hex == ""
               else t.lex.InString? && t.lex.isKey == isKey
  {
    hide Absorb, Grow;
    Ahead(s, input);
  }

  lemma HexStep(s: Scanner, isKey: bool, hex: string, input: string)
    requires s.Live? && s.lex.InUnicode? && s.lex.isKey == isKey && s.lex.hex == hex && |hex| < 4
    requires Accepts(s, input)
    ensures input != "" && IsHex(input[0])
    ensures var t := FeedByte(s, input[0]);
            && t.Live? && t.stack == s.stack && t.mode == s.mode && t.rootObject == s.rootObject
            && if |hex| == 3 then t.lex.InString? && t.lex.isKey == isKey
               else t.lex.InUnicode? && t.lex.isKey == isKey && t.lex.hex == hex + [input[0]]
  {
    hide Absorb, Grow, Utf8, CodeUnit;
    Ahead(s, input);
  }

  predicate UnitSplit(s: Scanner, isKey: bool, input: string, u: Unit, rest: string, t: Scanner) {
    && s.Live? && UnitOk(u) && input == UnitText(u) + rest
    && t.Live? && t.lex.InString? && t.lex.isKey == isKey
    && t.stack == s.stack && t.mode == s.mode && t.rootObject == s.rootObject
    && Feed(t, rest) == Feed(s, input) && |rest| < |input|
  }

  lemma SplitUnit(s: Scanner, isKey: bool, input: string) returns (u: Unit, rest: string, t: Scanner)
    requires s.Live? && s.lex.InString? && s.lex.isKey == isKey && Accepts(s, input) && input != "" && input[0] != '"'
    ensures UnitSplit(s, isKey, input, u, rest, t)
  {
    hide FeedByte;
    StringByte(s, isKey, input);
    Ahead(s, input);
    t, rest := FeedByte(s, input[0]), input[1..];
    if input[0] != '\\' {
      u := Plain(input[0]);
    } else {
      EscapeByte(t, isKey, rest);
      Ahead(t, rest);
      var c := rest[0];
      t, rest := FeedByte(t, c), rest[1..];
      if c != 'u' {
        u := Escaped(c);
        assert input == ['\\'] + ([c] + rest) == UnitText(u) + rest;
      } else {
        u, rest, t := SplitCode(t, isKey, rest);
        assert input == ['\\'] + (['u'] + input[2..]);
        assert input == UnitText(u) + rest;
      }
    }
  }

  predicate CodeSplit(s: Scanner, isKey: bool, input: string, u: Unit, rest: string, t: Scanner) {
    && s.Live? && u.Code? && UnitOk(u) && input == [u.h0, u.h1, u.h2, u.h3] + rest
    && t.Live? && t.lex.InString? && t.lex.isKey == isKey
    && t.stack == s.stack && t.mode == s.mode && t.rootObject == s.rootObject
    && Feed(t, rest) == Feed(s, input) && |rest| < |input|
  }

  lemma SplitCode(s: Scanner, isKey: bool, input: string) returns (u: Unit, rest: string, t: Scanner)
    requires s.Live? && s.lex.InUnicode? && s.lex.isKey == isKey && s.lex.hex == "" && Accepts(s, input)
    ensures CodeSplit(s, isKey, input, u, rest, t)
  {
    hide FeedByte;
    HexStep(s, isKey, "", input);
    Ahead(s, input);
    var s0, r0 := FeedByte(s, input[0]), input[1..];
    assert "" + [input[0]] == [input[0]];
    HexStep(s0, isKey, [input[0]], r0);
    Ahead(s0, r0);
    var s1, r1 := FeedByte(s0, r0[0]), r0[1..];
    HexStep(s1, isKey, [input[0]] + [r0[0]], r1);
    Ahead(s1, r1);
    var s2, r2 := FeedByte(s1, r1[0]), r1[1..];
    HexStep(s2, isKey, [input[0]] + [r0[0]] + [r1[0]], r2);
    Ahead(s2, r2);
    u := Code(input[0], r0[0], r1[0], r2[0]);
    t, rest := FeedByte(s2, r2[0]), r2[1..];
  }

  predicate UnitsRead(s: Scanner, isKey: bool, input: string, us: seq<Unit>, rest: string, t: Scanner) {
    && s.Live? && UnitsOk(us) && input == UnitsText(us) + (['"'] + rest)
    && t.Live? && t.lex.InString? && t.lex.isKey == isKey
    && t.stack == s.stack && t.mode == s.mode && t.rootObject == s.rootObject
    && Feed(t, ['"'] + rest) == Feed(s, input) && |rest| < |input|
  }

  /** A string body up to its closing quote. */
  lemma {:induction false} ParseUnits(s: Scanner, isKey: bool, input: string)
    returns (us: seq<Unit>, rest: string, t: Scanner)
    requires s.Live? && s.lex.InString? && s.lex.isKey == isKey && Accepts(s, input)
    ensures UnitsRead(s, isKey, input, us, rest, t)
    decreases |input|
  {
    hide FeedByte;
    StringByte(s, isKey, input);
    Ahead(s, input);
    if input[0] == '"' {
      us, rest, t := [], input[1..], s;
    } else {
      var u, r, m := SplitUnit(s, isKey, input);
      var more;
      more, rest, t := ParseUnits(m, isKey, r);
      us := [u] + more;
      assert us[1..] == more;
      assert UnitsText(us) + (['"'] + rest) == UnitText(u) + (UnitsText(more) + (['"'] + rest));
    }
  }

  predicate Numeric(lex: Lex) { lex.NumZero? || lex.NumInt? || lex.NumFrac? || lex.NumExp? }

  predicate DigitsRead(s: Scanner, to: Lex, input: string, ds: string, rest: string, t: Scanner) {
    && s.Live? && ds != "" && AllDigits(ds) && input == ds + rest && ds[0] == input[0] && rest != ""
    && !IsDigit(rest[0])
    && t.Live? && t == s.(lex := to, notes := t.notes) && Accepts(t, rest) && Feed(t, rest) == Feed(s, input)
  }

  lemma FirstDigit(s: Scanner, to: Lex, input: string) returns (ds: string, rest: string, t: Scanner)
    requires Accepts(s, input) && s.Live? && input != "" && IsDigit(input[0]) && Digesting(to)
    requires FeedByte(s, input[0]).Live? && FeedByte(s, input[0]) == s.(lex := to, notes := FeedByte(s, input[0]).notes)
    ensures DigitsRead(s, to, input, ds, rest, t)
  {
    hide FeedByte;
    Ahead(s, input);
    var more;
    more, rest, t := SplitDigits(FeedByte(s, input[0]), input[1..]);
    ds := [input[0]] + more;
  }

  predicate IntegerRead(s: Scanner, input: string, ds: string, rest: string, t: Scanner) {
    && s.Live? && IntegerOk(ds) && input == ds + rest && rest != ""
    && t.Live? && (t.lex.NumZero? || t.lex.NumInt?) && t == s.(lex := t.lex, notes := t.notes)
    && Accepts(t, rest) && Feed(t, rest) == Feed(s, input)
    && !IsDigit(rest[0])
  }

  lemma ParseInteger(s: Scanner, input: string) returns (ds: string, rest: string, t: Scanner)
    requires s.Live? && (s.lex.Value? || s.lex.NumSign?) && Accepts(s, input) && input != "" && IsDigit(input[0])
    ensures IntegerRead(s, input, ds, rest, t)
  {
    hide Absorb;
    Ahead(s, input);
    var p := FeedByte(s, input[0]);
    if input[0] == '0' {
      ds, rest, t := "0", input[1..], p;
      Ahead(t, rest);
    } else {
      ds, rest, t := FirstDigit(s, NumInt, input);
    }
  }

  lemma DotByte(s: Scanner)
    requires s.Live? && (s.lex.NumZero? || s.lex.NumInt?)
    ensures var p := FeedByte(s, '.'); p.Live? && p == s.(lex := NumFracFirst, notes := p.notes)
  {
    hide Absorb;
  }

  predicate FractionRead(s: Scanner, input: string, f: Fraction, rest: string, t: Scanner) {
    && s.Live? && FractionOk(f) && input == FractionText(f) + rest && rest != "" && !IsDigit(rest[0])
    && |rest| <= |input|
    && t.Live? && (t.lex.NumZero? || t.lex.NumInt? || t.lex.NumFrac?) && t == s.(lex := t.lex, notes := t.notes)
    && (rest[0] == '.' ==> t.lex.NumFrac?)
    && Accepts(t, rest) && Feed(t, rest) == Feed(s, input)
  }

  lemma FractionByte(s: Scanner, input: string)
    requires s.Live? && s.lex.NumFracFirst? && Accepts(s, input)
    ensures input != "" && IsDigit(input[0])
    ensures var t := FeedByte(s, input[0]); t.Live? && t == s.(lex := NumFrac, notes := t.notes)
  {
    hide Absorb;
    Ahead(s, input);
  }

  lemma ParseFraction(s: Scanner, input: string) returns (f: Fraction, rest: string, t: Scanner)
    requires s.Live? && (s.lex.NumZero? || s.lex.NumInt?) && Accepts(s, input) && input != "" && !IsDigit(input[0])
    ensures FractionRead(s, input, f, rest, t)
  {
    hide FeedByte, Feed, IsDigit;
    if input[0] != '.' {
      f, rest, t := NoFraction, input, s;
    } else {
      Ahead(s, input);
      var p := FeedByte(s, '.');
      DotByte(s);
      FractionByte(p, input[1..]);
      var ds;
      ds, rest, t := FirstDigit(p, NumFrac, input[1..]);
      f := Fraction(ds);
    }
  }

  lemma ExponentByte(s: Scanner, input: string)
    requires s.Live? && (s.lex.NumZero? || s.lex.NumInt? || s.lex.NumFrac?)
    requires input != "" && (input[0] == 'e' || input[0] == 'E')
    ensures var t := FeedByte(s, input[0]); t.Live? && t == s.(lex := NumExpSign, notes := t.notes)
  {
    hide Absorb;
  }

  lemma SignByte(s: Scanner, input: string)
    requires s.Live? && s.lex.NumExpSign? && Accepts(s, input)
    ensures input != "" && (input[0] == '+' || input[0] == '-' || IsDigit(input[0]))
    ensures var t := FeedByte(s, input[0]);
            t.Live? && t == s.(lex := if IsDigit(input[0]) then NumExp else NumExpFirst, notes := t.notes)
  {
    hide Absorb;
    Ahead(s, input);
  }

  lemma FirstExponentDigit(s: Scanner, input: string)
    requires s.Live? && s.lex.NumExpFirst? && Accepts(s, input)
    ensures input != "" && IsDigit(input[0])
    ensures var t := FeedByte(s, input[0]); t.Live? && t == s.(lex := NumExp, notes := t.notes)
  {
    hide Absorb;
    Ahead(s, input);
  }

  predicate SignedRead(s: Scanner, input: string, sign: string, ds: string, rest: string, t: Scanner) {
    && s.Live? && (sign == "" || sign == "+" || sign == "-") && ds != "" && AllDigits(ds)
    && input == sign + (ds + rest) && rest != "" && !IsDigit(rest[0])
    && t.Live? && t == s.(lex := NumExp, notes := t.notes)
    && Accepts(t, rest) && Feed(t, rest) == Feed(s, input)
  }

  lemma ParseSigned(s: Scanner, input: string) returns (sign: string, ds: string, rest: string, t: Scanner)
    requires s.Live? && s.lex.NumExpSign? && Accepts(s, input)
    ensures SignedRead(s, input, sign, ds, rest, t)
  {
    hide FeedByte, Absorb;
    SignByte(s, input);
    if IsDigit(input[0]) {
      sign := "";
      ds, rest, t := FirstDigit(s, NumExp, input);
    } else {
      sign := [input[0]];
      Ahead(s, input);
      var p, r := FeedByte(s, input[0]), input[1..];
      FirstExponentDigit(p, r);
      ds, rest, t := FirstDigit(p, NumExp, r);
    }
  }

  predicate ExponentRead(s: Scanner, input: string, e: Exponent, rest: string, t: Scanner) {
    && s.Live? && ExponentOk(e) && input == ExponentText(e) + rest && rest != "" && |rest| <= |input|
    && t.Live? && Numeric(t.lex) && t == s.(lex := t.lex, notes := t.notes)
    && Accepts(t, rest) && Feed(t, rest) == Feed(s, input)
    && Ending(t, rest[0])
  }

  lemma ParseExponent(s: Scanner, input: string) returns (e: Exponent, rest: string, t: Scanner)
    requires s.Live? && (s.lex.NumZero? || s.lex.NumInt? || s.lex.NumFrac?)
    requires Accepts(s, input) && input != "" && !IsDigit(input[0]) && (input[0] == '.' ==> s.lex.NumFrac?)
    ensures ExponentRead(s, input, e, rest, t)
  {
    hide FeedByte, Feed, AllDigits;
    if input[0] != 'e' && input[0] != 'E' {
      e, rest, t := NoExponent, input, s;
    } else {
      ExponentByte(s, input);
      Ahead(s, input);
      var sign, ds;
      sign, ds, rest, t := ParseSigned(FeedByte(s, input[0]), input[1..]);
      e := Exponent(input[0], sign, ds);
      assert input == [input[0]] + (sign + (ds + rest));
    }
  }

  // The byte ends the number that `s` is in.
  predicate Ending(s: Scanner, b: char) {
    && s.Live? && !IsDigit(b)
    && match s.lex
       case NumZero => b != '.' && b != 'e' && b != 'E'
       case NumInt => b != '.' && b != 'e' && b != 'E'
       case NumFrac => b != 'e' && b != 'E'
       case NumExp => true
       case _ => false
  }

  lemma EndedNumber(s: Scanner, rest: string)
    requires s.Live? && Numeric(s.lex) && rest != "" && Ending(s, rest[0]) && Accepts(s, rest)
    ensures Delimiter(rest[0])
  {
    hide Absorb, Finish;
    Ahead(s, rest);
    var u := s.(notes := Absorb(s.notes, rest[0]));
    assert Step(u, rest[0]) == StepPlain(EndValue(u), rest[0]);
  }

  predicate NumberRead(s: Scanner, input: string, n: Number, rest: string, t: Scanner) {
    && s.Live? && NumberOk(n) && input == NumberText(n) + rest && rest != "" && Delimiter(rest[0]) && |rest| < |input|
    && t.Live? && t.lex == After(s.stack) && t == s.(lex := t.lex, notes := t.notes)
    && Feed(t, rest) == Feed(s, input)
  }

  lemma ParseNumber(s: Scanner, input: string) returns (n: Number, rest: string, t: Scanner)
    requires s.Live? && s.lex.Value? && Accepts(s, input) && input != "" && (input[0] == '-' || IsDigit(input[0]))
    ensures NumberRead(s, input, n, rest, t)
  {
    hide FeedByte, FractionText, ExponentText, Absorb, Finish, Feed;
    var p, r := s, input;
    var minus := input[0] == '-';
    if minus {
      MinusByte(s, input);
      Ahead(s, input);
      p, r := FeedByte(s, '-'), input[1..];
      SignedDigit(p, r);
    }
    var ds, r0, s0 := ParseInteger(p, r);
    var f, r1, s1 := ParseFraction(s0, r0);
    var e, r2, s2 := ParseExponent(s1, r1);
    EndedNumber(s2, r2);
    DelimitNumber(s2, r2);
    n := Number(minus, ds, f, e);
    rest := r2;
    t := s2.(lex := After(s2.stack), notes := EndNumber(s2.notes, |s2.stack|, r2[0]));
    var sign := if minus then "-" else "";
    Regroup("", sign, ds, FractionText(f), ExponentText(e), rest);
    assert NumberText(n) == "" + sign + ds + FractionText(f) + ExponentText(e);
  }

  lemma MinusByte(s: Scanner, input: string)
    requires s.Live? && s.lex.Value? && input != "" && input[0] == '-'
    ensures var t := FeedByte(s, '-'); t.Live? && t == s.(lex := NumSign, notes := t.notes)
  {
    hide Absorb, Start;
  }

  lemma SignedDigit(s: Scanner, input: string)
    requires s.Live? && s.lex.NumSign? && Accepts(s, input)
    ensures input != "" && IsDigit(input[0])
  {
    hide Absorb;
    Ahead(s, input);
  }

  lemma {:induction false} ParseWord(s: Scanner, w: string, input: string) returns (rest: string)
    requires s.Live? && s.lex == InWord(w) && w != "" && Accepts(s, input)
    ensures input == w + rest
    decreases |w|
  {
    hide Absorb, Finish;
    Ahead(s, input);
    var p := FeedByte(s, input[0]);
    assert input[0] == w[0];
    if |w| == 1 {
      rest := input[1..];
    } else {
      assert p.lex == InWord(w[1..]);
      rest := ParseWord(p, w[1..], input[1..]);
    }
  }

  // The first byte of a value decides its form.
  lemma ValueByte(s: Scanner, input: string)
    requires s.Live? && s.lex.Value? && Accepts(s, input) && input != "" && !IsSpace(input[0])
    ensures var b := input[0];
            var t := FeedByte(s, b);
            && t.Live?
            && (b == '{' || b == '[' || b == '"' || b == '-' || IsDigit(b) || b == 't' || b == 'f' || b == 'n')
            && ((b == '{' || b == '[') ==> |s.stack| < MAX_DEPTH)
            && (b == '"' ==> t == s.(lex := InString(false, Key("", false)), notes := t.notes))
            && (b == 't' ==> t == s.(lex := InWord("rue"), notes := t.notes))
            && (b == 'f' ==> t == s.(lex := InWord("alse"), notes := t.notes))
            && (b == 'n' ==> t == s.(lex := InWord("ull"), notes := t.notes))
  {
    hide Absorb, Start;
    Ahead(s, input);
  }

  predicate StringRead(s: Scanner, input: string, us: seq<Unit>, rest: string, t: Scanner) {
    && s.Live? && UnitsOk(us) && input == UnitsText(us) + (['"'] + rest) && |rest| < |input|
    && t.Live? && t.lex == After(s.stack) && t == s.(lex := t.lex, notes := t.notes)
    && Feed(t, rest) == Feed(s, input)
  }

  lemma ParseString(s: Scanner, input: string) returns (us: seq<Unit>, rest: string, t: Scanner)
    requires s.Live? && s.lex.InString? && !s.lex.isKey && Accepts(s, input)
    ensures StringRead(s, input, us, rest, t)
  {
    hide Absorb, Finish;
    var m;
    us, rest, m := ParseUnits(s, false, input);
    t := FeedByte(m, '"');
    FeedOne(m, '"', rest);
    assert t == EndValue(m.(notes := Absorb(m.notes, '"')));
  }

  predicate LiteralRead(s: Scanner, w: string, input: string, rest: string, t: Scanner) {
    && s.Live? && input == w + rest && |rest| < |input|
    && t.Live? && t.lex == After(s.stack) && t == s.(lex := t.lex, notes := t.notes)
    && Feed(t, rest) == Feed(s, input)
  }

  lemma ParseLiteral(s: Scanner, w: string, input: string) returns (rest: string, t: Scanner)
    requires s.Live? && s.lex == InWord(w) && w != "" && Accepts(s, input)
    ensures LiteralRead(s, w, input, rest, t)
  {
    hide Absorb, Finish;
    rest := ParseWord(s, w, input);
    FeedWord(s, w, rest);
    t := s.(lex := After(s.stack), notes := Finish(AbsorbAll(s.notes, w), |s.stack|));
  }

  predicate Scalar(v: Json) { v.Str? || v.Num? || v.Lit? }

  predicate ScalarRead(s: Scanner, input: string, v: Json, rest: string, t: Scanner) {
    && s.Live? && Ok(v) && Scalar(v) && input == Text(v) + rest && |rest| < |input|
    && t.Live? && t.lex == After(s.stack) && t == s.(lex := t.lex, notes := t.notes)
    && Feed(t, rest) == Feed(s, input)
  }

  lemma ParseScalar(s: Scanner, input: string) returns (v: Json, rest: string, t: Scanner)
    requires s.Live? && s.lex.Value? && Accepts(s, input)
    requires input != "" && !IsSpace(input[0]) && input[0] != '{' && input[0] != '['
    ensures ScalarRead(s, input, v, rest, t)
  {
    hide FeedByte;
    ValueByte(s, input);
    Ahead(s, input);
    var p, r := FeedByte(s, input[0]), input[1..];
    if input[0] == '"' {
      var us;
      us, rest, t := ParseString(p, r);
      v := Str(us);
      assert Text(v) + rest == ['"'] + (UnitsText(us) + (['"'] + rest));
    } else if input[0] == 't' || input[0] == 'f' || input[0] == 'n' {
      rest, t := ParseLiteral(p, p.lex.rest, r);
      v := Lit([input[0]] + p.lex.rest);
      assert input == [input[0]] + (p.lex.rest + rest);
    } else {
      var n;
      n, rest, t := ParseNumber(s, input);
      v := Num(n);
    }
  }

  predicate ValueRead(s: Scanner, input: string, w: string, v: Json, rest: string, t: Scanner) {
    && s.Live? && input == w + (Text(v) + rest) && |rest| < |input|
    && t.Live? && t.lex == After(s.stack) && t.stack == s.stack && t.mode == s.mode
    && t.rootObject == (if s.stack == [] && !Scalar(v) then v.Obj? else s.rootObject)
    && Feed(t, rest) == Feed(s, input)
  }

  /** Values, with the whitespace before them. */
  lemma {:induction false} ParseValue(s: Scanner, input: string)
    returns (w: string, v: Json, rest: string, t: Scanner)
    requires s.Live? && s.lex.Value? && Accepts(s, input) && |s.stack| <= MAX_DEPTH
    ensures AllSpace(w) && Ok(v) && Tight(v) && |s.stack| + Depth(v) <= MAX_DEPTH
    ensures ValueRead(s, input, w, v, rest, t)
    decreases |input|, 1
  {
    hide FeedByte, Absorb, Start;
    var r, p;
    w, r, p := SplitSpace(s, input);
    Ahead(p, r);
    if r[0] == '{' || r[0] == '[' {
      ValueByte(p, r);
      OpenByte(p, r[0]);
      var q := FeedByte(p, r[0]);
      assert q.stack[..|q.stack| - 1] == p.stack;
      if r[0] == '{' {
        v, rest, t := ParseObject(q, p.stack, r[1..]);
      } else {
        v, rest, t := ParseArray(q, p.stack, r[1..]);
      }
      assert r == [r[0]] + r[1..] == Text(v) + rest;
    } else {
      v, rest, t := ParseScalar(p, r);
    }
  }

  // What an accepting run can meet where a key or the end of an object is due.
  lemma KeyByte(s: Scanner, input: string)
    requires s.Live? && (s.lex.KeyOrEnd? || s.lex.KeyStart?) && Accepts(s, input)
    requires input != "" ==> !IsSpace(input[0])
    ensures input != "" && (input[0] == '"' || (input[0] == '}' && s.lex.KeyOrEnd?))
    ensures input[0] == '"' ==>
              var t := FeedByte(s, '"');
              t.Live? && t == s.(lex := InString(true, Key("", false)), notes := t.notes)
  {
    hide Absorb;
    Ahead(s, input);
  }

  lemma ParseClose(s: Scanner, stack: seq<Frame>, close: char, input: string) returns (t: Scanner)
    requires s.Live? && s.stack != [] && s.stack[..|s.stack| - 1] == stack
    requires if close == '}' then s.lex.KeyOrEnd? || s.lex.MemberDone?
             else close == ']' && (s.lex.ValueOrEnd? || s.lex.ElemDone?)
    requires input != "" && input[0] == close
    ensures t.Live? && t.lex == After(stack) && t.stack == stack && t.mode == s.mode && t.rootObject == s.rootObject
    ensures Feed(t, input[1..]) == Feed(s, input)
  {
    hide Feed, Absorb, Finish, FeedByte;
    FeedClose(s, stack, close, input[1..]);
    assert [close] + input[1..] == input;
    t := s.(lex := After(stack), stack := stack, notes := Finish(Absorb(s.notes, close), |stack|));
  }

  lemma ObjectText(gap: string, ms: Members, rest: string)
    ensures Text(Obj(gap, ms)) + rest == ['{'] + (gap + (MembersText(ms) + (['}'] + rest)))
  {
    var body := MembersText(ms);
    assert Text(Obj(gap, ms)) == "{" + gap + body + "}";
    hide *;
    assert "{" + gap + body + "}" + rest == ['{'] + (gap + (body + (['}'] + rest)));
  }

  lemma ArrayText(es: Elems, rest: string)
    ensures Text(Arr("", es)) + rest == ['['] + (ElemsText(es) + ([']'] + rest))
  {
    var body := ElemsText(es);
    assert Text(Arr("", es)) == "[" + "" + body + "]";
    hide *;
    assert "[" + "" + body + "]" + rest == ['['] + (body + ([']'] + rest));
  }

  lemma NoElemsText()
    ensures ElemsText(NoElems) == ""
  {
  }

  predicate ObjectRead(s: Scanner, stack: seq<Frame>, input: string, v: Json, rest: string, t: Scanner) {
    && s.Live? && ['{'] + input == Text(v) + rest && |rest| < |input|
    && t.Live? && t.lex == After(stack) && t.stack == stack && t.mode == s.mode && t.rootObject == s.rootObject
    && Feed(t, rest) == Feed(s, input)
  }

  lemma {:induction false} ParseObject(s: Scanner, stack: seq<Frame>, input: string)
    returns (v: Json, rest: string, t: Scanner)
    requires s.Live? && s.lex.KeyOrEnd? && Accepts(s, input)
    requires s.stack != [] && s.stack[..|s.stack| - 1] == stack && s.stack[|s.stack| - 1].isObject
    requires |s.stack| <= MAX_DEPTH
    ensures v.Obj? && Ok(v) && Tight(v) && |stack| + Depth(v) <= MAX_DEPTH
    ensures ObjectRead(s, stack, input, v, rest, t)
    decreases |input|, 1
  {
    hide FeedByte, Feed, Absorb, Text, MembersText;
    var gap, r, p := SplitSpace(s, input);
    KeyByte(p, r);
    if r[0] == '}' {
      t := ParseClose(p, stack, '}', r);
      rest := r[1..];
      v := Obj(gap, NoMembers);
      assert r == ['}'] + rest;
      assert gap + (MembersText(NoMembers) + (['}'] + rest)) == input by { EmptyMembers(); }
      ObjectText(gap, NoMembers, rest);
    } else {
      var ms;
      ms, rest, t := ParseMembers(p, stack, gap, r);
      v := Obj("", ms);
      ObjectText("", ms, rest);
    }
  }

  lemma ColonByte(s: Scanner, input: string)
    requires s.Live? && s.lex.Colon? && Accepts(s, input) && (input != "" ==> !IsSpace(input[0]))
    ensures input != "" && input[0] == ':'
    ensures var t := FeedByte(s, ':'); t.Live? && t == s.(lex := Value, notes := t.notes)
  {
    hide Absorb;
    Ahead(s, input);
  }

  lemma AfterByte(s: Scanner, input: string)
    requires s.Live? && (s.lex.MemberDone? || s.lex.ElemDone?) && Accepts(s, input)
    requires input != "" ==> !IsSpace(input[0])
    ensures input != "" && (input[0] == ',' || input[0] == (if s.lex.MemberDone? then '}' else ']'))
  {
    hide Absorb, Finish;
    Ahead(s, input);
  }

  predicate KeyRead(s: Scanner, stack: seq<Frame>, input: string, key: seq<Unit>, before: string, rest: string,
                    t: Scanner) {
    && s.Live? && s.stack != [] && UnitsOk(key) && AllSpace(before)
    && input == ['"'] + (UnitsText(key) + (['"'] + (before + ([':'] + rest)))) && |rest| < |input|
    && t.Live? && t.lex.Value? && t.mode == s.mode && t.rootObject == s.rootObject
    && |t.stack| == |s.stack| && t.stack[..|t.stack| - 1] == stack && t.stack[|t.stack| - 1].isObject
    && Feed(t, rest) == Feed(s, input)
  }

  lemma ParseKey(s: Scanner, stack: seq<Frame>, input: string)
    returns (key: seq<Unit>, before: string, rest: string, t: Scanner)
    requires s.Live? && (s.lex.KeyOrEnd? || s.lex.KeyStart?) && Accepts(s, input)
    requires s.stack != [] && s.stack[..|s.stack| - 1] == stack && s.stack[|s.stack| - 1].isObject
    requires input != "" && input[0] == '"'
    ensures KeyRead(s, stack, input, key, before, rest, t)
  {
    hide Absorb, KeyNotes, Grow, Feed;
    KeyByte(s, input);
    Ahead(s, input);
    var r, m;
    key, r, m := ParseUnits(FeedByte(s, '"'), true, input[1..]);
    FeedOne(s, '"', input[1..]);
    FeedOne(m, '"', r);
    var c := FeedByte(m, '"');
    assert c == EndKey(m.(notes := Absorb(m.notes, '"')), if m.lex.key.over then "" else m.lex.key.buf);
    assert c.Live? && c.lex.Colon? && |c.stack| == |s.stack| && c.stack[..|c.stack| - 1] == stack;
    var r1, c1;
    before, r1, c1 := SplitSpace(c, r);
    ColonByte(c1, r1);
    Ahead(c1, r1);
    FeedOne(c1, ':', r1[1..]);
    t, rest := FeedByte(c1, ':'), r1[1..];
  }

  predicate MembersRead(s: Scanner, stack: seq<Frame>, pre: string, input: string, ms: Members, rest: string,
                        t: Scanner) {
    && s.Live? && pre + input == MembersText(ms) + (['}'] + rest) && |rest| < |input|
    && t.Live? && t.lex == After(stack) && t.stack == stack && t.mode == s.mode && t.rootObject == s.rootObject
    && Feed(t, rest) == Feed(s, input)
  }

  lemma {:induction false} ParseMembers(s: Scanner, stack: seq<Frame>, pre: string, input: string)
    returns (ms: Members, rest: string, t: Scanner)
    requires s.Live? && (s.lex.KeyOrEnd? || s.lex.KeyStart?) && Accepts(s, input) && AllSpace(pre)
    requires s.stack != [] && s.stack[..|s.stack| - 1] == stack && s.stack[|s.stack| - 1].isObject
    requires |s.stack| <= MAX_DEPTH && input != "" && input[0] == '"'
    ensures ms.Member? && MembersOk(ms) && TightMembers(ms) && |s.stack| + MembersDepth(ms) <= MAX_DEPTH
    ensures MembersRead(s, stack, pre, input, ms, rest, t)
    decreases |input|, 0
  {
    hide FeedByte, Feed, Absorb, MembersText, Text, UnitsText, Closing;
    var key, before, r0, s0 := ParseKey(s, stack, input);
    var after, v, r1, s1 := ParseValue(s0, r0);
    var post, r2, s2 := SplitSpace(s1, r1);
    AfterByte(s2, r2);
    var more := NoMembers;
    if r2[0] == '}' {
      t := ParseClose(s2, stack, '}', r2);
      rest := r2[1..];
      assert r2 == ['}'] + rest;
    } else {
      CommaByte(s2);
      FeedOne(s2, ',', r2[1..]);
      assert r2 == [','] + r2[1..];
      Ahead(s2, r2);
      var next, r3, s3 := SplitSpace(FeedByte(s2, ','), r2[1..]);
      KeyByte(s3, r3);
      more, rest, t := ParseMembers(s3, stack, next, r3);
      assert r2 == [','] + (MembersText(more) + (['}'] + rest));
    }
    ms := Member(pre, key, before, after, v, post, more);
    ClosingHead(more, rest);
    SplitMember(ms, rest);
    JoinMember(ms, pre, input, r0, r1, r2);
  }

  // The pieces of one member, put back together.
  lemma JoinMember(ms: Members, pre: string, input: string, r0: string, r1: string, r2: string)
    requires ms.Member? && ms.pre == pre
    requires input == ['"'] + (UnitsText(ms.key) + (['"'] + (ms.beforeColon + ([':'] + r0))))
    requires r0 == ms.afterColon + (Text(ms.value) + r1) && r1 == ms.post + r2
    ensures pre + input == KeyText(ms) + (ColonText(ms) + (Text(ms.value) + (ms.post + r2)))
  {
    var body, value := UnitsText(ms.key), Text(ms.value);
    hide UnitsText, Text;
    var tail := value + (ms.post + r2);
    assert ms.beforeColon + ([':'] + (ms.afterColon + tail)) == ColonText(ms) + tail;
    assert pre + (['"'] + (body + (['"'] + (ColonText(ms) + tail)))) == KeyText(ms) + (ColonText(ms) + tail);
  }

  predicate ArrayRead(s: Scanner, stack: seq<Frame>, input: string, v: Json, rest: string, t: Scanner) {
    && s.Live? && ['['] + input == Text(v) + rest && |rest| < |input|
    && t.Live? && t.lex == After(stack) && t.stack == stack && t.mode == s.mode && t.rootObject == s.rootObject
    && Feed(t, rest) == Feed(s, input)
  }

  lemma {:induction false} ParseArray(s: Scanner, stack: seq<Frame>, input: string)
    returns (v: Json, rest: string, t: Scanner)
    requires s.Live? && s.lex.ValueOrEnd? && Accepts(s, input) && s.stack == stack + [Frame(false, "")]
    requires |s.stack| <= MAX_DEPTH
    ensures v.Arr? && Ok(v) && Tight(v) && |stack| + Depth(v) <= MAX_DEPTH
    ensures ArrayRead(s, stack, input, v, rest, t)
    decreases |input|, 3
  {
    hide FeedByte, Absorb, Text, ElemsText;
    Ahead(s, input);
    if input[0] == ']' {
      t := ParseClose(s, stack, ']', input);
      rest := input[1..];
      v := Arr("", NoElems);
      NoElemsText();
      ArrayText(NoElems, rest);
    } else {
      var p := s.(lex := Value);
      ReadFirst(s, input);
      var es;
      es, rest, t := ParseElems(p, stack, input);
      v := Arr("", es);
      ArrayText(es, rest);
    }
  }

  lemma ReadFirst(s: Scanner, input: string)
    requires s.Live? && s.lex.ValueOrEnd? && input != "" && input[0] != ']'
    ensures Feed(s, input) == Feed(s.(lex := Value), input)
  {
    hide Absorb, StepPlain;
    assert FeedByte(s, input[0]) == FeedByte(s.(lex := Value), input[0]);
  }

  predicate ElemsRead(s: Scanner, stack: seq<Frame>, input: string, es: Elems, rest: string, t: Scanner) {
    && s.Live? && input == ElemsText(es) + ([']'] + rest) && |rest| < |input|
    && t.Live? && t.lex == After(stack) && t.stack == stack && t.mode == s.mode && t.rootObject == s.rootObject
    && Feed(t, rest) == Feed(s, input)
  }

  lemma {:induction false} ParseElems(s: Scanner, stack: seq<Frame>, input: string)
    returns (es: Elems, rest: string, t: Scanner)
    requires s.Live? && s.lex.Value? && Accepts(s, input) && s.stack == stack + [Frame(false, "")]
    requires |s.stack| <= MAX_DEPTH
    ensures es.Elem? && ElemsOk(es) && TightElems(es) && |s.stack| + ElemsDepth(es) <= MAX_DEPTH
    ensures ElemsRead(s, stack, input, es, rest, t)
    decreases |input|, 2
  {
    hide FeedByte, Feed, Absorb, ElemsText, Text, ElemClosing;
    var pre, v, r1, s1 := ParseValue(s, input);
    var post, r2, s2 := SplitSpace(s1, r1);
    AfterByte(s2, r2);
    var more := NoElems;
    assert s2.stack[..|s2.stack| - 1] == stack;
    if r2[0] == ']' {
      t := ParseClose(s2, stack, ']', r2);
      rest := r2[1..];
      assert r2 == [']'] + rest;
    } else {
      CommaByte(s2);
      FeedOne(s2, ',', r2[1..]);
      assert r2 == [','] + r2[1..];
      Ahead(s2, r2);
      more, rest, t := ParseElems(FeedByte(s2, ','), stack, r2[1..]);
    }
    es := Elem(pre, v, post, more);
    ElemClosingHead(more, rest);
    SplitElem(es, rest);
  }

  /** An accepted input is the text of a well-formed document. */
  lemma ParseDocument(mode: Mode, input: string) returns (d: Document)
    requires Accepts(Fresh(mode), input)
    ensures DocumentOk(d) && Tight(d.value) && Depth(d.value) <= MAX_DEPTH && input == DocumentText(d)
    ensures d.value.Obj? == Feed(Fresh(mode), input).rootObject
  {
    var lead, v, rest, t := ParseValue(Fresh(mode), input);
    var trail, r, u := SplitSpace(t, rest);
    TrailingByte(u, r);
    assert rest == trail;
    d := Document(lead, v, trail);
    assert Feed(u, "") == u;
  }

  lemma TrailingByte(s: Scanner, input: string)
    requires s.Live? && s.lex.Trailing? && Accepts(s, input) && (input != "" ==> !IsSpace(input[0]))
    ensures input == ""
  {
    hide Absorb;
    if input != "" { Ahead(s, input); }
  }
}
