/** Running the scanner over the text of a well-formed tree: the grammar state
    returns to where it was, and the notes change by a function of the tree. */
module JsonScannerRuns {
  import opened JsonGrammar
  import opened JsonScanner

  /** The key the scanner compares: keys decoding to more than MAX_KEY bytes
      are never selected. */
  function KeyOf(us: seq<Unit>): string
    requires UnitsOk(us)
  {
    if |Decoded(us)| <= MAX_KEY then Decoded(us) else ""
  }

  predicate Delimiter(c: char) { IsSpace(c) || c == ',' || c == ']' || c == '}' }

  // The byte after a value inside a container closed by `close`.
  function Next(post: string, last: bool, close: char): char {
    if post != "" then post[0] else if last then close else ','
  }

  /** Notes after a value read below `stack`; `next` is the byte after it. A
      captured number keeps that byte. */
  function ValueNotes(n: Notes, mode: Mode, stack: seq<Frame>, v: Json, next: char): Notes
    requires Ok(v)
    decreases v
  {
    match v
    case Obj(gap, ms) =>
      var inside := MembersNotes(AbsorbAll(Start(Absorb(n, '{'), '{'), gap), mode, stack, ms);
      Finish(Absorb(inside, '}'), |stack|)
    case Arr(gap, es) =>
      var inside := ElemsNotes(AbsorbAll(Start(Absorb(n, '['), '['), gap), mode, stack, es);
      Finish(Absorb(inside, ']'), |stack|)
    case Num(_) => EndNumber(ScalarNotes(n, Text(v)), |stack|, next)
    case _ => Finish(ScalarNotes(n, Text(v)), |stack|)
  }

  function ScalarNotes(n: Notes, text: string): Notes {
    if text == "" then n else AbsorbAll(Start(Absorb(n, text[0]), text[0]), text[1..])
  }

  function EndNumber(n: Notes, depth: nat, next: char): Notes {
    if n.capture.Capturing? && n.capture.depth == depth then Finish(Absorb(n, next), depth) else n
  }

  /** Notes after one member, up to the separator behind it. */
  function MemberNotes(n: Notes, mode: Mode, stack: seq<Frame>, ms: Members): Notes
    requires ms.Member? && MembersOk(ms)
    decreases ms, 0
  {
    var inner := stack + [Frame(true, KeyOf(ms.key))];
    var named := KeyNotes(AbsorbAll(n, KeyText(ms)), mode, inner);
    var valued := ValueNotes(AbsorbAll(named, ColonText(ms)), mode, inner, ms.value,
                             Next(ms.post, ms.more.NoMembers?, '}'));
    AbsorbAll(valued, ms.post)
  }

  function MembersNotes(n: Notes, mode: Mode, stack: seq<Frame>, ms: Members): Notes
    requires MembersOk(ms)
    decreases ms, 1
  {
    if ms.NoMembers? then n
    else
      var ended := MemberNotes(n, mode, stack, ms);
      if ms.more.NoMembers? then ended else MembersNotes(Absorb(ended, ','), mode, stack, ms.more)
  }

  function ElemsNotes(n: Notes, mode: Mode, stack: seq<Frame>, es: Elems): Notes
    requires ElemsOk(es)
    decreases es
  {
    match es
    case NoElems => n
    case Elem(pre, v, post, more) =>
      var inner := stack + [Frame(false, "")];
      var valued := ValueNotes(AbsorbAll(n, pre), mode, inner, v, Next(post, more.NoElems?, ']'));
      var ended := AbsorbAll(valued, post);
      if more.NoElems? then ended else ElemsNotes(Absorb(ended, ','), mode, stack, more)
  }

  function GrowAll(k: Key, us: seq<Unit>): Key
    requires UnitsOk(us)
    decreases |us|
  {
    if us == [] then k else GrowAll(Grow(k, UnitDecoded(us[0])), us[1..])
  }

  lemma {:induction false} GrowAllIsDecoded(k: Key, us: seq<Unit>)
    requires UnitsOk(us)
    requires |k.buf| <= MAX_KEY
    ensures GrowAll(k, us) ==
            if k.over then k
            else if |k.buf| + |Decoded(us)| > MAX_KEY then Key("", true)
            else Key(k.buf + Decoded(us), false)
    decreases |us|
  {
    hide UnitDecoded;
    if us == [] {
      assert k.buf + Decoded(us) == k.buf;
    } else {
      var one, more := UnitDecoded(us[0]), Decoded(us[1..]);
      var g := Grow(k, one);
      assert Decoded(us) == one + more && GrowAll(k, us) == GrowAll(g, us[1..]);
      GrowAllIsDecoded(g, us[1..]);
      hide GrowAll, Decoded, UnitsOk;
      if k.over {
      } else if g.over {
      } else {
        assert k.buf + one + more == k.buf + (one + more);
      }
    }
  }

  lemma FeedOne(s: Scanner, b: char, rest: string)
    ensures Feed(s, [b] + rest) == Feed(FeedByte(s, b), rest)
  {
    assert ([b] + rest)[1..] == rest;
  }

  lemma AbsorbCons(n: Notes, b: char, rest: string)
    ensures AbsorbAll(n, [b] + rest) == AbsorbAll(Absorb(n, b), rest)
    ensures AbsorbAll(n, [b]) == Absorb(n, b)
  {
    hide Absorb;
    assert ([b] + rest)[1..] == rest;
  }

  // States in which whitespace is skipped.
  predicate Skips(lex: Lex) {
    lex.Value? || lex.KeyOrEnd? || lex.KeyStart? || lex.Colon? || lex.MemberDone? || lex.ElemDone? || lex.Trailing?
  }

  lemma SpaceByte(s: Scanner, b: char)
    requires s.Live? && Skips(s.lex) && IsSpace(b)
    ensures FeedByte(s, b) == s.(notes := Absorb(s.notes, b))
  {
    hide Absorb;
  }

  lemma {:induction false} FeedSpace(s: Scanner, w: string, rest: string)
    requires s.Live? && Skips(s.lex) && AllSpace(w)
    ensures Feed(s, w + rest) == Feed(s.(notes := AbsorbAll(s.notes, w)), rest)
    decreases |w|
  {
    hide FeedByte, Absorb;
    if w == "" {
      assert w + rest == rest;
    } else {
      assert w + rest == [w[0]] + (w[1..] + rest);
      SpaceByte(s, w[0]);
      FeedOne(s, w[0], w[1..] + rest);
      FeedSpace(FeedByte(s, w[0]), w[1..], rest);
    }
  }

  lemma {:induction false} FeedUnits(s: Scanner, isKey: bool, k: Key, us: seq<Unit>, rest: string)
    requires s.Live? && s.lex == InString(isKey, k) && UnitsOk(us)
    ensures Feed(s, UnitsText(us) + rest) ==
            Feed(s.(lex := InString(isKey, if isKey then GrowAll(k, us) else k),
                    notes := AbsorbAll(s.notes, UnitsText(us))), rest)
    decreases |us|
  {
    if us == [] {
      assert UnitsText(us) + rest == rest;
    } else {
      var u, more := us[0], us[1..];
      assert UnitsText(us) + rest == UnitText(u) + (UnitsText(more) + rest);
      var t := s.(lex := InString(isKey, if isKey then Grow(k, UnitDecoded(u)) else k),
                  notes := AbsorbAll(s.notes, UnitText(u)));
      FeedUnit(s, isKey, k, u, UnitsText(more) + rest);
      FeedUnits(t, isKey, t.lex.key, more, rest);
      AbsorbAppend(s.notes, UnitText(u), UnitsText(more));
    }
  }

  lemma {:induction false} FeedUnit(s: Scanner, isKey: bool, k: Key, u: Unit, rest: string)
    requires s.Live? && s.lex == InString(isKey, k) && UnitOk(u)
    ensures Feed(s, UnitText(u) + rest) ==
            Feed(s.(lex := InString(isKey, if isKey then Grow(k, UnitDecoded(u)) else k),
                    notes := AbsorbAll(s.notes, UnitText(u))), rest)
  {
    hide Absorb, Feed, AbsorbAll, Grow;
    match u
    case Plain(c) =>
      FeedOne(s, c, rest);
      AbsorbCons(s.notes, c, "");
    case Escaped(c) =>
      assert UnitText(u) + rest == ['\\'] + ([c] + rest);
      FeedOne(s, '\\', [c] + rest);
      FeedOne(FeedByte(s, '\\'), c, rest);
      assert UnitText(u) == ['\\'] + [c];
      AbsorbCons(s.notes, '\\', [c]);
      AbsorbCons(Absorb(s.notes, '\\'), c, "");
    case Code(h0, h1, h2, h3) =>
      var t := FeedByte(FeedByte(s, '\\'), 'u');
      var digits := [h0, h1, h2, h3];
      assert UnitText(u) + rest == ['\\'] + (['u'] + (digits + rest));
      FeedOne(s, '\\', ['u'] + (digits + rest));
      FeedOne(FeedByte(s, '\\'), 'u', digits + rest);
      assert t == s.(lex := InUnicode(isKey, k, ""), notes := Absorb(Absorb(s.notes, '\\'), 'u'));
      hide FeedByte;
      FeedHex(t, isKey, k, h0, h1, h2, h3, rest);
      assert UnitText(u) == ['\\'] + (['u'] + digits);
      AbsorbCons(s.notes, '\\', ['u'] + digits);
      AbsorbCons(Absorb(s.notes, '\\'), 'u', digits);
  }

  lemma HexByte(s: Scanner, isKey: bool, k: Key, hex: string, h: char)
    requires s.Live? && s.lex == InUnicode(isKey, k, hex) && IsHex(h) && |hex| < 3
    ensures FeedByte(s, h) == s.(lex := InUnicode(isKey, k, hex + [h]), notes := Absorb(s.notes, h))
  {
    hide Absorb;
  }

  lemma LastHexByte(s: Scanner, isKey: bool, k: Key, h0: char, h1: char, h2: char, h3: char)
    requires s.Live? && s.lex == InUnicode(isKey, k, [h0, h1, h2])
    requires IsHex(h0) && IsHex(h1) && IsHex(h2) && IsHex(h3)
    ensures FeedByte(s, h3) ==
            s.(lex := InString(isKey, if isKey then Grow(k, Utf8(CodeUnit(h0, h1, h2, h3))) else k),
               notes := Absorb(s.notes, h3))
  {
    hide Absorb, Utf8, CodeUnit;
    assert [h0, h1, h2] + [h3] == [h0, h1, h2, h3];
  }

  lemma {:induction false} FeedHex(s: Scanner, isKey: bool, k: Key,
                                   h0: char, h1: char, h2: char, h3: char, rest: string)
    requires s.Live? && s.lex == InUnicode(isKey, k, "")
    requires IsHex(h0) && IsHex(h1) && IsHex(h2) && IsHex(h3)
    ensures Feed(s, [h0, h1, h2, h3] + rest) ==
            Feed(s.(lex := InString(isKey, if isKey then Grow(k, Utf8(CodeUnit(h0, h1, h2, h3))) else k),
                    notes := AbsorbAll(s.notes, [h0, h1, h2, h3])), rest)
  {
    hide Absorb, Feed, FeedByte, AbsorbAll, Grow, Utf8, CodeUnit;
    HexByte(s, isKey, k, "", h0);
    var s0 := FeedByte(s, h0);
    assert "" + [h0] == [h0] && [h0] + [h1] == [h0, h1] && [h0, h1] + [h2] == [h0, h1, h2];
    HexByte(s0, isKey, k, [h0], h1);
    var s1 := FeedByte(s0, h1);
    HexByte(s1, isKey, k, [h0, h1], h2);
    var s2 := FeedByte(s1, h2);
    LastHexByte(s2, isKey, k, h0, h1, h2, h3);
    assert [h0, h1, h2, h3] + rest == [h0] + ([h1] + ([h2] + ([h3] + rest)));
    FeedOne(s, h0, [h1] + ([h2] + ([h3] + rest)));
    FeedOne(s0, h1, [h2] + ([h3] + rest));
    FeedOne(s1, h2, [h3] + rest);
    FeedOne(s2, h3, rest);
    assert [h0, h1, h2, h3] == [h0] + ([h1] + ([h2] + [h3]));
    AbsorbCons(s.notes, h0, [h1] + ([h2] + [h3]));
    AbsorbCons(s0.notes, h1, [h2] + [h3]);
    AbsorbCons(s1.notes, h2, [h3]);
    AbsorbCons(s2.notes, h3, "");
  }

  // The digit states that stay put on a digit.
  predicate Digesting(lex: Lex) { lex.NumInt? || lex.NumFrac? || lex.NumExp? }

  lemma {:induction false} FeedDigits(s: Scanner, ds: string, rest: string)
    requires s.Live? && Digesting(s.lex) && AllDigits(ds)
    ensures Feed(s, ds + rest) == Feed(s.(notes := AbsorbAll(s.notes, ds)), rest)
    decreases |ds|
  {
    if ds == "" {
      assert ds + rest == rest;
    } else {
      assert ds + rest == [ds[0]] + (ds[1..] + rest);
      FeedOne(s, ds[0], ds[1..] + rest);
      FeedDigits(FeedByte(s, ds[0]), ds[1..], rest);
    }
  }

  // The first digit moves to the digit state `to`, the others stay there.
  lemma {:induction false} FeedDigitRun(s: Scanner, to: Lex, ds: string, rest: string)
    requires s.Live? && ds != "" && AllDigits(ds) && Digesting(to)
    requires FeedByte(s, ds[0]) == s.(lex := to, notes := Absorb(s.notes, ds[0]))
    ensures Feed(s, ds + rest) == Feed(s.(lex := to, notes := AbsorbAll(s.notes, ds)), rest)
  {
    assert ds + rest == [ds[0]] + (ds[1..] + rest);
    FeedOne(s, ds[0], ds[1..] + rest);
    FeedDigits(FeedByte(s, ds[0]), ds[1..], rest);
  }

  lemma {:induction false} FeedFraction(s: Scanner, f: Fraction, rest: string) returns (t: Scanner)
    requires s.Live? && (s.lex.NumZero? || s.lex.NumInt?) && FractionOk(f)
    ensures Feed(s, FractionText(f) + rest) == Feed(t, rest)
    ensures t.Live? && (t.lex.NumZero? || t.lex.NumInt? || t.lex.NumFrac?)
    ensures t == s.(lex := t.lex, notes := AbsorbAll(s.notes, FractionText(f)))
  {
    match f
    case NoFraction =>
      assert FractionText(f) + rest == rest;
      t := s;
    case Fraction(ds) =>
      var p := FeedByte(s, '.');
      assert FractionText(f) + rest == ['.'] + (ds + rest);
      FeedOne(s, '.', ds + rest);
      FeedDigitRun(p, NumFrac, ds, rest);
      AbsorbAppend(s.notes, ['.'], ds);
      t := p.(lex := NumFrac, notes := AbsorbAll(p.notes, ds));
  }

  lemma AbsorbNone(n: Notes)
    ensures AbsorbAll(n, "") == n
  {
  }

  lemma {:induction false} FeedSignedDigits(s: Scanner, sign: string, ds: string, rest: string) returns (t: Scanner)
    requires s.Live? && s.lex.NumExpSign? && (sign == "" || sign == "+" || sign == "-") && ds != "" && AllDigits(ds)
    ensures Feed(s, sign + (ds + rest)) == Feed(t, rest)
    ensures t == s.(lex := NumExp, notes := AbsorbAll(s.notes, sign + ds))
  {
    hide Absorb, Feed, AbsorbAll;
    if sign == "" {
      assert sign + (ds + rest) == ds + rest && sign + ds == ds;
      FeedDigitRun(s, NumExp, ds, rest);
    } else {
      assert sign == [sign[0]];
      var q := FeedByte(s, sign[0]);
      assert q == s.(lex := NumExpFirst, notes := Absorb(s.notes, sign[0]));
      FeedOne(s, sign[0], ds + rest);
      AbsorbCons(s.notes, sign[0], ds);
      FeedDigitRun(q, NumExp, ds, rest);
    }
    t := s.(lex := NumExp, notes := AbsorbAll(s.notes, sign + ds));
  }

  lemma {:induction false} FeedExponent(s: Scanner, e: Exponent, rest: string) returns (t: Scanner)
    requires s.Live? && (s.lex.NumZero? || s.lex.NumInt? || s.lex.NumFrac?) && ExponentOk(e)
    ensures Feed(s, ExponentText(e) + rest) == Feed(t, rest)
    ensures t.Live? && (t.lex.NumZero? || t.lex.NumInt? || t.lex.NumFrac? || t.lex.NumExp?)
    ensures t == s.(lex := t.lex, notes := AbsorbAll(s.notes, ExponentText(e)))
  {
    hide Absorb, Feed, AbsorbAll;
    match e
    case NoExponent =>
      assert ExponentText(e) + rest == rest && ExponentText(e) == "";
      AbsorbNone(s.notes);
      t := s;
    case Exponent(c, sign, ds) =>
      var p := FeedByte(s, c);
      assert p == s.(lex := NumExpSign, notes := Absorb(s.notes, c));
      assert ExponentText(e) + rest == [c] + (sign + (ds + rest));
      FeedOne(s, c, sign + (ds + rest));
      assert ExponentText(e) == [c] + (sign + ds);
      AbsorbCons(s.notes, c, sign + ds);
      t := FeedSignedDigits(p, sign, ds, rest);
  }

  lemma {:induction false} FeedInteger(s: Scanner, digits: string, rest: string) returns (t: Scanner)
    requires s.Live? && (s.lex.Value? || s.lex.NumSign?) && IntegerOk(digits)
    requires s.lex.NumSign? ==> s.notes.pending == ""
    ensures Feed(s, digits + rest) == Feed(t, rest)
    ensures t.Live? && (t.lex.NumZero? || t.lex.NumInt?)
    ensures t == s.(lex := t.lex, notes := ScalarNotes(s.notes, digits))
  {
    var p := FeedByte(s, digits[0]);
    IntegerByte(s, digits[0]);
    hide FeedByte, Feed, Absorb, AbsorbAll, Start;
    assert digits + rest == [digits[0]] + (digits[1..] + rest);
    FeedOne(s, digits[0], digits[1..] + rest);
    if digits == "0" {
      assert digits[1..] + rest == rest;
      AbsorbNone(p.notes);
    } else {
      FeedDigits(p, digits[1..], rest);
    }
    t := p.(notes := AbsorbAll(p.notes, digits[1..]));
  }

  lemma IntegerByte(s: Scanner, b: char)
    requires s.Live? && (s.lex.Value? || s.lex.NumSign?) && IsDigit(b)
    requires s.lex.NumSign? ==> s.notes.pending == ""
    ensures FeedByte(s, b) == s.(lex := if b == '0' then NumZero else NumInt, notes := Start(Absorb(s.notes, b), b))
  {
    assert Absorb(s.notes, b).pending == s.notes.pending;
    hide Absorb;
  }

  lemma MinusByte(s: Scanner)
    requires s.Live? && s.lex.Value?
    ensures FeedByte(s, '-') == s.(lex := NumSign, notes := Start(Absorb(s.notes, '-'), '-'))
  {
    hide Absorb, Start;
  }

  lemma NothingPending(n: Notes, b: char, digits: string)
    requires digits != ""
    ensures Start(n, b).pending == ""
    ensures n.pending == "" ==> ScalarNotes(n, digits) == AbsorbAll(n, digits)
  {
  }

  lemma {:induction false} FeedMinus(s: Scanner, n: Number, rest: string) returns (t: Scanner)
    requires s.Live? && s.lex.Value? && NumberOk(n)
    ensures Feed(s, (if n.minus then "-" else "") + n.integer + rest) == Feed(t, rest)
    ensures t.Live? && (t.lex.NumZero? || t.lex.NumInt?)
    ensures t == s.(lex := t.lex, notes := ScalarNotes(s.notes, (if n.minus then "-" else "") + n.integer))
  {
    if n.minus {
      var p := s.(lex := NumSign, notes := Start(Absorb(s.notes, '-'), '-'));
      MinusByte(s);
      NothingPending(Absorb(s.notes, '-'), '-', n.integer);
      NothingPending(p.notes, '-', n.integer);
      assert ScalarNotes(s.notes, "-" + n.integer) == AbsorbAll(p.notes, n.integer) by {
        assert ("-" + n.integer)[1..] == n.integer;
      }
      hide FeedByte, Feed, Absorb, Start, AbsorbAll;
      assert "-" + n.integer + rest == ['-'] + (n.integer + rest);
      FeedOne(s, '-', n.integer + rest);
      t := FeedInteger(p, n.integer, rest);
    } else {
      assert "" + n.integer == n.integer;
      hide FeedByte, Feed, Absorb, Start, AbsorbAll;
      t := FeedInteger(s, n.integer, rest);
    }
  }

  lemma ScalarAppend(n: Notes, a: string, b: string)
    requires a != ""
    ensures ScalarNotes(n, a + b) == AbsorbAll(ScalarNotes(n, a), b)
  {
    assert (a + b)[1..] == a[1..] + b;
    AbsorbAppend(Start(Absorb(n, a[0]), a[0]), a[1..], b);
  }

  lemma {:induction false} FeedNumber(s: Scanner, n: Number, rest: string) returns (t: Scanner)
    requires s.Live? && s.lex.Value? && NumberOk(n)
    ensures Feed(s, NumberText(n) + rest) == Feed(t, rest)
    ensures t.Live? && (t.lex.NumZero? || t.lex.NumInt? || t.lex.NumFrac? || t.lex.NumExp?)
    ensures t == s.(lex := t.lex, notes := ScalarNotes(s.notes, NumberText(n)))
  {
    var head := (if n.minus then "-" else "") + n.integer;
    var f, e := FractionText(n.fraction), ExponentText(n.exponent);
    assert NumberText(n) + rest == head + (f + (e + rest));
    assert NumberText(n) == head + (f + e);
    var p := FeedMinus(s, n, f + (e + rest));
    var q := FeedFraction(p, n.fraction, e + rest);
    t := FeedExponent(q, n.exponent, rest);
    ScalarAppend(s.notes, head, f + e);
    AbsorbAppend(p.notes, f, e);
  }

  // A delimiter ends a number, with the effect of a byte after any value.
  lemma DelimitNumber(s: Scanner, rest: string)
    requires s.Live? && (s.lex.NumZero? || s.lex.NumInt? || s.lex.NumFrac? || s.lex.NumExp?)
    requires rest != "" && Delimiter(rest[0])
    ensures Feed(s, rest) ==
            Feed(s.(lex := After(s.stack), notes := EndNumber(s.notes, |s.stack|, rest[0])), rest)
  {
    hide FeedByte, EndNumber, After;
    var b := rest[0];
    var t := s.(lex := After(s.stack), notes := EndNumber(s.notes, |s.stack|, b));
    DelimitByte(s, b);
    hide Delimiter;
    FeedOne(s, b, rest[1..]);
    FeedOne(t, b, rest[1..]);
    assert rest == [b] + rest[1..];
    hide Feed;
  }

  // Ending the number before or after its last byte is noted is the same.
  lemma EndsOnce(n: Notes, depth: nat, b: char)
    ensures Finish(Absorb(n, b), depth) == Absorb(EndNumber(n, depth, b), b)
  {
    hide RawCap;
  }

  lemma DelimitByte(s: Scanner, b: char)
    requires s.Live? && (s.lex.NumZero? || s.lex.NumInt? || s.lex.NumFrac? || s.lex.NumExp?) && Delimiter(b)
    ensures FeedByte(s, b) == FeedByte(s.(lex := After(s.stack), notes := EndNumber(s.notes, |s.stack|, b)), b)
  {
    hide StepPlain, Absorb, Finish, EndNumber;
    var t := s.(lex := After(s.stack), notes := EndNumber(s.notes, |s.stack|, b));
    var u := s.(notes := Absorb(s.notes, b));
    EndsOnce(s.notes, |s.stack|, b);
    assert EndValue(u) == t.(notes := Absorb(t.notes, b));
    assert Step(u, b) == StepPlain(EndValue(u), b);
  }

  lemma {:induction false} FeedWord(s: Scanner, w: string, rest: string)
    requires s.Live? && s.lex == InWord(w) && w != ""
    ensures Feed(s, w + rest) ==
            Feed(s.(lex := After(s.stack), notes := Finish(AbsorbAll(s.notes, w), |s.stack|)), rest)
    decreases |w|
  {
    assert w + rest == [w[0]] + (w[1..] + rest);
    FeedOne(s, w[0], w[1..] + rest);
    if |w| > 1 {
      FeedWord(FeedByte(s, w[0]), w[1..], rest);
    } else {
      assert w[1..] + rest == rest;
    }
  }

  lemma {:induction false} FeedScalar(s: Scanner, v: Json, rest: string)
    requires s.Live? && s.lex.Value? && Ok(v) && !v.Obj? && !v.Arr?
    requires v.Num? ==> rest != "" && Delimiter(rest[0])
    ensures Feed(s, Text(v) + rest) ==
            Feed(s.(lex := After(s.stack),
                    notes := ValueNotes(s.notes, s.mode, s.stack, v, if rest == "" then ' ' else rest[0])), rest)
  {
    hide Absorb, Feed, AbsorbAll, Start, Finish, EndNumber, Grow;
    match v
    case Str(us) =>
      var p := FeedByte(s, '"');
      assert p == s.(lex := InString(false, Key("", false)), notes := Start(Absorb(s.notes, '"'), '"'));
      var body := UnitsText(us);
      assert Text(v) + rest == ['"'] + (body + (['"'] + rest));
      FeedOne(s, '"', body + (['"'] + rest));
      FeedUnits(p, false, Key("", false), us, ['"'] + rest);
      var q := p.(notes := AbsorbAll(p.notes, body));
      FeedOne(q, '"', rest);
      assert FeedByte(q, '"') == EndValue(q.(notes := Absorb(q.notes, '"')));
      assert Text(v)[1..] == body + ['"'];
      AbsorbAppend(p.notes, body, ['"']);
      AbsorbCons(q.notes, '"', "");
    case Num(n) =>
      hide FeedByte;
      var t := FeedNumber(s, n, rest);
      DelimitNumber(t, rest);
    case Lit(w) =>
      var p := FeedByte(s, w[0]);
      assert w + rest == [w[0]] + (w[1..] + rest);
      FeedOne(s, w[0], w[1..] + rest);
      assert p == s.(lex := InWord(w[1..]), notes := Start(Absorb(s.notes, w[0]), w[0]));
      hide FeedByte;
      FeedWord(p, w[1..], rest);
  }

  lemma OpenQuote(s: Scanner)
    requires s.Live? && (s.lex.KeyOrEnd? || s.lex.KeyStart?)
    ensures FeedByte(s, '"') == s.(lex := InString(true, Key("", false)), notes := Absorb(s.notes, '"'))
  {
    hide Absorb;
  }

  lemma GrownKey(us: seq<Unit>)
    requires UnitsOk(us)
    ensures var k := GrowAll(Key("", false), us); (if k.over then "" else k.buf) == KeyOf(us)
  {
    GrowAllIsDecoded(Key("", false), us);
    assert "" + Decoded(us) == Decoded(us);
  }

  lemma CloseQuote(s: Scanner, us: seq<Unit>)
    requires s.Live? && s.stack != [] && UnitsOk(us) && s.lex == InString(true, GrowAll(Key("", false), us))
    ensures FeedByte(s, '"') == EndKey(s.(notes := Absorb(s.notes, '"')), KeyOf(us))
  {
    GrownKey(us);
    hide Absorb, KeyOf, GrowAll, EndKey;
  }

  lemma AbsorbQuoted(n: Notes, pre: string, body: string)
    ensures AbsorbAll(n, pre + (['"'] + (body + ['"']))) ==
            Absorb(AbsorbAll(Absorb(AbsorbAll(n, pre), '"'), body), '"')
  {
    hide Absorb, AbsorbAll;
    var p := AbsorbAll(n, pre);
    AbsorbAppend(n, pre, ['"'] + (body + ['"']));
    AbsorbCons(p, '"', body + ['"']);
    AbsorbAppend(Absorb(p, '"'), body, ['"']);
    AbsorbCons(AbsorbAll(Absorb(p, '"'), body), '"', "");
  }

  lemma {:induction false} FeedKey(s: Scanner, stack: seq<Frame>, ms: Members, rest: string)
    requires s.Live? && (s.lex.KeyOrEnd? || s.lex.KeyStart?)
    requires s.stack != [] && s.stack[..|s.stack| - 1] == stack && s.stack[|s.stack| - 1].isObject
    requires ms.Member? && MembersOk(ms)
    ensures var opening := KeyText(ms);
            var inner := stack + [Frame(true, KeyOf(ms.key))];
            Feed(s, opening + rest) ==
            Feed(s.(lex := Colon, stack := inner,
                    notes := KeyNotes(AbsorbAll(s.notes, opening), s.mode, inner)), rest)
  {
    hide Absorb, Feed, FeedByte, AbsorbAll, KeyNotes, Grow, GrowAll, KeyOf, UnitsText, AllSpace, UnitsOk;
    var body := UnitsText(ms.key);
    var opening := KeyText(ms);
    var inner := stack + [Frame(true, KeyOf(ms.key))];
    assert opening + rest == ms.pre + (['"'] + (body + (['"'] + rest)));
    assert opening == ms.pre + (['"'] + (body + ['"']));
    FeedSpace(s, ms.pre, ['"'] + (body + (['"'] + rest)));
    var p := s.(notes := AbsorbAll(s.notes, ms.pre));
    FeedOne(p, '"', body + (['"'] + rest));
    var q := FeedByte(p, '"');
    OpenQuote(p);
    FeedUnits(q, true, Key("", false), ms.key, ['"'] + rest);
    var r := q.(lex := InString(true, GrowAll(Key("", false), ms.key)), notes := AbsorbAll(q.notes, body));
    FeedOne(r, '"', rest);
    CloseQuote(r, ms.key);
    AbsorbQuoted(s.notes, ms.pre, body);
    assert WithKey(s.stack, KeyOf(ms.key)) == inner;
  }

  lemma {:induction false} FeedColon(s: Scanner, before: string, after: string, rest: string)
    requires s.Live? && s.lex.Colon? && AllSpace(before) && AllSpace(after)
    ensures Feed(s, before + ":" + after + rest) ==
            Feed(s.(lex := Value, notes := AbsorbAll(s.notes, before + ":" + after)), rest)
  {
    assert before + ":" + after + rest == before + ([':'] + (after + rest));
    FeedSpace(s, before, [':'] + (after + rest));
    var p := s.(notes := AbsorbAll(s.notes, before));
    FeedOne(p, ':', after + rest);
    FeedSpace(FeedByte(p, ':'), after, rest);
    assert before + ":" + after == before + ([':'] + after);
    AbsorbAppend(s.notes, before, [':'] + after);
    AbsorbAppend(p.notes, [':'], after);
  }

  lemma {:induction false} FeedClose(s: Scanner, stack: seq<Frame>, close: char, rest: string)
    requires s.Live? && s.stack != [] && s.stack[..|s.stack| - 1] == stack
    requires if close == '}' then s.lex.KeyOrEnd? || s.lex.MemberDone?
             else close == ']' && (s.lex.ValueOrEnd? || s.lex.ElemDone?)
    ensures Feed(s, [close] + rest) ==
            Feed(s.(lex := After(stack), stack := stack, notes := Finish(Absorb(s.notes, close), |stack|)), rest)
  {
    FeedOne(s, close, rest);
  }

  lemma NextIsHead(post: string, last: bool, close: char, tail: string)
    requires AllSpace(post) && tail != "" && tail[0] == (if last then close else ',') && (close == '}' || close == ']')
    ensures (post + tail)[0] == Next(post, last, close)
    ensures Delimiter((post + tail)[0])
  {
  }

  lemma OpenByte(s: Scanner, open: char)
    requires s.Live? && s.lex.Value? && |s.stack| < MAX_DEPTH && (open == '{' || open == '[')
    ensures FeedByte(s, open) ==
            s.(lex := if open == '{' then KeyOrEnd else ValueOrEnd,
               stack := s.stack + [Frame(open == '{', "")],
               rootObject := if s.stack == [] then open == '{' else s.rootObject,
               notes := Start(Absorb(s.notes, open), open))
  {
    hide Absorb, Start;
  }

  lemma CommaByte(s: Scanner)
    requires s.Live? && (s.lex.MemberDone? || s.lex.ElemDone?)
    ensures FeedByte(s, ',') ==
            s.(lex := if s.lex.MemberDone? then KeyStart else Value, notes := Absorb(s.notes, ','))
  {
    hide Absorb;
  }

  /** Values, whatever surrounds them. */
  lemma {:induction false} FeedValue(s: Scanner, v: Json, rest: string)
    requires s.Live? && s.lex.Value? && Ok(v) && Tight(v) && |s.stack| + Depth(v) <= MAX_DEPTH
    requires s.stack != [] || v.Obj?
    requires v.Num? ==> rest != "" && Delimiter(rest[0])
    ensures Feed(s, Text(v) + rest) ==
            Feed(s.(lex := After(s.stack), rootObject := s.rootObject || s.stack == [],
                    notes := ValueNotes(s.notes, s.mode, s.stack, v, if rest == "" then ' ' else rest[0])), rest)
    decreases v, 1
  {
    hide FeedByte, Feed, Absorb, Start, AbsorbAll, Finish, KeyNotes;
    match v
    case Obj(gap, ms) =>
      OpenByte(s, '{');
      var p := FeedByte(s, '{');
      var q := p.(notes := AbsorbAll(p.notes, gap));
      var tail := MembersText(ms) + (['}'] + rest);
      assert Text(v) + rest == ['{'] + (gap + tail);
      hide Text, MembersText, ElemsText;
      FeedOne(s, '{', gap + tail);
      FeedSpace(p, gap, tail);
      assert p.stack[..|p.stack| - 1] == s.stack;
      FeedMembers(q, s.stack, ms, rest);
    case Arr(gap, es) =>
      OpenByte(s, '[');
      var p := FeedByte(s, '[');
      var tail := ElemsText(es) + ([']'] + rest);
      assert gap == "" ==> Text(v) + rest == ['['] + tail;
      assert es.Elem? ==> gap == "";
      assert Text(v) + rest == ['['] + (gap + tail);
      hide Text, ElemsText, MembersText;
      FeedOne(s, '[', gap + tail);
      FeedArray(p, s.stack, gap, es, rest);
    case _ => FeedScalar(s, v, rest);
  }

  lemma {:induction false} FeedArray(s: Scanner, stack: seq<Frame>, gap: string, es: Elems, rest: string)
    requires s.Live? && s.lex.ValueOrEnd? && gap == "" && ElemsOk(es) && TightElems(es)
    requires s.stack == stack + [Frame(false, "")]
    requires |s.stack| + ElemsDepth(es) <= MAX_DEPTH
    ensures Feed(s, gap + (ElemsText(es) + ([']'] + rest))) ==
            Feed(s.(lex := After(stack), stack := stack,
                    notes := Finish(Absorb(ElemsNotes(AbsorbAll(s.notes, gap), s.mode, stack, es), ']'), |stack|)),
                 rest)
    decreases es, 1
  {
    hide FeedByte, Feed, Absorb, AbsorbAll, Finish, KeyNotes, Text;
    var tail := ElemsText(es) + ([']'] + rest);
    assert gap + tail == tail;
    AbsorbNone(s.notes);
    assert s.stack[..|s.stack| - 1] == stack;
    if es.NoElems? {
      assert tail == [']'] + rest;
      FeedClose(s, stack, ']', rest);
    } else {
      EnterArray(s, es, tail);
      FeedElems(s.(lex := Value), stack, es, rest);
    }
  }

  // The first element is read as after a comma: an element text never starts
  // with the closing bracket.
  lemma EnterArray(s: Scanner, es: Elems, tail: string)
    requires s.Live? && s.lex.ValueOrEnd? && es.Elem? && ElemsOk(es) && ElemsText(es) <= tail
    ensures Feed(s, tail) == Feed(s.(lex := Value), tail)
  {
    hide Absorb, StepPlain;
    FirstByte(es.value);
    assert es.pre + Text(es.value) <= ElemsText(es);
    assert (es.pre + Text(es.value))[0] == tail[0];
    assert FeedByte(s, tail[0]) == FeedByte(s.(lex := Value), tail[0]);
  }

  lemma FirstOfNumber(n: Number)
    requires NumberOk(n)
    ensures NumberText(n) != "" && (NumberText(n)[0] == '-' || IsDigit(NumberText(n)[0]))
  {
    hide FractionText, ExponentText;
    var head := (if n.minus then "-" else "") + n.integer;
    assert NumberText(n) == head + (FractionText(n.fraction) + ExponentText(n.exponent));
    assert NumberText(n)[0] == head[0];
  }

  lemma FirstByte(v: Json)
    requires Ok(v)
    ensures Text(v) != "" && Text(v)[0] != ']' && !IsSpace(Text(v)[0]) && Text(v)[0] != ':'
  {
    hide NumberOk, NumberText, UnitsText, UnitsOk, ElemsText, ElemsOk, MembersText, MembersOk, AllSpace;
    if v.Num? { FirstOfNumber(v.number); }
  }

  lemma {:induction false} FeedMember(s: Scanner, stack: seq<Frame>, ms: Members, closing: string)
    requires s.Live? && ms.Member? && MembersOk(ms) && TightMembers(ms)
    requires s.lex.KeyOrEnd? || s.lex.KeyStart?
    requires s.stack != [] && s.stack[..|s.stack| - 1] == stack && s.stack[|s.stack| - 1].isObject
    requires |s.stack| + MembersDepth(ms) <= MAX_DEPTH
    requires closing != "" && closing[0] == (if ms.more.NoMembers? then '}' else ',')
    ensures Feed(s, KeyText(ms) + (ColonText(ms) + (Text(ms.value) + (ms.post + closing)))) ==
            Feed(s.(lex := MemberDone, stack := stack + [Frame(true, KeyOf(ms.key))],
                    notes := MemberNotes(s.notes, s.mode, stack, ms)), closing)
    decreases ms, 0
  {
    hide FeedByte, Feed, Absorb, AbsorbAll, Finish, KeyNotes, ValueNotes;
    var v, post, last := ms.value, ms.post, ms.more.NoMembers?;
    var inner := stack + [Frame(true, KeyOf(ms.key))];
    FeedKey(s, stack, ms, ColonText(ms) + (Text(v) + (post + closing)));
    var p := s.(lex := Colon, stack := inner, notes := KeyNotes(AbsorbAll(s.notes, KeyText(ms)), s.mode, inner));
    FeedColon(p, ms.beforeColon, ms.afterColon, Text(v) + (post + closing));
    var q := p.(lex := Value, notes := AbsorbAll(p.notes, ColonText(ms)));
    NextIsHead(post, last, '}', closing);
    FeedValue(q, v, post + closing);
    var r := q.(lex := MemberDone, notes := ValueNotes(q.notes, s.mode, inner, v, Next(post, last, '}')));
    FeedSpace(r, post, closing);
  }

  // The text behind the first member, up to and beyond the closing brace.
  function Closing(more: Members, rest: string): string {
    (if more.NoMembers? then "" else "," + MembersText(more)) + (['}'] + rest)
  }

  lemma EmptyMembers()
    ensures MembersText(NoMembers) == ""
  {
  }

  lemma Regroup(opening: string, colon: string, value: string, post: string, more: string, rest: string)
    ensures opening + colon + value + post + more + rest == opening + (colon + (value + (post + (more + rest))))
  {
  }

  lemma ClosingHead(more: Members, rest: string)
    ensures Closing(more, rest) ==
            if more.NoMembers? then ['}'] + rest else [','] + (MembersText(more) + (['}'] + rest))
    ensures Closing(more, rest) != "" && Closing(more, rest)[0] == (if more.NoMembers? then '}' else ',')
  {
    var text := MembersText(more);
    hide MembersText;
    assert "," + text + (['}'] + rest) == [','] + (text + (['}'] + rest));
    assert "" + (['}'] + rest) == ['}'] + rest;
  }

  lemma SplitMember(ms: Members, rest: string)
    requires ms.Member?
    ensures MembersText(ms) + (['}'] + rest) ==
            KeyText(ms) + (ColonText(ms) + (Text(ms.value) + (ms.post + Closing(ms.more, rest))))
  {
    var more := if ms.more.NoMembers? then "" else "," + MembersText(ms.more);
    assert MembersText(ms) == KeyText(ms) + ColonText(ms) + Text(ms.value) + ms.post + more;
    assert Closing(ms.more, rest) == more + (['}'] + rest);
    hide *;
    Regroup(KeyText(ms), ColonText(ms), Text(ms.value), ms.post, more, ['}'] + rest);
  }

  lemma {:induction false} FeedMembers(s: Scanner, stack: seq<Frame>, ms: Members, rest: string)
    requires s.Live? && MembersOk(ms) && TightMembers(ms)
    requires s.lex.KeyOrEnd? || (s.lex.KeyStart? && ms.Member?)
    requires s.stack != [] && s.stack[..|s.stack| - 1] == stack && s.stack[|s.stack| - 1].isObject
    requires |s.stack| + MembersDepth(ms) <= MAX_DEPTH
    ensures Feed(s, MembersText(ms) + (['}'] + rest)) ==
            Feed(s.(lex := After(stack), stack := stack,
                    notes := Finish(Absorb(MembersNotes(s.notes, s.mode, stack, ms), '}'), |stack|)), rest)
    decreases ms, 1
  {
    hide FeedByte, Feed, Absorb, AbsorbAll, Finish, KeyNotes, MemberNotes, After, MembersText, UnitsText, Text, Closing;
    if ms.NoMembers? {
      assert MembersText(ms) == "" by { EmptyMembers(); }
      assert MembersText(ms) + (['}'] + rest) == ['}'] + rest;
      FeedClose(s, stack, '}', rest);
    } else {
      SplitMember(ms, rest);
      ClosingHead(ms.more, rest);
      FeedMember(s, stack, ms, Closing(ms.more, rest));
      var t := s.(lex := MemberDone, stack := stack + [Frame(true, KeyOf(ms.key))],
                  notes := MemberNotes(s.notes, s.mode, stack, ms));
      assert t.stack[..|t.stack| - 1] == stack;
      if ms.more.NoMembers? {
        FeedClose(t, stack, '}', rest);
      } else {
        CommaByte(t);
        FeedOne(t, ',', MembersText(ms.more) + (['}'] + rest));
        FeedMembers(FeedByte(t, ','), stack, ms.more, rest);
      }
    }
  }

  function ElemClosing(more: Elems, rest: string): string {
    (if more.NoElems? then "" else "," + ElemsText(more)) + ([']'] + rest)
  }

  lemma ElemClosingHead(more: Elems, rest: string)
    ensures ElemClosing(more, rest) ==
            if more.NoElems? then [']'] + rest else [','] + (ElemsText(more) + ([']'] + rest))
    ensures ElemClosing(more, rest) != "" && ElemClosing(more, rest)[0] == (if more.NoElems? then ']' else ',')
  {
    var text := ElemsText(more);
    hide ElemsText;
    assert "," + text + ([']'] + rest) == [','] + (text + ([']'] + rest));
    assert "" + ([']'] + rest) == [']'] + rest;
  }

  lemma SplitElem(es: Elems, rest: string)
    requires es.Elem?
    ensures ElemsText(es) + ([']'] + rest) == es.pre + (Text(es.value) + (es.post + ElemClosing(es.more, rest)))
  {
    var more := if es.more.NoElems? then "" else "," + ElemsText(es.more);
    var value, tail := Text(es.value), [']'] + rest;
    ElemIs(es);
    assert ElemClosing(es.more, rest) == more + tail by { hide Text, ElemsText; }
    hide *;
    Regroup("", es.pre, value, es.post, more, tail);
    assert "" + es.pre == es.pre;
  }

  lemma ElemIs(es: Elems)
    requires es.Elem?
    ensures ElemsText(es) == es.pre + Text(es.value) + es.post +
                             if es.more.NoElems? then "" else "," + ElemsText(es.more)
  {
    hide Text;
  }

  lemma {:induction false} FeedElems(s: Scanner, stack: seq<Frame>, es: Elems, rest: string)
    requires s.Live? && s.lex.Value? && es.Elem? && ElemsOk(es) && TightElems(es)
    requires s.stack == stack + [Frame(false, "")]
    requires |s.stack| + ElemsDepth(es) <= MAX_DEPTH
    ensures Feed(s, ElemsText(es) + ([']'] + rest)) ==
            Feed(s.(lex := After(stack), stack := stack,
                    notes := Finish(Absorb(ElemsNotes(s.notes, s.mode, stack, es), ']'), |stack|)), rest)
    decreases es, 0
  {
    hide FeedByte, Feed, Absorb, AbsorbAll, Finish, KeyNotes, ElemsText, Text, ElemClosing, ValueNotes;
    var Elem(pre, v, post, more) := es;
    var closing := ElemClosing(more, rest);
    SplitElem(es, rest);
    ElemClosingHead(more, rest);
    FeedSpace(s, pre, Text(v) + (post + closing));
    var q := s.(notes := AbsorbAll(s.notes, pre));
    NextIsHead(post, more.NoElems?, ']', closing);
    FeedValue(q, v, post + closing);
    var r := q.(lex := ElemDone, notes := ValueNotes(q.notes, s.mode, s.stack, v, Next(post, more.NoElems?, ']')));
    FeedSpace(r, post, closing);
    var t := r.(notes := AbsorbAll(r.notes, post));
    assert t.stack[..|t.stack| - 1] == stack;
    if more.NoElems? {
      FeedClose(t, stack, ']', rest);
    } else {
      CommaByte(t);
      FeedOne(t, ',', ElemsText(more) + ([']'] + rest));
      FeedElems(FeedByte(t, ','), stack, more, rest);
    }
  }

  /** A whole document with an object at its root, within the depth bound and
      without a spaced empty array, is read to the end. */
  lemma {:induction false} FeedDocument(mode: Mode, d: Document)
    requires DocumentOk(d) && d.value.Obj? && Tight(d.value) && Depth(d.value) <= MAX_DEPTH
    ensures Feed(Fresh(mode), DocumentText(d)) ==
            Live(mode, Trailing, [], true, DocumentNotes(mode, d))
  {
    var s := Fresh(mode);
    var trail := d.trail;
    assert DocumentText(d) == d.lead + (Text(d.value) + trail);
    FeedSpace(s, d.lead, Text(d.value) + trail);
    AbsorbIdle(s.notes, d.lead);
    FeedValue(s, d.value, trail);
    var next := if trail == "" then ' ' else trail[0];
    var t := Live(mode, Trailing, [], true, ValueNotes(s.notes, mode, [], d.value, next));
    FeedSpace(t, trail, "");
    assert trail + "" == trail;
  }

  /** The notes left by a whole document whose root is an object. */
  function DocumentNotes(mode: Mode, d: Document): Notes
    requires DocumentOk(d)
  {
    AbsorbAll(ValueNotes(Fresh(mode).notes, mode, [], d.value, if d.trail == "" then ' ' else d.trail[0]), d.trail)
  }

  lemma {:induction false} AbsorbIdle(n: Notes, bytes: string)
    requires n.capture.Idle?
    ensures AbsorbAll(n, bytes) == n
    decreases |bytes|
  {
    if bytes != "" { AbsorbIdle(n, bytes[1..]); }
  }
}
