/**
 * What the STEP lexer reads back: a writer for tokens (`Print`, one lexeme
 * and a space per token) and the proof that the lexer returns exactly the
 * printed tokens; the single-lexeme facts behind it; and the error cases of
 * `tokenize` (a `#` without digits, an identifier or integer out of range, an
 * unterminated string or enumeration, an unexpected character).
 */
module StepLexerPrint {
  import opened Core
  import opened StepLexer

  // ----- Writing tokens -----

  /** String-literal body: each quote doubled. */
  function Escape(t: string): (r: string)
    ensures |r| >= |t|
  {
    if t == [] then []
    else (if t[0] == '\'' then "''" else [t[0]]) + Escape(t[1..])
  }

  /** Digits, a point, digits: the shape of real the writer emits (`0.`, `3.14`). */
  predicate PlainReal(text: string) {
    var i := DigitsEnd(text, 0);
    0 < i < |text| && text[i] == '.' && DigitsEnd(text, i + 1) == |text|
  }

  predicate NoLower(w: string) { forall i :: 0 <= i < |w| ==> !('a' <= w[i] <= 'z') }

  /** Tokens the writer can render so that the lexer reads them back unchanged. */
  predicate Printable(t: Token) {
    match t
    case EntityId(n) => n < U64Limit
    case Keyword(w) => |w| > 0 && IsAlpha(w[0]) && NoLower(w) && forall i :: 0 <= i < |w| ==> IsKeywordChar(w[i])
    case Integer(v) => I64Min <= v <= I64Max
    case Real(text) => PlainReal(text)
    case Enum(name) => name != "T" && name != "F" && forall i :: 0 <= i < |name| ==> name[i] != '.'
    case _ => true
  }

  /** The source text of one token. */
  function Lexeme(t: Token): (r: string)
    ensures |r| > 0
  {
    match t
    case EntityId(n) => "#" + NatToDigits(n)
    case Keyword(w) => if w == [] then "A" else w
    case String(text) => "'" + Escape(text) + "'"
    case Integer(v) => if v < 0 then "-" + NatToDigits(0 - v) else NatToDigits(v)
    case Real(text) => if text == [] then "0." else text
    case Enum(name) => "." + name + "."
    case Bool(b) => if b then ".T." else ".F."
    case Derived => "*"
    case Null => "$"
    case OpenParen => "("
    case CloseParen => ")"
    case Comma => ","
    case Semicolon => ";"
    case Equals => "="
  }

  /** Each token's lexeme followed by a space. */
  function Print(ts: seq<Token>): string {
    if ts == [] then [] else Lexeme(ts[0]) + " " + Print(ts[1..])
  }

  // ----- Runs of characters -----

  /** `s` holds `x` at `p`. */
  predicate At(s: string, p: nat, x: string) {
    p + |x| <= |s| && forall i {:trigger x[i]} :: 0 <= i < |x| ==> s[p + i] == x[i]
  }

  lemma AtSplit(s: string, p: nat, a: string, b: string)
    requires At(s, p, a + b)
    ensures At(s, p, a) && At(s, p + |a|, b)
  {
    forall i | 0 <= i < |a| ensures s[p + i] == a[i] {
      assert (a + b)[i] == a[i];
    }
    forall i | 0 <= i < |b| ensures s[p + |a| + i] == b[i] {
      assert (a + b)[|a| + i] == b[i];
    }
  }

  lemma AtSlice(s: string, p: nat, x: string)
    requires At(s, p, x)
    ensures s[p..p + |x|] == x
  {
    forall i | 0 <= i < |x| ensures s[p..p + |x|][i] == x[i] {
      assert s[p + i] == x[i];
    }
  }

  lemma {:induction false} DigitsRun(s: string, p: nat, q: nat)
    requires p <= q <= |s| && (forall i :: p <= i < q ==> IsDigit(s[i])) && (q == |s| || !IsDigit(s[q]))
    ensures DigitsEnd(s, p) == q
    decreases q - p
  {
    if p < q {
      DigitsRun(s, p + 1, q);
    }
  }

  lemma {:induction false} KeywordRun(s: string, p: nat, q: nat)
    requires p <= q <= |s| && (forall i :: p <= i < q ==> IsKeywordChar(s[i])) && (q == |s| || !IsKeywordChar(s[q]))
    ensures KeywordEnd(s, p) == q
    decreases q - p
  {
    if p < q {
      KeywordRun(s, p + 1, q);
    }
  }

  lemma {:induction false} DotRun(s: string, p: nat, q: nat)
    requires p <= q < |s| && (forall i :: p <= i < q ==> s[i] != '.') && s[q] == '.'
    ensures DotAt(s, p) == q
    decreases q - p
  {
    if p < q {
      DotRun(s, p + 1, q);
    }
  }

  /** Every character before `DigitsEnd` is a digit. */
  lemma {:induction false} DigitsBefore(s: string, p: nat)
    requires p <= |s|
    ensures forall i :: p <= i < DigitsEnd(s, p) ==> IsDigit(s[i])
    decreases |s| - p
  {
    if p < |s| && IsDigit(s[p]) {
      DigitsBefore(s, p + 1);
    }
  }

  /** A digit run inside a copy of `x` at `p` ends where it ends in `x`, when `x` is followed by a non-digit. */
  lemma DigitsEndAt(s: string, p: nat, x: string, k: nat)
    requires At(s, p, x) && p + |x| < |s| && !IsDigit(s[p + |x|]) && k <= |x|
    ensures DigitsEnd(s, p + k) == p + DigitsEnd(x, k)
  {
    var e := DigitsEnd(x, k);
    DigitsBefore(x, k);
    forall i | p + k <= i < p + e ensures IsDigit(s[i]) {
      assert s[p + (i - p)] == x[i - p];
    }
    if e < |x| {
      assert s[p + e] == x[e];
    }
    DigitsRun(s, p + k, p + e);
  }

  lemma AllDigitsEnd(x: string, k: nat)
    requires k <= |x| && forall i :: k <= i < |x| ==> IsDigit(x[i])
    ensures DigitsEnd(x, k) == |x|
  {
    DigitsRun(x, k, |x|);
  }

  // ----- One lexeme -----

  /** Where a printed lexeme of `t` sits at `p`, followed by a space. */
  predicate Placed(s: string, p: nat, t: Token) {
    At(s, p, Lexeme(t)) && p + |Lexeme(t)| < |s| && s[p + |Lexeme(t)|] == ' '
  }

  // ----- Which rule the first character selects -----

  lemma DispatchEntityId(s: string, p: nat)
    requires p < |s| && s[p] == '#'
    ensures LexStep(s, p) == LexEntityId(s, p)
  {
  }

  lemma DispatchString(s: string, p: nat)
    requires p < |s| && s[p] == '\''
    ensures LexStep(s, p) == LexString(s, p)
  {
  }

  lemma DispatchDotted(s: string, p: nat)
    requires p < |s| && s[p] == '.'
    ensures LexStep(s, p) == LexDotted(s, p)
  {
  }

  lemma DispatchNumber(s: string, p: nat)
    requires p < |s| && (IsDigit(s[p]) || s[p] == '-' || s[p] == '+')
    ensures LexStep(s, p) == LexNumber(s, p)
  {
    var c := s[p];
    assert !IsAsciiWhitespace(c) && c != '/' && Delimiter(c).None?;
    assert c != '#' && c != '\'' && c != '.';
  }

  /** `#` and a run of digits `d` that the input does not continue. */
  lemma HashDigitsStep(s: string, p: nat, d: string)
    requires |d| > 0 && AllDigits(d) && At(s, p, "#" + d)
    requires p + 1 + |d| == |s| || !IsDigit(s[p + 1 + |d|])
    ensures LexEntityId(s, p) ==
      if ParseU64(d).Some? then Emit(EntityId(ParseU64(d).value), p + 1 + |d|) else Fail(Parse)
  {
    AtSplit(s, p, "#", d);
    assert s[p + 0] == "#"[0];
    forall i | p + 1 <= i < p + 1 + |d| ensures IsDigit(s[i]) {
      assert s[p + 1 + (i - p - 1)] == d[i - p - 1];
    }
    DigitsRun(s, p + 1, p + 1 + |d|);
    AtSlice(s, p + 1, d);
  }

  lemma EntityIdStep(s: string, p: nat, n: nat)
    requires n < U64Limit && Placed(s, p, EntityId(n))
    ensures LexEntityId(s, p) == Emit(EntityId(n), p + |Lexeme(EntityId(n))|)
  {
    HashDigitsStep(s, p, NatToDigits(n));
    ParseU64OfDigits(n);
  }

  lemma {:induction false} EscapedBody(s: string, q: nat, text: string)
    requires At(s, q, Escape(text)) && q + |Escape(text)| + 1 < |s|
    requires s[q + |Escape(text)|] == '\'' && s[q + |Escape(text)| + 1] != '\''
    ensures StringBody(s, q) == Ok((text, q + |Escape(text)| + 1))
    decreases |text|
  {
    var e := Escape(text);
    if text == [] {
      assert s[q] == '\'' && s[q + 1] != '\'';
    } else {
      var h := if text[0] == '\'' then "''" else [text[0]];
      var e' := Escape(text[1..]);
      assert e == h + e';
      AtSplit(s, q, h, e');
      EscapedBody(s, q + |h|, text[1..]);
      assert [text[0]] + text[1..] == text;
      if text[0] == '\'' {
        assert s[q] == '\'' && s[q + 1] == '\'' by {
          assert s[q + 0] == h[0];
          assert s[q + 1] == h[1];
        }
        assert StringBody(s, q) == Prefixed(['\''], StringBody(s, q + 2));
      } else {
        assert s[q] == text[0] by {
          assert s[q + 0] == h[0];
        }
        assert StringBody(s, q) == Prefixed([text[0]], StringBody(s, q + 1));
      }
    }
  }

  lemma StringStep(s: string, p: nat, text: string)
    requires At(s, p, "'" + Escape(text) + "'") && p + |Escape(text)| + 2 < |s| && s[p + |Escape(text)| + 2] == ' '
    ensures LexString(s, p) == Emit(String(text), p + |Escape(text)| + 2)
  {
    var e := Escape(text);
    AtSplit(s, p, "'" + e, "'");
    AtSplit(s, p, "'", e);
    assert s[p + 0] == "'"[0];
    assert s[p + 1 + |e| + 0] == "'"[0];
    EscapedBody(s, p + 1, text);
  }

  lemma DottedStep(s: string, p: nat, w: string)
    requires (forall i :: 0 <= i < |w| ==> w[i] != '.') && At(s, p, "." + w + ".")
    ensures LexDotted(s, p) == Emit(DottedToken(w), p + |w| + 2)
  {
    AtSplit(s, p, "." + w, ".");
    AtSplit(s, p, ".", w);
    assert s[p + 0] == "."[0];
    assert s[p + 1 + |w| + 0] == "."[0];
    forall i | p + 1 <= i < p + 1 + |w| ensures s[i] != '.' {
      assert s[p + 1 + (i - p - 1)] == w[i - p - 1];
    }
    DotRun(s, p + 1, p + 1 + |w|);
    AtSlice(s, p + 1, w);
  }

  lemma KeywordStep(s: string, p: nat, w: string)
    requires Printable(Keyword(w)) && At(s, p, w) && p + |w| < |s| && s[p + |w|] == ' '
    ensures LexStep(s, p) == Emit(Keyword(w), p + |w|)
  {
    assert s[p + 0] == w[0];
    forall i | p <= i < p + |w| ensures IsKeywordChar(s[i]) {
      assert s[p + (i - p)] == w[i - p];
    }
    KeywordRun(s, p, p + |w|);
    AtSlice(s, p, w);
    assert ToUpper(w) == w;
  }

  /** Once the extent of a number is known, the step is decided by its text alone. */
  lemma NumberStepAt(s: string, p: nat, q: nat, isReal: bool)
    requires p < |s| && (IsDigit(s[p]) || s[p] == '-' || s[p] == '+') && NumberEnd(s, p) == (q, isReal)
    ensures p <= q <= |s|
    ensures LexNumber(s, p) == match NumberToken(s[p..q], isReal)
      case Some(t) => Emit(t, q)
      case None => Fail(Parse)
  {
  }

  /** The extent of an optional minus and the digits `d` that follow it. */
  lemma SignedDigitsEnd(s: string, p: nat, sign: string, d: string)
    requires (sign == "" || sign == "-") && |d| > 0 && AllDigits(d) && At(s, p, sign + d)
    requires var e := p + |sign| + |d|;
      e == |s| || (!IsDigit(s[e]) && s[e] != '.' && s[e] != 'e' && s[e] != 'E')
    ensures p < |s| && (IsDigit(s[p]) || s[p] == '-')
    ensures NumberEnd(s, p) == (p + |sign| + |d|, false)
  {
    var x := sign + d;
    var k := |sign|;
    assert s[p + 0] == x[0];
    AtSplit(s, p, sign, d);
    forall i | p + k <= i < p + |x| ensures IsDigit(s[i]) {
      assert s[p + k + (i - p - k)] == d[i - p - k];
    }
    DigitsRun(s, p + k, p + |x|);
  }

  /** An optional minus and a run of digits `d`, followed by neither a digit, a point nor an exponent marker. */
  lemma SignedDigitsStep(s: string, p: nat, sign: string, d: string)
    requires (sign == "" || sign == "-") && |d| > 0 && AllDigits(d) && At(s, p, sign + d)
    requires var e := p + |sign| + |d|;
      e == |s| || (!IsDigit(s[e]) && s[e] != '.' && s[e] != 'e' && s[e] != 'E')
    ensures p < |s| && (IsDigit(s[p]) || s[p] == '-')
    ensures LexNumber(s, p) ==
      if ParseI64(sign + d).Some? then Emit(Integer(ParseI64(sign + d).value), p + |sign| + |d|) else Fail(Parse)
  {
    var q := p + |sign| + |d|;
    assert NumberEnd(s, p) == (q, false) && p < |s| && (IsDigit(s[p]) || s[p] == '-') by {
      SignedDigitsEnd(s, p, sign, d);
    }
    assert s[p..q] == sign + d by {
      AtSlice(s, p, sign + d);
    }
    NumberStepAt(s, p, q, false);
  }

  lemma NaturalStep(s: string, p: nat, n: nat)
    requires n <= I64Max && At(s, p, NatToDigits(n)) && p + |NatToDigits(n)| < |s| && s[p + |NatToDigits(n)|] == ' '
    ensures p < |s| && (IsDigit(s[p]) || s[p] == '-')
    ensures LexNumber(s, p) == Emit(Integer(n), p + |NatToDigits(n)|)
  {
    var d := NatToDigits(n);
    assert d == "" + d;
    SignedDigitsStep(s, p, "", d);
    ParseI64OfDigits(n);
  }

  lemma NegativeStep(s: string, p: nat, n: nat)
    requires 0 < n <= I64Max + 1
    requires var x := "-" + NatToDigits(n); At(s, p, x) && p + |x| < |s| && s[p + |x|] == ' '
    ensures p < |s| && (IsDigit(s[p]) || s[p] == '-')
    ensures LexNumber(s, p) == Emit(Integer(0 - n), p + 1 + |NatToDigits(n)|)
  {
    SignedDigitsStep(s, p, "-", NatToDigits(n));
    ParseI64OfDigits(n);
  }

  /** A plain real's text is accepted as a 64-bit float. */
  lemma PlainRealParses(text: string)
    requires PlainReal(text)
    ensures NumberToken(text, true) == Some(Real(text))
  {
    assert IsDecimalText(text);
  }

  lemma RealStep(s: string, p: nat, text: string)
    requires PlainReal(text) && At(s, p, text) && p + |text| < |s| && s[p + |text|] == ' '
    ensures p < |s| && IsDigit(s[p])
    ensures LexNumber(s, p) == Emit(Real(text), p + |text|)
  {
    RealNumberEnd(s, p, text);
    AtSlice(s, p, text);
    PlainRealParses(text);
  }

  /** The lexer's number scan over a plain real followed by a space ends right after the real. */
  lemma RealNumberEnd(s: string, p: nat, text: string)
    requires PlainReal(text) && At(s, p, text) && p + |text| < |s| && s[p + |text|] == ' '
    ensures p < |s| && IsDigit(s[p])
    ensures NumberEnd(s, p) == (p + |text|, true)
  {
    var i := DigitsEnd(text, 0);
    assert s[p + 0] == text[0];
    DigitsEndAt(s, p, text, 0);
    assert s[p + i] == text[i];
    DigitsEndAt(s, p, text, i + 1);
    assert DigitsEnd(s, p) == p + i && s[p + i] == '.';
    assert FractionPart(s, p + i) == ExponentPart(s, p + |text|, true);
  }

  /** A one-character token. */
  lemma DelimiterStep(s: string, p: nat, t: Token)
    requires Delimiter(Lexeme(t)[0]) == Some(t) && At(s, p, Lexeme(t)) && |Lexeme(t)| == 1
    ensures LexStep(s, p) == Emit(t, p + 1)
  {
    assert s[p + 0] == Lexeme(t)[0];
  }

  /** A printed lexeme followed by a space is read as its token, and the lexer stops right after it. */
  lemma LexemeStep(s: string, p: nat, t: Token)
    requires Printable(t) && Placed(s, p, t)
    ensures LexStep(s, p) == Emit(t, p + |Lexeme(t)|)
  {
    match t
    case EntityId(n) =>
      EntityIdStep(s, p, n);
      assert s[p + 0] == Lexeme(t)[0];
      DispatchEntityId(s, p);
    case String(text) =>
      assert |Lexeme(t)| == |Escape(text)| + 2;
      StringStep(s, p, text);
      assert s[p + 0] == Lexeme(t)[0];
      DispatchString(s, p);
    case Keyword(w) => KeywordStep(s, p, w);
    case Integer(v) =>
      IntegerStep(s, p, v);
      DispatchNumber(s, p);
    case Real(text) =>
      RealStep(s, p, text);
      DispatchNumber(s, p);
    case Enum(_) =>
      DottedLexemeStep(s, p, t);
      DispatchDotted(s, p);
    case Bool(_) =>
      DottedLexemeStep(s, p, t);
      DispatchDotted(s, p);
    case _ => DelimiterStep(s, p, t);
  }

  lemma IntegerStep(s: string, p: nat, v: int)
    requires Printable(Integer(v)) && Placed(s, p, Integer(v))
    ensures p < |s| && (IsDigit(s[p]) || s[p] == '-')
    ensures LexNumber(s, p) == Emit(Integer(v), p + |Lexeme(Integer(v))|)
  {
    if v < 0 {
      assert Lexeme(Integer(v)) == "-" + NatToDigits(0 - v);
      NegativeStep(s, p, 0 - v);
    } else {
      assert Lexeme(Integer(v)) == NatToDigits(v);
      NaturalStep(s, p, v);
    }
  }

  lemma DottedLexemeStep(s: string, p: nat, t: Token)
    requires (t.Enum? || t.Bool?) && Printable(t) && Placed(s, p, t)
    ensures s[p] == '.' && LexDotted(s, p) == Emit(t, p + |Lexeme(t)|)
  {
    var w := if t.Enum? then t.name else if t.flag then "T" else "F";
    assert Lexeme(t) == "." + w + ".";
    assert DottedToken(w) == t;
    DottedStep(s, p, w);
    assert s[p + 0] == Lexeme(t)[0];
  }

  // ----- The round trip -----

  /** `LexFrom` after a token emitted at `p`. */
  lemma EmitThen(s: string, p: nat, t: Token, q: nat)
    requires p < |s| && LexStep(s, p) == Emit(t, q)
    ensures LexFrom(s, p) == Prepend([t], LexFrom(s, q))
  {
  }

  /** `LexFrom` past a space. */
  lemma SpaceThen(s: string, q: nat)
    requires q < |s| && s[q] == ' '
    ensures LexFrom(s, q) == LexFrom(s, q + 1)
  {
    assert LexStep(s, q) == Skip(q + 1);
  }

  /** The first lexeme of a printed sequence, its space, and the rest. */
  lemma PrintHead(s: string, p: nat, ts: seq<Token>)
    requires ts != [] && At(s, p, Print(ts)) && p + |Print(ts)| == |s|
    ensures Placed(s, p, ts[0])
    ensures At(s, p + |Lexeme(ts[0])| + 1, Print(ts[1..])) && p + |Lexeme(ts[0])| + 1 + |Print(ts[1..])| == |s|
  {
    var x := Lexeme(ts[0]);
    AtSplit(s, p, x + " ", Print(ts[1..]));
    AtSplit(s, p, x, " ");
    assert s[p + |x| + 0] == " "[0];
  }

  /** The lexer reads back exactly the tokens it is given, printed. */
  lemma {:induction false} LexFromPrint(s: string, p: nat, ts: seq<Token>)
    requires forall i :: 0 <= i < |ts| ==> Printable(ts[i])
    requires At(s, p, Print(ts)) && p + |Print(ts)| == |s|
    ensures LexFrom(s, p) == Ok(ts)
    decreases |ts|
  {
    if ts != [] {
      var q := p + |Lexeme(ts[0])|;
      PrintHead(s, p, ts);
      PrintableTail(ts);
      LexFromPrint(s, q + 1, ts[1..]);
      LexemeStep(s, p, ts[0]);
      EmitThen(s, p, ts[0], q);
      SpaceThen(s, q);
      assert [ts[0]] + ts[1..] == ts;
    }
  }

  lemma PrintableTail(ts: seq<Token>)
    requires ts != [] && forall i :: 0 <= i < |ts| ==> Printable(ts[i])
    ensures Printable(ts[0]) && forall i :: 0 <= i < |ts[1..]| ==> Printable(ts[1..][i])
  {
    forall i | 0 <= i < |ts[1..]| ensures Printable(ts[1..][i]) {
      assert ts[1..][i] == ts[i + 1];
    }
  }

  /** `tokenize` inverts `Print` on every sequence of printable tokens. */
  lemma LexPrint(ts: seq<Token>)
    requires forall i :: 0 <= i < |ts| ==> Printable(ts[i])
    ensures Lex(Print(ts)) == Ok(ts)
  {
    LexFromPrint(Print(ts), 0, ts);
  }

  /** The identifiers, literals and words of the lexer's own examples are all printable. */
  lemma ExamplesPrintable()
    ensures Printable(EntityId(123)) && Printable(Integer(-7)) && Printable(Real("0."))
    ensures Printable(Real("3.14")) && Printable(Keyword("IFCWALL")) && Printable(Enum("ELEMENT"))
  {
    assert DigitsEnd("0.", 0) == 1 && DigitsEnd("0.", 2) == 2;
    assert DigitsEnd("3.14", 0) == 1 by { assert DigitsEnd("3.14", 1) == 1; }
    assert DigitsEnd("3.14", 2) == 4 by { assert DigitsEnd("3.14", 3) == 4; }
  }

  // ----- Error cases of tokenize -----

  /** `#` not followed by a digit is a parse error. */
  lemma HashWithoutDigits(s: string, p: nat)
    requires p < |s| && s[p] == '#' && (p + 1 == |s| || !IsDigit(s[p + 1]))
    ensures LexStep(s, p) == Fail(Parse)
  {
  }

  /** An entity identifier that does not fit in 64 bits is a parse error. */
  lemma EntityIdTooLarge(n: nat)
    requires n >= U64Limit
    ensures Lex("#" + NatToDigits(n)) == Err(Parse)
  {
    var s := "#" + NatToDigits(n);
    HashDigitsStep(s, 0, NatToDigits(n));
    DispatchEntityId(s, 0);
    NatToDigitsValue(n);
  }

  /** An integer beyond the 64-bit signed range is a parse error. */
  lemma IntegerTooLarge(n: nat)
    requires n > I64Max
    ensures Lex(NatToDigits(n)) == Err(Parse)
  {
    var s := NatToDigits(n);
    assert s == "" + s;
    SignedDigitsStep(s, 0, "", s);
    DispatchNumber(s, 0);
    NatToDigitsValue(n);
  }

  /** A string literal whose closing quote is missing is a parse error. */
  lemma {:induction false} UnclosedBody(s: string, q: nat, text: string)
    requires At(s, q, Escape(text)) && q + |Escape(text)| == |s|
    ensures StringBody(s, q) == Err(Parse)
    decreases |text|
  {
    if text != [] {
      var h := if text[0] == '\'' then "''" else [text[0]];
      assert Escape(text) == h + Escape(text[1..]);
      AtSplit(s, q, h, Escape(text[1..]));
      assert s[q + 0] == h[0];
      if text[0] == '\'' {
        assert s[q + 1] == h[1];
      }
      UnclosedBody(s, q + |h|, text[1..]);
    }
  }

  lemma UnterminatedString(text: string)
    ensures Lex("'" + Escape(text)) == Err(Parse)
  {
    var s := "'" + Escape(text);
    assert At(s, 1, Escape(text)) by {
      forall i | 0 <= i < |Escape(text)| ensures s[1 + i] == Escape(text)[i] {}
    }
    UnclosedBody(s, 1, text);
  }

  /** An enumeration without its closing dot is a parse error. */
  lemma UnterminatedEnum(w: string)
    requires forall i :: 0 <= i < |w| ==> w[i] != '.'
    ensures Lex("." + w) == Err(Parse)
  {
    var s := "." + w;
    forall i | 1 <= i < |s| ensures s[i] != '.' {
      assert s[i] == w[i - 1];
    }
    assert DotAt(s, 1) == |s|;
  }

  /** Any character that starts no lexeme is a parse error. */
  lemma UnexpectedCharacter(s: string, p: nat)
    requires p < |s| && !IsAsciiWhitespace(s[p]) && Delimiter(s[p]).None? && !IsDigit(s[p]) && !IsAlpha(s[p])
    requires s[p] != '/' && s[p] != '#' && s[p] != '\'' && s[p] != '.' && s[p] != '-' && s[p] != '+'
    ensures LexStep(s, p) == Fail(Parse)
  {
  }

  // ----- Skipped text -----

  /** White space produces no tokens. */
  lemma {:induction false} BlankLexesEmpty(s: string, p: nat)
    requires p <= |s| && forall i :: p <= i < |s| ==> IsAsciiWhitespace(s[i])
    ensures LexFrom(s, p) == Ok([])
    decreases |s| - p
  {
    if p < |s| {
      BlankLexesEmpty(s, p + 1);
    }
  }

  /** A closed comment is skipped as a whole. */
  lemma CommentSkipped(s: string, p: nat, body: string)
    requires At(s, p, "/*" + body + "*/")
    requires forall i :: 0 <= i < |body| - 1 ==> !(body[i] == '*' && body[i + 1] == '/')
    ensures LexFrom(s, p) == LexFrom(s, p + |body| + 4)
  {
    var e := p + 2 + |body|;
    AtSplit(s, p, "/*" + body, "*/");
    AtSplit(s, p, "/*", body);
    assert s[p + 0] == "/*"[0] && s[p + 1] == "/*"[1];
    assert s[e + 0] == "*/"[0] && s[e + 1] == "*/"[1];
    forall i | p + 2 <= i < e
      ensures i + 1 < |s| && !Closes(s, i)
    {
      assert s[p + 2 + (i - p - 2)] == body[i - p - 2];
      if i + 1 < e {
        assert s[p + 2 + (i - p - 1)] == body[i - p - 1];
      }
    }
    CommentEndAt(s, p + 2, e);
    CommentThen(s, p, e);
  }

  /** `LexFrom` past a comment that closes at `e`. */
  lemma CommentThen(s: string, p: nat, e: nat)
    requires p + 1 < |s| && s[p] == '/' && s[p + 1] == '*' && CommentEnd(s, p + 2) == e && e + 1 < |s|
    ensures LexFrom(s, p) == LexFrom(s, e + 2)
  {
    assert !IsAsciiWhitespace(s[p]);
    var st := LexStep(s, p);
    assert st == Skip(e + 2);
  }

  lemma {:induction false} CommentEndAt(s: string, p: nat, e: nat)
    requires p <= e && e + 1 < |s| && Closes(s, e)
    requires forall i :: p <= i < e ==> i + 1 < |s| && !Closes(s, i)
    ensures CommentEnd(s, p) == e
    decreases e - p
  {
    if p < e {
      CommentEndAt(s, p + 1, e);
    }
  }

  /**
   * A comment left open at the end of the input stops one character short of
   * the end, so that last character is read as a token of its own.
   */
  lemma UnclosedCommentTail()
    ensures Lex("/*ab") == Ok([Keyword("B")])
  {
    var s := "/*ab";
    assert CommentEnd(s, 2) == 3;
    assert LexStep(s, 0) == Skip(3);
    assert KeywordEnd(s, 3) == 4;
    assert ToUpper(s[3..4]) == "B";
    assert LexStep(s, 3) == Emit(Keyword("B"), 4);
    assert LexFrom(s, 4) == Ok([]);
    assert LexFrom(s, 3) == Prepend([Keyword("B")], LexFrom(s, 4));
    assert LexFrom(s, 0) == LexFrom(s, 3);
    assert [Keyword("B")] + [] == [Keyword("B")];
  }
}
