/**
 * The lexer of the STEP physical-file exchange structure (ISO 10303-21):
 * a cursor moves through the input, skipping white space and `/* ... */`
 * comments and producing one token per lexeme.
 *
 * The input is a sequence of characters, one per byte. `LexStep` is one turn
 * of the lexer's loop and `Lex` the whole token stream; `Tokenize` is proved
 * to compute `Lex`. A real keeps its source text (its value is a
 * floating-point number, not modelled); an integer keeps its value.
 */
module StepLexer {
  import opened Core

  datatype Token =
    | EntityId(id: nat)
    | Keyword(word: string)
    | String(text: string)
    | Integer(value: int)
    | Real(text: string)
    | Enum(name: string)
    | Bool(flag: bool)
    | Derived
    | Null
    | OpenParen
    | CloseParen
    | Comma
    | Semicolon
    | Equals

  /** The one-character tokens. */
  function Delimiter(c: char): Option<Token> {
    match c
    case '(' => Some(OpenParen)
    case ')' => Some(CloseParen)
    case ',' => Some(Comma)
    case ';' => Some(Semicolon)
    case '=' => Some(Equals)
    case '$' => Some(Null)
    case '*' => Some(Derived)
    case _ => None
  }

  predicate IsKeywordChar(c: char) { IsAlpha(c) || IsDigit(c) || c == '_' || c == '-' }

  function ToUpper(w: string): (r: string)
    ensures |r| == |w| && forall i :: 0 <= i < |w| ==> r[i] == UpperAscii(w[i])
  {
    seq(|w|, i requires 0 <= i < |w| => UpperAscii(w[i]))
  }

  // ----- The scanners -----

  /** Where a comment body starting at `p` ends: at the first closing star-slash, or one before the end of the input. */
  function CommentEnd(s: string, p: nat): (r: nat)
    requires p <= |s|
    ensures p <= r <= |s|
    ensures r + 1 >= |s| || Closes(s, r)
    ensures forall i :: p <= i < r ==> i + 1 < |s| && !Closes(s, i)
    decreases |s| - p
  {
    if p + 1 >= |s| || Closes(s, p) then p else CommentEnd(s, p + 1)
  }

  /** A comment closer starts at `i`. */
  predicate Closes(s: string, i: nat)
    requires i + 1 < |s|
  {
    s[i] == '*' && s[i + 1] == '/'
  }

  /** The first `.` at or after `p`, or the end of the input. */
  function DotAt(s: string, p: nat): (r: nat)
    requires p <= |s|
    ensures p <= r <= |s| && (r == |s| || s[r] == '.')
    ensures forall i :: p <= i < r ==> s[i] != '.'
    decreases |s| - p
  {
    if p < |s| && s[p] != '.' then DotAt(s, p + 1) else p
  }

  /** The end of the run of keyword characters from `p`. */
  function KeywordEnd(s: string, p: nat): (r: nat)
    requires p <= |s|
    ensures p <= r <= |s| && (r == |s| || !IsKeywordChar(s[r]))
    ensures forall i :: p <= i < r ==> IsKeywordChar(s[i])
    decreases |s| - p
  {
    if p < |s| && IsKeywordChar(s[p]) then KeywordEnd(s, p + 1) else p
  }

  /**
   * The body of a string literal from `p`, just after its opening quote: its
   * text with `''` read as one quote, and the position after the closing
   * quote; an error when the input ends first.
   */
  function StringBody(s: string, p: nat): (r: Result<(string, nat)>)
    requires p <= |s|
    ensures r.Ok? ==> p < r.value.1 <= |s| && s[r.value.1 - 1] == '\''
    ensures r.Err? ==> r.error == Parse
    decreases |s| - p
  {
    if p >= |s| then Err(Parse)
    else if s[p] == '\'' then
      if p + 1 < |s| && s[p + 1] == '\'' then
        Prefixed(['\''], StringBody(s, p + 2))
      else Ok(([], p + 1))
    else
      Prefixed([s[p]], StringBody(s, p + 1))
  }

  /** `r` with `text` put in front of the decoded text it carries. */
  function Prefixed(text: string, r: Result<(string, nat)>): Result<(string, nat)> {
    match r
    case Ok((rest, q)) => Ok((text + rest, q))
    case Err(e) => Err(e)
  }

  /**
   * The end of a number starting at `p` and whether it is a real: an optional
   * sign, digits, an optional point and digits, an optional exponent marker
   * with an optional sign and digits; a point or an exponent makes it real.
   */
  function NumberEnd(s: string, p: nat): (r: (nat, bool))
    requires p < |s|
    ensures p < r.0 <= |s| || (p == r.0 && !IsDigit(s[p]) && s[p] != '+' && s[p] != '-')
  {
    FractionPart(s, DigitsEnd(s, if s[p] == '-' || s[p] == '+' then p + 1 else p))
  }

  /** From the end of the integer digits at `b`: an optional `.` and digits, then the exponent. */
  function FractionPart(s: string, b: nat): (r: (nat, bool))
    requires b <= |s|
    ensures b <= r.0 <= |s| && (r.0 > b || !r.1 || (b < |s| && s[b] == '.'))
  {
    if b < |s| && s[b] == '.' then ExponentPart(s, DigitsEnd(s, b + 1), true)
    else ExponentPart(s, b, false)
  }

  /** From `c`: an optional `E` or `e`, sign and digits; the flag says whether the number is real. */
  function ExponentPart(s: string, c: nat, frac: bool): (r: (nat, bool))
    requires c <= |s|
    ensures c <= r.0 <= |s| && (r.0 > c || r.1 == frac)
  {
    if c < |s| && (s[c] == 'E' || s[c] == 'e') then
      (DigitsEnd(s, if c + 1 < |s| && (s[c + 1] == '+' || s[c + 1] == '-') then c + 2 else c + 1), true)
    else (c, frac)
  }

  // ----- One turn of the loop, and the whole stream -----

  datatype Step = Skip(next: nat) | Emit(token: Token, next: nat) | Fail(error: ErrorKind)

  /** The token for a number's text: a real when its syntax says so, otherwise a 64-bit integer. */
  function NumberToken(text: string, isReal: bool): Option<Token> {
    if isReal then (if IsF64Text(text) then Some(Real(text)) else None)
    else match ParseI64(text)
      case Some(v) => Some(Integer(v))
      case None => None
  }

  /** The enumeration or boolean token for the word between two dots. */
  function DottedToken(w: string): Token {
    if w == "T" then Bool(true) else if w == "F" then Bool(false) else Enum(w)
  }

  /** One turn of the lexer's loop at `p`; every outcome that continues moves the cursor forward. */
  function LexStep(s: string, p: nat): (r: Step)
    requires p < |s|
    ensures r.Skip? || r.Emit? ==> p < r.next <= |s|
    ensures r.Fail? ==> r.error == Parse
  {
    var c := s[p];
    if IsAsciiWhitespace(c) then Skip(p + 1)
    else if p + 1 < |s| && c == '/' && s[p + 1] == '*' then
      var q := CommentEnd(s, p + 2);
      Skip(if q + 1 < |s| then q + 2 else q)
    else if Delimiter(c).Some? then Emit(Delimiter(c).value, p + 1)
    else if c == '#' then LexEntityId(s, p)
    else if c == '\'' then LexString(s, p)
    else if c == '.' then LexDotted(s, p)
    else if IsDigit(c) || c == '-' || c == '+' then LexNumber(s, p)
    else if IsAlpha(c) then
      var q := KeywordEnd(s, p);
      Emit(Keyword(ToUpper(s[p..q])), q)
    else Fail(Parse)
  }

  /** `#` and its digits: an entity identifier that fits in 64 bits. */
  function LexEntityId(s: string, p: nat): (r: Step)
    requires p < |s|
    ensures r.Emit? ==> p < r.next <= |s|
    ensures !r.Skip? && (r.Fail? ==> r.error == Parse)
  {
    var q := DigitsEnd(s, p + 1);
    if q == p + 1 then Fail(Parse)
    else match ParseU64(s[p + 1..q])
      case Some(n) => Emit(EntityId(n), q)
      case None => Fail(Parse)
  }

  /** A quoted string literal. */
  function LexString(s: string, p: nat): (r: Step)
    requires p < |s|
    ensures r.Emit? ==> p < r.next <= |s|
    ensures !r.Skip? && (r.Fail? ==> r.error == Parse)
  {
    match StringBody(s, p + 1)
    case Ok((text, q)) => Emit(String(text), q)
    case Err(e) => Fail(e)
  }

  /** A word between two dots: a boolean or an enumeration value. */
  function LexDotted(s: string, p: nat): (r: Step)
    requires p < |s|
    ensures r.Emit? ==> p < r.next <= |s|
    ensures !r.Skip? && (r.Fail? ==> r.error == Parse)
  {
    var q := DotAt(s, p + 1);
    if q >= |s| then Fail(Parse) else Emit(DottedToken(s[p + 1..q]), q + 1)
  }

  /** A number: an integer or a real, by its syntax. */
  function LexNumber(s: string, p: nat): (r: Step)
    requires p < |s| && (IsDigit(s[p]) || s[p] == '-' || s[p] == '+')
    ensures r.Emit? ==> p < r.next <= |s|
    ensures !r.Skip? && (r.Fail? ==> r.error == Parse)
  {
    var (q, isReal) := NumberEnd(s, p);
    match NumberToken(s[p..q], isReal)
    case Some(t) => Emit(t, q)
    case None => Fail(Parse)
  }

  /** The tokens from position `p` to the end, or the first error. */
  function LexFrom(s: string, p: nat): Result<seq<Token>>
    decreases |s| - p
  {
    if p >= |s| then Ok([])
    else match LexStep(s, p)
      case Skip(q) => LexFrom(s, q)
      case Emit(t, q) => Prepend([t], LexFrom(s, q))
      case Fail(e) => Err(e)
  }

  function Prepend(ts: seq<Token>, r: Result<seq<Token>>): Result<seq<Token>> {
    match r
    case Ok(rest) => Ok(ts + rest)
    case Err(e) => Err(e)
  }

  lemma PrependTwice(a: seq<Token>, b: seq<Token>, r: Result<seq<Token>>)
    ensures Prepend(a, Prepend(b, r)) == Prepend(a + b, r)
  {
    match r
    case Ok(rest) => assert a + (b + rest) == (a + b) + rest;
    case Err(_) =>
  }

  /** The token stream of a whole input. */
  function Lex(s: string): Result<seq<Token>> { LexFrom(s, 0) }

  // ----- tokenize -----

  method ScanDigits(s: string, p: nat) returns (q: nat)
    requires p <= |s|
    ensures q == DigitsEnd(s, p)
  {
    q := p;
    while q < |s| && IsDigit(s[q])
      invariant p <= q <= |s| && DigitsEnd(s, q) == DigitsEnd(s, p)
    {
      q := q + 1;
    }
  }

  method ScanComment(s: string, p: nat) returns (q: nat)
    requires p <= |s|
    ensures q == CommentEnd(s, p)
  {
    q := p;
    while q + 1 < |s| && !(s[q] == '*' && s[q + 1] == '/')
      invariant p <= q <= |s| && CommentEnd(s, q) == CommentEnd(s, p)
    {
      q := q + 1;
    }
  }

  method ScanString(s: string, p: nat) returns (r: Result<(string, nat)>)
    requires p <= |s|
    ensures r == StringBody(s, p)
  {
    var text := "";
    var q := p;
    assert Prefixed(text, StringBody(s, q)) == StringBody(s, p) by {
      match StringBody(s, p)
      case Ok((rest, e)) => assert [] + rest == rest;
      case Err(_) =>
    }
    while true
      invariant p <= q <= |s|
      invariant StringBody(s, p) == Prefixed(text, StringBody(s, q))
      decreases |s| - q
    {
      if q >= |s| {
        return Err(Parse);
      }
      if s[q] == '\'' {
        if q + 1 < |s| && s[q + 1] == '\'' {
          PrefixedTwice(text, ['\''], StringBody(s, q + 2));
          text := text + ['\''];
          q := q + 2;
        } else {
          assert text + [] == text;
          return Ok((text, q + 1));
        }
      } else {
        PrefixedTwice(text, [s[q]], StringBody(s, q + 1));
        text := text + [s[q]];
        q := q + 1;
      }
    }
  }

  lemma PrefixedTwice(a: string, b: string, r: Result<(string, nat)>)
    ensures Prefixed(a, Prefixed(b, r)) == Prefixed(a + b, r)
  {
    match r
    case Ok((rest, q)) => assert a + (b + rest) == (a + b) + rest;
    case Err(_) =>
  }

  method ScanDot(s: string, p: nat) returns (q: nat)
    requires p <= |s|
    ensures q == DotAt(s, p)
  {
    q := p;
    while q < |s| && s[q] != '.'
      invariant p <= q <= |s| && DotAt(s, q) == DotAt(s, p)
    {
      q := q + 1;
    }
  }

  method ScanKeyword(s: string, p: nat) returns (q: nat)
    requires p <= |s|
    ensures q == KeywordEnd(s, p)
  {
    q := p;
    while q < |s| && IsKeywordChar(s[q])
      invariant p <= q <= |s| && KeywordEnd(s, q) == KeywordEnd(s, p)
    {
      q := q + 1;
    }
  }

  method ScanNumber(s: string, p: nat) returns (q: nat, isReal: bool)
    requires p < |s|
    ensures (q, isReal) == NumberEnd(s, p)
  {
    q := p;
    if s[q] == '-' || s[q] == '+' {
      q := q + 1;
    }
    q := ScanDigits(s, q);
    assert NumberEnd(s, p) == FractionPart(s, q);
    isReal := false;
    if q < |s| && s[q] == '.' {
      isReal := true;
      q := ScanDigits(s, q + 1);
    }
    assert NumberEnd(s, p) == ExponentPart(s, q, isReal);
    if q < |s| && (s[q] == 'E' || s[q] == 'e') {
      isReal := true;
      q := q + 1;
      if q < |s| && (s[q] == '+' || s[q] == '-') {
        q := q + 1;
      }
      q := ScanDigits(s, q);
    }
  }

  /** One turn of `tokenize`'s loop. */
  method LexOne(s: string, p: nat) returns (r: Step)
    requires p < |s|
    ensures r == LexStep(s, p)
  {
    var c := s[p];
    if IsAsciiWhitespace(c) {
      return Skip(p + 1);
    }
    if p + 1 < |s| && c == '/' && s[p + 1] == '*' {
      var q := ScanComment(s, p + 2);
      if q + 1 < |s| {
        q := q + 2;
      }
      return Skip(q);
    }
    var d := Delimiter(c);
    if d.Some? {
      return Emit(d.value, p + 1);
    }
    if c == '#' {
      var q := ScanDigits(s, p + 1);
      if q == p + 1 {
        return Fail(Parse);
      }
      var id := ParseU64(s[p + 1..q]);
      if id.None? {
        return Fail(Parse);
      }
      return Emit(EntityId(id.value), q);
    }
    if c == '\'' {
      var body := ScanString(s, p + 1);
      if body.Err? {
        return Fail(body.error);
      }
      return Emit(String(body.value.0), body.value.1);
    }
    if c == '.' {
      var q := ScanDot(s, p + 1);
      if q >= |s| {
        return Fail(Parse);
      }
      return Emit(DottedToken(s[p + 1..q]), q + 1);
    }
    if IsDigit(c) || c == '-' || c == '+' {
      var q, isReal := ScanNumber(s, p);
      var t := NumberToken(s[p..q], isReal);
      if t.None? {
        return Fail(Parse);
      }
      return Emit(t.value, q);
    }
    if IsAlpha(c) {
      var q := ScanKeyword(s, p);
      return Emit(Keyword(ToUpper(s[p..q])), q);
    }
    return Fail(Parse);
  }

  /** `tokenize`: the token stream of the input, or the first lexical error. */
  method Tokenize(s: string) returns (r: Result<seq<Token>>)
    ensures r == Lex(s)
  {
    var tokens: seq<Token> := [];
    var pos := 0;
    assert Prepend(tokens, LexFrom(s, pos)) == Lex(s) by {
      match LexFrom(s, 0)
      case Ok(ts) => assert [] + ts == ts;
      case Err(_) =>
    }
    while pos < |s|
      invariant pos <= |s|
      invariant Lex(s) == Prepend(tokens, LexFrom(s, pos))
      decreases |s| - pos
    {
      var st := LexOne(s, pos);
      match st
      case Skip(q) =>
        assert LexFrom(s, pos) == LexFrom(s, q);
        pos := q;
      case Emit(t, q) =>
        assert LexFrom(s, pos) == Prepend([t], LexFrom(s, q));
        PrependTwice(tokens, [t], LexFrom(s, q));
        tokens := tokens + [t];
        pos := q;
      case Fail(e) =>
        assert LexFrom(s, pos) == Err(e);
        return Err(e);
    }
    assert tokens + [] == tokens;
    return Ok(tokens);
  }
}
