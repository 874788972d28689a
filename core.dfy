/**
 * Shared vocabulary of the kernel: optional values, results carrying the
 * error kinds of `CstError`, points and vectors over the reals, and the
 * character classes and decimal-digit helpers the text readers rely on.
 */
module Core {

  datatype Option<T> = None | Some(value: T)

  /** The error kinds of `CstError` (cst-core/src/error.rs); the message text is not modelled. */
  datatype ErrorKind = Topology | Geometry | Parse | Io | Tolerance | InvalidOperation | NotFound

  datatype Result<T> = Ok(value: T) | Err(error: ErrorKind)

  /** A point or vector of three real coordinates (`DVec3`). */
  datatype Vec3 = Vec3(x: real, y: real, z: real)

  /** A point of two real coordinates (`DVec2`). */
  datatype Vec2 = Vec2(x: real, y: real)

  const Origin: Vec3 := Vec3(0.0, 0.0, 0.0)

  function Add(a: Vec3, b: Vec3): Vec3 { Vec3(a.x + b.x, a.y + b.y, a.z + b.z) }
  function Sub(a: Vec3, b: Vec3): Vec3 { Vec3(a.x - b.x, a.y - b.y, a.z - b.z) }
  function Scale(a: Vec3, k: real): Vec3 { Vec3(a.x * k, a.y * k, a.z * k) }
  function Dot(a: Vec3, b: Vec3): real { a.x * b.x + a.y * b.y + a.z * b.z }
  function Cross(a: Vec3, b: Vec3): Vec3 {
    Vec3(a.y * b.z - a.z * b.y, a.z * b.x - a.x * b.z, a.x * b.y - a.y * b.x)
  }
  function LengthSquared(a: Vec3): real { Dot(a, a) }

  /** The length of `a` is greater than `limit`, decided without a square root. */
  predicate LongerThan(a: Vec3, limit: real) { limit < 0.0 || LengthSquared(a) > limit * limit }

  /** `a / b`; 0 where the source's float division by zero gives NaN or an infinity. */
  function Quotient(a: real, b: real): real { if b == 0.0 then 0.0 else a / b }

  function MinR(a: real, b: real): real { if a <= b then a else b }
  function MaxR(a: real, b: real): real { if a >= b then a else b }
  function AbsR(a: real): real { if a < 0.0 then -a else a }

  /** Componentwise minimum and maximum. */
  function Min3(a: Vec3, b: Vec3): Vec3 { Vec3(MinR(a.x, b.x), MinR(a.y, b.y), MinR(a.z, b.z)) }
  function Max3(a: Vec3, b: Vec3): Vec3 { Vec3(MaxR(a.x, b.x), MaxR(a.y, b.y), MaxR(a.z, b.z)) }

  /** Componentwise `a <= b`. */
  predicate LessEq3(a: Vec3, b: Vec3) { a.x <= b.x && a.y <= b.y && a.z <= b.z }

  /** Exclusive upper bound of `u64`. */
  const U64Limit: nat := 0x1_0000_0000_0000_0000

  /** Exclusive upper bound of `u32`. */
  const U32Limit: nat := 0x1_0000_0000

  predicate IsDigit(c: char) { '0' <= c <= '9' }

  predicate IsAlpha(c: char) { 'A' <= c <= 'Z' || 'a' <= c <= 'z' }

  predicate AllDigits(s: string) { forall i :: 0 <= i < |s| ==> IsDigit(s[i]) }

  /** `u8::is_ascii_whitespace`: space, tab, line feed, form feed, carriage return. */
  predicate IsAsciiWhitespace(c: char) {
    c == ' ' || c == '\t' || c == '\n' || c == '\U{C}' || c == '\r'
  }

  /** `char::is_whitespace`: the Unicode White_Space property, used by `str::trim`. */
  predicate IsWhitespace(c: char) {
    ('\t' <= c <= '\r') || c == ' ' || c == '\U{85}' || c == '\U{A0}' || c == '\U{1680}'
    || ('\U{2000}' <= c <= '\U{200A}') || c == '\U{2028}' || c == '\U{2029}' || c == '\U{202F}'
    || c == '\U{205F}' || c == '\U{3000}'
  }

  /** `str::trim_start`. */
  function TrimStart(s: string): (r: string)
    ensures |r| <= |s|
  {
    if s != [] && IsWhitespace(s[0]) then TrimStart(s[1..]) else s
  }

  /** `str::trim_end`. */
  function TrimEnd(s: string): (r: string)
    ensures |r| <= |s|
  {
    if s != [] && IsWhitespace(s[|s| - 1]) then TrimEnd(s[..|s| - 1]) else s
  }

  /** `str::trim`. */
  function Trim(s: string): (r: string)
    ensures |r| <= |s|
  {
    TrimEnd(TrimStart(s))
  }

  /** A string with nothing for `trim` to remove. */
  predicate Trimmed(s: string) {
    s == [] || (!IsWhitespace(s[0]) && !IsWhitespace(s[|s| - 1]))
  }

  lemma TrimOfTrimmed(s: string)
    requires Trimmed(s)
    ensures Trim(s) == s
  {
  }

  lemma {:induction false} TrimStartLeaves(s: string)
    ensures var r := TrimStart(s); r == [] || !IsWhitespace(r[0])
    ensures TrimStart(s) == s[|s| - |TrimStart(s)|..]
    decreases |s|
  {
    if s != [] && IsWhitespace(s[0]) {
      TrimStartLeaves(s[1..]);
    }
  }

  lemma {:induction false} TrimEndLeaves(s: string)
    ensures var r := TrimEnd(s); r == [] || !IsWhitespace(r[|r| - 1])
    ensures TrimEnd(s) == s[..|TrimEnd(s)|]
    decreases |s|
  {
    if s != [] && IsWhitespace(s[|s| - 1]) {
      TrimEndLeaves(s[..|s| - 1]);
    }
  }

  /** `trim` leaves no white space at either end, and removes nothing more from a string without any. */
  lemma TrimIsTrimmed(s: string)
    ensures Trimmed(Trim(s))
  {
    var a := TrimStart(s);
    TrimStartLeaves(s);
    TrimEndLeaves(a);
    var r := TrimEnd(a);
    if r != [] {
      assert r[0] == a[0];
    }
  }

  /** Value of a string of decimal digits, most significant first. */
  function DigitsValue(s: string): nat
    requires AllDigits(s)
  {
    if s == [] then 0 else 10 * DigitsValue(s[..|s| - 1]) + (s[|s| - 1] as int - '0' as int)
  }

  /** Decimal rendering of a natural number, without leading zeros. */
  function NatToDigits(n: nat): (r: string)
    ensures |r| > 0 && AllDigits(r)
  {
    var d := ['0' + (n % 10) as char];
    if n < 10 then d else NatToDigits(n / 10) + d
  }

  lemma {:induction false} NatToDigitsValue(n: nat)
    ensures DigitsValue(NatToDigits(n)) == n
  {
    var s := NatToDigits(n);
    if n >= 10 {
      NatToDigitsValue(n / 10);
      assert s[..|s| - 1] == NatToDigits(n / 10);
    }
  }

  /** Parse of an unsigned decimal the way `str::parse::<u64>` does: an optional `+`, then digits only. */
  function ParseU64(s: string): (r: Option<nat>)
    ensures r.Some? ==> r.value < U64Limit
  {
    var d := if s != [] && s[0] == '+' then s[1..] else s;
    if d != [] && AllDigits(d) && DigitsValue(d) < U64Limit then Some(DigitsValue(d)) else None
  }

  lemma ParseU64OfDigits(n: nat)
    requires n < U64Limit
    ensures ParseU64(NatToDigits(n)) == Some(n)
  {
    NatToDigitsValue(n);
  }

  /** The end of the run of decimal digits that starts at `p`. */
  function DigitsEnd(s: string, p: nat): (r: nat)
    requires p <= |s|
    ensures p <= r <= |s| && (r == |s| || !IsDigit(s[r]))
    decreases |s| - p
  {
    if p < |s| && IsDigit(s[p]) then DigitsEnd(s, p + 1) else p
  }

  const I64Min: int := -0x8000_0000_0000_0000
  const I64Max: int := 0x7FFF_FFFF_FFFF_FFFF

  /** Parse of a signed decimal the way `str::parse::<i64>` does: an optional sign, then digits only, in range. */
  function ParseI64(s: string): (r: Option<int>)
    ensures r.Some? ==> I64Min <= r.value <= I64Max
  {
    var signed := s != [] && (s[0] == '+' || s[0] == '-');
    var d := if signed then s[1..] else s;
    if d == [] || !AllDigits(d) then None
    else
      var v: int := if s[0] == '-' then 0 - DigitsValue(d) else DigitsValue(d);
      if I64Min <= v <= I64Max then Some(v) else None
  }

  lemma ParseI64OfDigits(n: nat)
    requires n <= I64Max + 1
    ensures n <= I64Max ==> ParseI64(NatToDigits(n)) == Some(n)
    ensures ParseI64("-" + NatToDigits(n)) == Some(0 - n)
  {
    NatToDigitsValue(n);
    var d := NatToDigits(n);
    assert ("-" + d)[1..] == d;
  }

  function LowerAscii(c: char): char { if 'A' <= c <= 'Z' then (c as int + 32) as char else c }

  function UpperAscii(c: char): char { if 'a' <= c <= 'z' then (c as int - 32) as char else c }

  /** The body of a decimal float: digits with an optional point, at least one digit, then an optional exponent. */
  predicate IsDecimalText(b: string) {
    var i := DigitsEnd(b, 0);
    var j := if i < |b| && b[i] == '.' then DigitsEnd(b, i + 1) else i;
    (i > 0 || j > i + 1) &&
    (j == |b| ||
     ((b[j] == 'e' || b[j] == 'E') &&
      var k := if j + 1 < |b| && (b[j + 1] == '+' || b[j + 1] == '-') then j + 2 else j + 1;
      k < |b| && DigitsEnd(b, k) == |b|))
  }

  /** `inf`, `infinity` or `nan` in any letter case. */
  predicate IsSpecialFloat(b: string) {
    var l := seq(|b|, i requires 0 <= i < |b| => LowerAscii(b[i]));
    l == "inf" || l == "infinity" || l == "nan"
  }

  /** Text that `str::parse::<f64>` accepts: an optional sign, then a decimal or a special value. */
  predicate IsF64Text(s: string) {
    var b := if s != [] && (s[0] == '+' || s[0] == '-') then s[1..] else s;
    IsDecimalText(b) || IsSpecialFloat(b)
  }
}
