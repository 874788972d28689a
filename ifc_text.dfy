/**
 * The raw-text helpers of the IFC reader: splitting an argument list at its
 * top-level commas, taking the entity reference out of one argument, listing
 * every `#n` reference in a text, reading the numbers of a parenthesised
 * list, and cutting an entity line into id, type name and raw arguments.
 *
 * Each character loop is a method proved against a left fold of its step
 * function over the text (`...From`); the folds are then characterised by
 * lemmas that do not mention the step at all: a writer the reader inverts,
 * or a statement of where the text is cut.
 */
module IfcText {
  import opened Core

  // ----- Searching a string -----

  /** `str::find` for one character: the first index holding `c`. */
  function FirstIndex(s: string, c: char): (r: Option<nat>)
    ensures r.Some? ==> r.value < |s| && s[r.value] == c && forall i :: 0 <= i < r.value ==> s[i] != c
    ensures r.None? ==> forall i :: 0 <= i < |s| ==> s[i] != c
  {
    if s == [] then None
    else if s[0] == c then Some(0)
    else match FirstIndex(s[1..], c)
      case None => None
      case Some(k) => Some(k + 1)
  }

  /** `str::rfind` for one character: the last index holding `c`. */
  function LastIndex(s: string, c: char): (r: Option<nat>)
    ensures r.Some? ==> r.value < |s| && s[r.value] == c && forall i :: r.value < i < |s| ==> s[i] != c
    ensures r.None? ==> forall i :: 0 <= i < |s| ==> s[i] != c
  {
    if s == [] then None
    else if s[|s| - 1] == c then Some(|s| - 1)
    else LastIndex(s[..|s| - 1], c)
  }

  // ----- split_ifc_args -----

  /**
   * The state of the argument splitter: the pieces cut off so far (before
   * trimming), the text of the current piece, the parenthesis depth and
   * whether a quoted string is open.
   */
  datatype Splitter = Splitter(raw: seq<string>, current: string, depth: int, inString: bool)

  const SplitStart := Splitter([], [], 0, false)

  /** One character: a quote toggles the string, parentheses outside strings change the depth, and only a comma at depth 0 outside strings cuts. */
  function SplitStep(st: Splitter, ch: char): Splitter {
    if ch == '\'' then st.(inString := !st.inString, current := st.current + [ch])
    else if ch == '(' && !st.inString then st.(depth := st.depth + 1, current := st.current + [ch])
    else if ch == ')' && !st.inString then st.(depth := st.depth - 1, current := st.current + [ch])
    else if ch == ',' && st.depth == 0 && !st.inString then st.(raw := st.raw + [st.current], current := [])
    else st.(current := st.current + [ch])
  }

  function SplitFrom(st: Splitter, s: string): Splitter
    decreases |s|
  {
    if s == [] then st else SplitFrom(SplitStep(st, s[0]), s[1..])
  }

  /** Every piece trimmed, in order. */
  function TrimAll(xs: seq<string>): seq<string> {
    seq(|xs|, i requires 0 <= i < |xs| => Trim(xs[i]))
  }

  /** `split_ifc_args`: the trimmed pieces, the last one dropped when it trims to nothing. */
  function SplitArgs(s: string): seq<string> {
    var st := SplitFrom(SplitStart, s);
    var last := Trim(st.current);
    TrimAll(st.raw) + (if last != [] then [last] else [])
  }

  /** The character loop of `split_ifc_args`. */
  method SplitIfcArgs(rawArgs: string) returns (result: seq<string>)
    ensures result == SplitArgs(rawArgs)
  {
    result := [];
    var current: string := [];
    var depth: int := 0;
    var inString := false;
    ghost var raw: seq<string> := [];
    var i := 0;
    while i < |rawArgs|
      invariant 0 <= i <= |rawArgs|
      invariant result == TrimAll(raw)
      invariant SplitFrom(Splitter(raw, current, depth, inString), rawArgs[i..]) == SplitFrom(SplitStart, rawArgs)
    {
      var ch := rawArgs[i];
      assert rawArgs[i..][0] == ch && rawArgs[i..][1..] == rawArgs[i + 1..];
      if ch == '\'' {
        inString := !inString;
        current := current + [ch];
      } else if ch == '(' && !inString {
        depth := depth + 1;
        current := current + [ch];
      } else if ch == ')' && !inString {
        depth := depth - 1;
        current := current + [ch];
      } else if ch == ',' && depth == 0 && !inString {
        assert TrimAll(raw + [current]) == TrimAll(raw) + [Trim(current)];
        result := result + [Trim(current)];
        raw := raw + [current];
        current := [];
      } else {
        current := current + [ch];
      }
      i := i + 1;
    }
    assert rawArgs[i..] == [];
    var last := Trim(current);
    if last != [] {
      result := result + [last];
    }
  }

  lemma {:induction false} SplitFromConcat(st: Splitter, a: string, b: string)
    ensures SplitFrom(st, a + b) == SplitFrom(SplitFrom(st, a), b)
    decreases |a|
  {
    if a != [] {
      assert (a + b)[0] == a[0] && (a + b)[1..] == a[1..] + b;
      SplitFromConcat(SplitStep(st, a[0]), a[1..], b);
    } else {
      assert a + b == b;
    }
  }

  /** Pieces already cut off are never looked at again. */
  lemma {:induction false} SplitKeepsRaw(r: seq<string>, st: Splitter, s: string)
    ensures SplitFrom(st.(raw := r + st.raw), s) == SplitFrom(st, s).(raw := r + SplitFrom(st, s).raw)
    decreases |s|
  {
    if s != [] {
      var st' := SplitStep(st, s[0]);
      assert SplitStep(st.(raw := r + st.raw), s[0]) == st'.(raw := r + st'.raw);
      SplitKeepsRaw(r, st', s[1..]);
    }
  }

  lemma TrimAllConcat(xs: seq<string>, ys: seq<string>)
    ensures TrimAll(xs + ys) == TrimAll(xs) + TrimAll(ys)
  {
    assert forall i :: 0 <= i < |xs + ys| ==> TrimAll(xs + ys)[i] == (TrimAll(xs) + TrimAll(ys))[i];
  }

  /** The scan of `s` ends at depth 0 outside any quoted string. */
  predicate AtTopLevel(s: string) {
    var st := SplitFrom(SplitStart, s);
    st.depth == 0 && !st.inString
  }

  /** The comma at `i` is one the splitter cuts at. */
  predicate TopLevelComma(s: string, i: nat)
    requires i < |s|
  {
    s[i] == ',' && AtTopLevel(s[..i])
  }

  predicate NoTopLevelComma(s: string) {
    forall i :: 0 <= i < |s| ==> !TopLevelComma(s, i)
  }

  /** Without a comma to cut at, the whole text stays one piece. */
  lemma {:induction false} WholePiece(a: string)
    requires NoTopLevelComma(a)
    ensures SplitFrom(SplitStart, a).raw == [] && SplitFrom(SplitStart, a).current == a
    decreases |a|
  {
    if a != [] {
      var n := |a| - 1;
      var a' := a[..n];
      forall i | 0 <= i < |a'|
        ensures !TopLevelComma(a', i)
      {
        assert a'[..i] == a[..i];
        assert !TopLevelComma(a, i);
      }
      WholePiece(a');
      assert a' + [a[n]] == a;
      SplitFromConcat(SplitStart, a', [a[n]]);
      assert !TopLevelComma(a, n);
    }
  }

  /** A text with no comma to cut at is one trimmed argument, or none when it trims to nothing. */
  lemma NoCommaOneArg(a: string)
    requires NoTopLevelComma(a)
    ensures SplitArgs(a) == if Trim(a) != [] then [Trim(a)] else []
  {
    WholePiece(a);
  }

  /**
   * Cutting at the first top-level comma: the trimmed text before it, then
   * the arguments of the rest, as if the rest stood alone. With
   * `NoCommaOneArg` this determines the split of every text; in particular an
   * empty piece before a comma is kept, while a trailing one is dropped.
   */
  lemma FirstCut(a: string, b: string)
    requires NoTopLevelComma(a) && AtTopLevel(a)
    ensures SplitArgs(a + [','] + b) == [Trim(a)] + SplitArgs(b)
  {
    WholePiece(a);
    SplitFromConcat(SplitStart, a, [',']);
    var st := SplitFrom(SplitStart, a + [',']);
    assert st == Splitter([a], [], 0, false);
    SplitFromConcat(SplitStart, a + [','], b);
    SplitKeepsRaw([a], SplitStart, b);
    assert SplitStart.(raw := [a] + SplitStart.raw) == st by {
      assert [a] + SplitStart.raw == [a];
    }
    var t := SplitFrom(SplitStart, b);
    TrimAllConcat([a], t.raw);
    assert TrimAll([a]) == [Trim(a)] by {
      assert [a][..0] == [];
    }
  }

  // ----- extract_single_ref -----

  /**
   * `extract_single_ref`: `$` or nothing is no reference; otherwise the
   * digits right after the first `#`, when there are any and they fit in 64
   * bits.
   */
  function ExtractSingleRef(arg: string): (r: Option<nat>)
    ensures r.Some? ==> r.value < U64Limit
  {
    var t := Trim(arg);
    if t == "$" || t == [] then None
    else match FirstIndex(t, '#')
      case None => None
      case Some(h) =>
        var d := t[h + 1..DigitsEnd(t, h + 1)];
        if d != [] then ParseU64(d) else None
  }

  lemma {:induction false} DigitsEndOver(s: string, p: nat, d: string)
    requires p + |d| <= |s| && AllDigits(d) && s[p..p + |d|] == d
    requires p + |d| == |s| || !IsDigit(s[p + |d|])
    ensures DigitsEnd(s, p) == p + |d|
    decreases |d|
  {
    if d != [] {
      assert s[p] == d[0];
      assert s[p + 1..p + 1 + |d[1..]|] == d[1..];
      DigitsEndOver(s, p + 1, d[1..]);
    }
  }

  /** `FirstIndex` is the first position holding `c`. */
  lemma FirstIndexIs(s: string, c: char, k: nat)
    requires k < |s| && s[k] == c && forall i :: 0 <= i < k ==> s[i] != c
    ensures FirstIndex(s, c) == Some(k)
  {
  }

  /** `LastIndex` is the last position holding `c`. */
  lemma LastIndexIs(s: string, c: char, k: nat)
    requires k < |s| && s[k] == c && forall i :: k < i < |s| ==> s[i] != c
    ensures LastIndex(s, c) == Some(k)
  {
  }

  /** The reference in a trimmed argument whose first `#` is at `h`, followed by the digits `d`. */
  lemma ExtractAt(t: string, h: nat, d: string)
    requires Trimmed(t) && h < |t| && t[h] == '#' && forall i :: 0 <= i < h ==> t[i] != '#'
    requires h + 1 + |d| <= |t| && t[h + 1..h + 1 + |d|] == d && AllDigits(d)
    requires h + 1 + |d| == |t| || !IsDigit(t[h + 1 + |d|])
    ensures ExtractSingleRef(t) == if d != [] then ParseU64(d) else None
  {
    TrimOfTrimmed(t);
    assert t != "$" by {
      if |t| == 1 { assert t[0] == '#'; }
    }
    FirstIndexIs(t, '#', h);
    DigitsEndOver(t, h + 1, d);
  }

  /**
   * The reference written after text without `#`: `extract_single_ref` finds
   * it, whatever follows the digits.
   */
  lemma ExtractWritten(x: string, n: nat, y: string)
    requires n < U64Limit && Trimmed(x + "#" + NatToDigits(n) + y)
    requires forall i :: 0 <= i < |x| ==> x[i] != '#'
    requires y == [] || !IsDigit(y[0])
    ensures ExtractSingleRef(x + "#" + NatToDigits(n) + y) == Some(n)
  {
    var d := NatToDigits(n);
    var t := x + "#" + d + y;
    var h := |x|;
    assert t[h] == '#';
    assert forall i :: 0 <= i < h ==> t[i] == x[i];
    assert t[h + 1..h + 1 + |d|] == d;
    assert h + 1 + |d| == |t| || t[h + 1 + |d|] == y[0];
    ExtractAt(t, h, d);
    ParseU64OfDigits(n);
  }

  /** Only the first `#` counts: when no digit follows it, later references are not looked for. */
  lemma FirstHashOnly(x: string, y: string)
    requires Trimmed(x + "#" + y)
    requires forall i :: 0 <= i < |x| ==> x[i] != '#'
    requires y == [] || !IsDigit(y[0])
    ensures ExtractSingleRef(x + "#" + y) == None
  {
    var t := x + "#" + y;
    var h := |x|;
    assert t[h] == '#';
    assert forall i :: 0 <= i < h ==> t[i] == x[i];
    assert t[h + 1..h + 1] == [];
    assert h + 1 == |t| || t[h + 1] == y[0];
    ExtractAt(t, h, []);
  }

  /** `$`, an empty argument and text without `#` have no reference. */
  lemma ExtractNone(arg: string)
    requires Trim(arg) == "$" || forall i :: 0 <= i < |Trim(arg)| ==> Trim(arg)[i] != '#'
    ensures ExtractSingleRef(arg) == None
  {
  }

  // ----- parse_entity_refs -----

  /** The state of the reference scan: references found, the digits after the last `#`, and whether a `#` is open. */
  datatype RefScan = RefScan(refs: seq<nat>, num: string, inHash: bool)

  const RefStart := RefScan([], [], false)

  /** The references with the digits `num` added when they parse. */
  function Flush(refs: seq<nat>, num: string): seq<nat> {
    if num != [] && ParseU64(num).Some? then refs + [ParseU64(num).value] else refs
  }

  /** One character: `#` opens a reference, digits extend it, anything else closes it. */
  function RefStep(st: RefScan, ch: char): RefScan {
    if ch == '#' then st.(inHash := true, num := [])
    else if st.inHash then
      if IsDigit(ch) then st.(num := st.num + [ch])
      else RefScan(Flush(st.refs, st.num), [], false)
    else st
  }

  function RefsFrom(st: RefScan, s: string): RefScan
    decreases |s|
  {
    if s == [] then st else RefsFrom(RefStep(st, s[0]), s[1..])
  }

  /** `parse_entity_refs`: the digit run after each `#`, in order, including one that ends the text. */
  function EntityRefs(s: string): seq<nat> {
    var st := RefsFrom(RefStart, s);
    if st.inHash then Flush(st.refs, st.num) else st.refs
  }

  /** The character loop of `parse_entity_refs`. */
  method ParseEntityRefs(rawArgs: string) returns (refs: seq<nat>)
    ensures refs == EntityRefs(rawArgs)
  {
    refs := [];
    var currentNum: string := [];
    var inHash := false;
    var i := 0;
    while i < |rawArgs|
      invariant 0 <= i <= |rawArgs|
      invariant RefsFrom(RefScan(refs, currentNum, inHash), rawArgs[i..]) == RefsFrom(RefStart, rawArgs)
    {
      var ch := rawArgs[i];
      assert rawArgs[i..][0] == ch && rawArgs[i..][1..] == rawArgs[i + 1..];
      if ch == '#' {
        inHash := true;
        currentNum := [];
      } else if inHash {
        if IsDigit(ch) {
          currentNum := currentNum + [ch];
        } else {
          if currentNum != [] {
            if ParseU64(currentNum).Some? {
              refs := refs + [ParseU64(currentNum).value];
            }
            currentNum := [];
          }
          inHash := false;
        }
      }
      i := i + 1;
    }
    assert rawArgs[i..] == [];
    if inHash && currentNum != [] {
      if ParseU64(currentNum).Some? {
        refs := refs + [ParseU64(currentNum).value];
      }
    }
  }

  lemma {:induction false} RefsFromConcat(st: RefScan, a: string, b: string)
    ensures RefsFrom(st, a + b) == RefsFrom(RefsFrom(st, a), b)
    decreases |a|
  {
    if a != [] {
      assert (a + b)[0] == a[0] && (a + b)[1..] == a[1..] + b;
      RefsFromConcat(RefStep(st, a[0]), a[1..], b);
    } else {
      assert a + b == b;
    }
  }

  lemma {:induction false} DigitsCollected(refs: seq<nat>, num: string, d: string)
    requires AllDigits(d)
    ensures RefsFrom(RefScan(refs, num, true), d) == RefScan(refs, num + d, true)
    decreases |d|
  {
    if d != [] {
      assert IsDigit(d[0]);
      assert num + d == (num + [d[0]]) + d[1..];
      DigitsCollected(refs, num + [d[0]], d[1..]);
    } else {
      assert num + d == num;
    }
  }

  /** `#` then the digits of `n` then one more character that is not a digit or `#`: `n` is recorded. */
  lemma OneRef(refs: seq<nat>, n: nat, c: char)
    requires n < U64Limit && !IsDigit(c) && c != '#'
    ensures RefsFrom(RefScan(refs, [], false), "#" + NatToDigits(n) + [c]) == RefScan(refs + [n], [], false)
  {
    var d := NatToDigits(n);
    RefsFromConcat(RefScan(refs, [], false), "#", d + [c]);
    assert RefsFrom(RefScan(refs, [], false), "#") == RefScan(refs, [], true);
    RefsFromConcat(RefScan(refs, [], true), d, [c]);
    DigitsCollected(refs, [], d);
    assert [] + d == d;
    ParseU64OfDigits(n);
    assert "#" + d + [c] == "#" + (d + [c]);
  }

  /** The references `ns` written `#a,#b,...` with no separator after the last one. */
  function RefItems(ns: seq<nat>): string {
    if ns == [] then ""
    else if |ns| == 1 then "#" + NatToDigits(ns[0])
    else "#" + NatToDigits(ns[0]) + "," + RefItems(ns[1..])
  }

  /** The list of references as IFC writes it, `(#a,#b,...)`. */
  function RefList(ns: seq<nat>): string {
    "(" + RefItems(ns) + ")"
  }

  /** A reference followed by `c` is recorded before the rest of the text is read. */
  lemma HeadConsumed(refs: seq<nat>, n: nat, c: char, tail: string)
    requires n < U64Limit && !IsDigit(c) && c != '#'
    ensures RefsFrom(RefScan(refs, [], false), "#" + NatToDigits(n) + [c] + tail) == RefsFrom(RefScan(refs + [n], [], false), tail)
  {
    RefsFromConcat(RefScan(refs, [], false), "#" + NatToDigits(n) + [c], tail);
    OneRef(refs, n, c);
  }

  lemma {:induction false} ItemsCollected(refs: seq<nat>, ns: seq<nat>)
    requires forall i :: 0 <= i < |ns| ==> ns[i] < U64Limit
    ensures RefsFrom(RefScan(refs, [], false), RefItems(ns) + ")") == RefScan(refs + ns, [], false)
    decreases |ns|
  {
    if ns == [] {
      assert RefItems(ns) + ")" == ")";
      assert refs + ns == refs;
    } else if |ns| == 1 {
      LastItemCollected(refs, ns[0]);
      assert ns == [ns[0]];
    } else {
      var tail := ItemsFront(ns);
      ItemsCollected(refs + [ns[0]], ns[1..]);
      ItemsCons(refs, ns, tail);
    }
  }

  lemma ItemsCons(refs: seq<nat>, ns: seq<nat>, tail: string)
    requires |ns| >= 2 && ns[0] < U64Limit
    requires RefItems(ns) + ")" == "#" + NatToDigits(ns[0]) + [','] + tail
    requires RefsFrom(RefScan(refs + [ns[0]], [], false), tail) == RefScan(refs + [ns[0]] + ns[1..], [], false)
    ensures RefsFrom(RefScan(refs, [], false), RefItems(ns) + ")") == RefScan(refs + ns, [], false)
  {
    HeadConsumed(refs, ns[0], ',', tail);
    assert refs + [ns[0]] + ns[1..] == refs + ns;
  }

  lemma LastItemCollected(refs: seq<nat>, n: nat)
    requires n < U64Limit
    ensures RefsFrom(RefScan(refs, [], false), RefItems([n]) + ")") == RefScan(refs + [n], [], false)
  {
    HeadConsumed(refs, n, ')', "");
    assert RefItems([n]) + ")" == "#" + NatToDigits(n) + [')'] + "";
  }

  lemma ItemsFront(ns: seq<nat>) returns (tail: string)
    requires |ns| >= 2
    ensures tail == RefItems(ns[1..]) + ")"
    ensures RefItems(ns) + ")" == "#" + NatToDigits(ns[0]) + [','] + tail
  {
    tail := RefItems(ns[1..]) + ")";
  }

  /** Reading back a written list of references gives exactly those references, in order. */
  lemma RefListRoundTrip(ns: seq<nat>)
    requires forall i :: 0 <= i < |ns| ==> ns[i] < U64Limit
    ensures EntityRefs(RefList(ns)) == ns
  {
    RefsFromConcat(RefStart, "(", RefItems(ns) + ")");
    assert RefList(ns) == "(" + (RefItems(ns) + ")");
    assert RefsFrom(RefStart, "(") == RefStart;
    ItemsCollected([], ns);
    assert [] + ns == ns;
  }

  // ----- parse_real_list -----

  /** The state of the number-list scan: numbers read (as their text), the current item, the depth. */
  datatype RealScan = RealScan(numbers: seq<string>, current: string, depth: int)

  const RealStart := RealScan([], [], 0)

  /** The numbers with the trimmed item added when it is a float `str::parse::<f64>` accepts. */
  function Push(numbers: seq<string>, item: string): seq<string> {
    var t := Trim(item);
    if t != [] && IsF64Text(t) then numbers + [t] else numbers
  }

  /**
   * One character: only a comma at depth 1 or a `)` back to depth 0 ends an
   * item; the `)` does not clear the item's text. Characters at depth 0 are
   * dropped.
   */
  function RealStep(st: RealScan, ch: char): RealScan {
    if ch == '(' then
      RealScan(st.numbers, if st.depth + 1 > 1 then st.current + [ch] else st.current, st.depth + 1)
    else if ch == ')' then
      if st.depth - 1 > 0 then RealScan(st.numbers, st.current + [ch], st.depth - 1)
      else RealScan(Push(st.numbers, st.current), st.current, st.depth - 1)
    else if ch == ',' then
      if st.depth == 1 then RealScan(Push(st.numbers, st.current), [], 1)
      else RealScan(st.numbers, st.current + [ch], st.depth)
    else if st.depth > 0 then st.(current := st.current + [ch])
    else st
  }

  function RealsFrom(st: RealScan, s: string): RealScan
    decreases |s|
  {
    if s == [] then st else RealsFrom(RealStep(st, s[0]), s[1..])
  }

  /** `parse_real_list`, with each number kept as its text. */
  function RealList(s: string): seq<string> {
    RealsFrom(RealStart, s).numbers
  }

  /** The character loop of `parse_real_list`. */
  method ParseRealList(text: string) returns (numbers: seq<string>)
    ensures numbers == RealList(text)
  {
    numbers := [];
    var current: string := [];
    var depth: int := 0;
    var i := 0;
    while i < |text|
      invariant 0 <= i <= |text|
      invariant RealsFrom(RealScan(numbers, current, depth), text[i..]) == RealsFrom(RealStart, text)
    {
      var ch := text[i];
      assert text[i..][0] == ch && text[i..][1..] == text[i + 1..];
      if ch == '(' {
        depth := depth + 1;
        if depth > 1 {
          current := current + [ch];
        }
      } else if ch == ')' {
        depth := depth - 1;
        if depth > 0 {
          current := current + [ch];
        } else {
          var trimmed := Trim(current);
          if trimmed != [] && IsF64Text(trimmed) {
            numbers := numbers + [trimmed];
          }
        }
      } else if ch == ',' {
        if depth == 1 {
          var trimmed := Trim(current);
          if trimmed != [] && IsF64Text(trimmed) {
            numbers := numbers + [trimmed];
          }
          current := [];
        } else {
          current := current + [ch];
        }
      } else if depth > 0 {
        current := current + [ch];
      }
      i := i + 1;
    }
    assert text[i..] == [];
  }

  lemma {:induction false} RealsFromConcat(st: RealScan, a: string, b: string)
    ensures RealsFrom(st, a + b) == RealsFrom(RealsFrom(st, a), b)
    decreases |a|
  {
    if a != [] {
      assert (a + b)[0] == a[0] && (a + b)[1..] == a[1..] + b;
      RealsFromConcat(RealStep(st, a[0]), a[1..], b);
    } else {
      assert a + b == b;
    }
  }

  /** Text without parentheses or commas. */
  predicate Plain(x: string) {
    forall i :: 0 <= i < |x| ==> x[i] != '(' && x[i] != ')' && x[i] != ','
  }

  /** Plain text inside the list only extends the current item. */
  lemma {:induction false} PlainExtends(st: RealScan, x: string)
    requires Plain(x) && st.depth > 0
    ensures RealsFrom(st, x) == st.(current := st.current + x)
    decreases |x|
  {
    if x != [] {
      assert x[0] != '(' && x[0] != ')' && x[0] != ',';
      assert Plain(x[1..]) by {
        assert forall i :: 0 <= i < |x[1..]| ==> x[1..][i] == x[i + 1];
      }
      PlainExtends(RealStep(st, x[0]), x[1..]);
      assert st.current + [x[0]] + x[1..] == st.current + x;
    } else {
      assert st.current + x == st.current;
    }
  }

  /** A number as written in a list: float text with nothing for `trim` to remove and no list punctuation. */
  predicate Number(x: string) {
    x != [] && IsF64Text(x) && Trimmed(x) && Plain(x)
  }

  /** Every item is a number as written in a list. */
  predicate AllNumbers(xs: seq<string>) {
    xs == [] || (Number(xs[0]) && AllNumbers(xs[1..]))
  }

  /** The numbers joined by commas. */
  function Commas(xs: seq<string>): string {
    if xs == [] then ""
    else if |xs| == 1 then xs[0]
    else xs[0] + "," + Commas(xs[1..])
  }

  lemma PushNumber(ns: seq<string>, x: string)
    requires Number(x)
    ensures Push(ns, x) == ns + [x]
  {
    TrimOfTrimmed(x);
  }

  /** A number and the comma after it: the number is recorded and a new item starts. */
  lemma NumberThenComma(ns: seq<string>, x: string, tail: string)
    requires Number(x)
    ensures RealsFrom(RealScan(ns, [], 1), x + "," + tail) == RealsFrom(RealScan(ns + [x], [], 1), tail)
  {
    RealsFromConcat(RealScan(ns, [], 1), x, "," + tail);
    assert x + "," + tail == x + ("," + tail);
    PlainExtends(RealScan(ns, [], 1), x);
    assert [] + x == x;
    RealsFromConcat(RealScan(ns, x, 1), ",", tail);
    PushNumber(ns, x);
  }

  /** The last number and the closing parenthesis. */
  lemma NumberThenClose(ns: seq<string>, x: string)
    requires Number(x)
    ensures RealsFrom(RealScan(ns, [], 1), x + ")") == RealScan(ns + [x], x, 0)
  {
    RealsFromConcat(RealScan(ns, [], 1), x, ")");
    PlainExtends(RealScan(ns, [], 1), x);
    assert [] + x == x;
    PushNumber(ns, x);
  }

  lemma {:induction false} NumbersRead(ns: seq<string>, xs: seq<string>)
    requires xs != [] && AllNumbers(xs)
    ensures RealsFrom(RealScan(ns, [], 1), Commas(xs) + ")") == RealScan(ns + xs, xs[|xs| - 1], 0)
    decreases |xs|
  {
    var x := xs[0];
    if |xs| == 1 {
      NumberThenClose(ns, x);
      assert ns + [x] == ns + xs;
    } else {
      var tail := Commas(xs[1..]) + ")";
      assert Commas(xs) + ")" == x + "," + tail;
      NumberThenComma(ns, x, tail);
      NumbersRead(ns + [x], xs[1..]);
      assert ns + [x] + xs[1..] == ns + xs;
    }
  }

  /** Reading back a written list of numbers gives exactly those numbers, in order; `()` gives none. */
  lemma RealListRoundTrip(xs: seq<string>)
    requires AllNumbers(xs)
    ensures RealList("(" + Commas(xs) + ")") == xs
  {
    RealsFromConcat(RealStart, "(", Commas(xs) + ")");
    assert "(" + Commas(xs) + ")" == "(" + (Commas(xs) + ")");
    assert RealsFrom(RealStart, "(") == RealScan([], [], 1);
    if xs == [] {
      assert Commas(xs) + ")" == ")";
    } else {
      NumbersRead([], xs);
      assert [] + xs == xs;
    }
  }

  /** Texts of floats `str::parse::<f64>` accepts, with nothing for `trim` to remove. */
  predicate FloatTexts(xs: seq<string>) {
    forall i :: 0 <= i < |xs| ==> xs[i] != [] && IsF64Text(xs[i]) && Trimmed(xs[i])
  }

  lemma PushKeepsFloats(numbers: seq<string>, item: string)
    requires FloatTexts(numbers)
    ensures FloatTexts(Push(numbers, item))
  {
    TrimIsTrimmed(item);
  }

  lemma {:induction false} RealsFromKeepsFloats(st: RealScan, s: string)
    requires FloatTexts(st.numbers)
    ensures FloatTexts(RealsFrom(st, s).numbers)
    decreases |s|
  {
    if s != [] {
      PushKeepsFloats(st.numbers, st.current);
      RealsFromKeepsFloats(RealStep(st, s[0]), s[1..]);
    }
  }

  /** Whatever the text, every item of the list is a float text: an item that does not parse is dropped. */
  lemma RealListFloats(s: string)
    ensures FloatTexts(RealList(s))
  {
    RealsFromKeepsFloats(RealStart, s);
  }

  /** A parenthesised group inside the list is not split at its commas: it only becomes part of the current item. */
  lemma NestedGroupJoinsItem(st: RealScan, g: string)
    requires Plain(g) && st.depth == 1
    ensures RealsFrom(st, "(" + g + ")") == st.(current := st.current + "(" + g + ")")
  {
    RealsFromConcat(st, "(", g + ")");
    assert "(" + g + ")" == "(" + (g + ")");
    var st1 := st.(current := st.current + "(", depth := 2);
    assert RealsFrom(st, "(") == st1;
    RealsFromConcat(st1, g, ")");
    PlainExtends(st1, g);
  }

  // ----- parse_entity_line -----

  /** An entity line cut into its parts: `#id = TYPE ( raw arguments ) ;`. */
  datatype RawEntity = RawEntity(id: nat, typeName: string, rawArgs: string)

  /** What the function as written does: return a value, or panic on a slice whose start is past its end. */
  datatype LineOutcome = Returns(entity: Option<RawEntity>) | Panics

  /**
   * `parse_entity_line` as written: the id between the leading character and
   * the first `=`, then the type name and raw arguments from the text after
   * it. The first slice panics when `=` is the first character.
   */
  function ParseEntityLineAsWritten(line: string): (r: LineOutcome)
    ensures '=' !in Trim(line) ==> r == Returns(None)
    ensures Trim(line) != [] && Trim(line)[0] == '=' ==> r == Panics
    ensures r.Returns? && r.entity.Some? ==>
      r.entity.value.id < U64Limit && |r.entity.value.typeName| + |r.entity.value.rawArgs| + 4 <= |Trim(line)|
  {
    var t := Trim(line);
    match FirstIndex(t, '=')
    case None => Returns(None)
    case Some(idEnd) =>
      if idEnd < 1 then Panics
      else
        match ParseU64(Trim(t[1..idEnd]))
        case None => Returns(None)
        case Some(id) => TypeAndArgsAsWritten(id, Trim(t[idEnd + 1..]))
  }

  /**
   * The text after `=` as written: the type name before the first `(` and
   * the raw arguments between it and the last `)`. The slice panics when the
   * last `)` comes before the first `(`.
   */
  function TypeAndArgsAsWritten(id: nat, rest: string): (r: LineOutcome)
    ensures r.Returns? && r.entity.Some? ==>
      r.entity.value.id == id && |r.entity.value.typeName| + |r.entity.value.rawArgs| + 2 <= |rest|
  {
    match FirstIndex(rest, '(')
    case None => Returns(None)
    case Some(open) =>
      match LastIndex(rest, ')')
      case None => Returns(None)
      case Some(close) =>
        if close < open + 1 then Panics
        else Returns(Some(RawEntity(id, Trim(rest[..open]), rest[open + 1..close])))
  }

  /** `parse_entity_line` with the two slice panics replaced by "not an entity line". */
  function ParseEntityLine(line: string): (r: Option<RawEntity>)
    ensures '=' !in Trim(line) ==> r == None
    ensures Trim(line) != [] && Trim(line)[0] == '=' ==> r == None
    ensures r.Some? ==> r.value.id < U64Limit && |r.value.typeName| + |r.value.rawArgs| + 4 <= |Trim(line)|
  {
    var t := Trim(line);
    match FirstIndex(t, '=')
    case None => None
    case Some(idEnd) =>
      if idEnd < 1 then None
      else
        match ParseU64(Trim(t[1..idEnd]))
        case None => None
        case Some(id) => TypeAndArgs(id, Trim(t[idEnd + 1..]))
  }

  /** The text after `=` with the reversed slice read as "not an entity line". */
  function TypeAndArgs(id: nat, rest: string): (r: Option<RawEntity>)
    ensures r.Some? ==> r.value.id == id && |r.value.typeName| + |r.value.rawArgs| + 2 <= |rest|
  {
    match FirstIndex(rest, '(')
    case None => None
    case Some(open) =>
      match LastIndex(rest, ')')
      case None => None
      case Some(close) =>
        if close < open + 1 then None
        else Some(RawEntity(id, Trim(rest[..open]), rest[open + 1..close]))
  }

  /** The corrected reading agrees with the function as written wherever that does not panic. */
  lemma CorrectedAgrees(line: string)
    ensures ParseEntityLineAsWritten(line).Returns? ==> ParseEntityLine(line) == ParseEntityLineAsWritten(line).entity
    ensures ParseEntityLineAsWritten(line).Panics? ==> ParseEntityLine(line) == None
  {
  }

  /** A line the entity reader keeps: it starts with `#`. */
  predicate StartsWithHash(line: string) {
    |line| > 0 && line[0] == '#'
  }

  /** Accumulated text the entity reader hands on: it ends with `;`. */
  predicate EndsWithSemicolon(text: string) {
    |text| > 0 && text[|text| - 1] == ';'
  }

  /** What can reach `parse_entity_line` from the reader: text starting with `#` and ending with `;`. */
  predicate PassesLineFilter(text: string) {
    StartsWithHash(text) && EndsWithSemicolon(text)
  }

  /**
   * The texts the line loop of `parse_ifc_entities` hands to
   * `parse_entity_line`, given the text `current` accumulated so far: a line
   * not starting with `#` is skipped, any other is appended, and the
   * accumulated text is handed on (and cleared) once it ends with `;`.
   */
  function EntityTexts(lines: seq<string>, current: string): (r: seq<string>)
    ensures forall k :: 0 <= k < |r| ==> EndsWithSemicolon(r[k])
    ensures current == [] || StartsWithHash(current) ==> forall k :: 0 <= k < |r| ==> StartsWithHash(r[k])
    ensures |r| <= |lines|
  {
    if lines == [] then []
    else if !StartsWithHash(lines[0]) then EntityTexts(lines[1..], current)
    else
      var text := current + lines[0];
      assert current == [] || StartsWithHash(current) ==> StartsWithHash(text) by {
        if current != [] { assert text[0] == current[0]; } else { assert text == lines[0]; }
      }
      if EndsWithSemicolon(text) then [text] + EntityTexts(lines[1..], "")
      else EntityTexts(lines[1..], text)
  }

  /**
   * The line loop of `parse_ifc_entities`, without the file reading and the
   * entity table: the texts it hands to `parse_entity_line`, in order.
   */
  method CollectEntityTexts(lines: seq<string>) returns (texts: seq<string>)
    ensures texts == EntityTexts(lines, "")
    ensures forall k :: 0 <= k < |texts| ==> PassesLineFilter(texts[k])
  {
    texts := [];
    var current := "";
    var i := 0;
    while i < |lines|
      invariant 0 <= i <= |lines|
      invariant current == [] || StartsWithHash(current)
      invariant texts + EntityTexts(lines[i..], current) == EntityTexts(lines, "")
    {
      var line := lines[i];
      assert lines[i..][1..] == lines[i + 1..];
      i := i + 1;
      if !StartsWithHash(line) {
        continue;
      }
      current := current + line;
      if !EndsWithSemicolon(current) {
        continue;
      }
      texts := texts + [current];
      current := "";
    }
  }

  /** A complete one-line entity is handed on unchanged, whatever precedes it outside entity lines. */
  lemma {:induction false} OneLineHandedOn(before: seq<string>, line: string)
    requires forall k :: 0 <= k < |before| ==> !StartsWithHash(before[k])
    requires PassesLineFilter(line)
    ensures EntityTexts(before + [line], "") == [line]
  {
    var ls := before + [line];
    if before == [] {
      assert ls == [line] && ls[1..] == [];
      assert "" + line == line;
    } else {
      assert ls[0] == before[0] && !StartsWithHash(ls[0]);
      assert ls[1..] == before[1..] + [line];
      OneLineHandedOn(before[1..], line);
    }
  }

  /**
   * A continuation line that does not start with `#` is dropped, so an
   * entity split over two lines runs into the next entity line.
   */
  lemma ContinuationDropped()
    ensures EntityTexts(["#5=A(1,", "2);", "#6=B(3);"], "") == ["#5=A(1,#6=B(3);"]
  {
    var ls := ["#5=A(1,", "2);", "#6=B(3);"];
    assert ls[1..] == ["2);", "#6=B(3);"] && ls[1..][1..] == ["#6=B(3);"];
    assert "" + ls[0] == ls[0];
    assert ls[0] + "#6=B(3);" == "#5=A(1,#6=B(3);";
    assert ["#6=B(3);"][1..] == [];
  }

  /** The line of the finding below, alone in a file, reaches `parse_entity_line` unchanged. */
  lemma FindingLineHandedOn()
    ensures EntityTexts(["#1=A)(;"], "") == ["#1=A)(;"]
  {
    assert PassesLineFilter("#1=A)(;");
    OneLineHandedOn([], "#1=A)(;");
    assert [] + ["#1=A)(;"] == ["#1=A)(;"];
  }

  /** A line the reader can be handed (it starts with `#` and ends with `;`) on which the function as written panics. */
  lemma CloseBeforeOpenPanics()
    ensures PassesLineFilter("#1=A)(;")
    ensures ParseEntityLineAsWritten("#1=A)(;") == Panics
    ensures ParseEntityLine("#1=A)(;") == None
  {
    var t := "#1=A)(;";
    TrimOfTrimmed(t);
    FirstIndexIs(t, '=', 2);
    assert t[1..2] == "1";
    TrimOfTrimmed("1");
    assert ParseU64("1") == Some(1) by {
      assert DigitsValue("1") == 1 by {
        assert "1"[..0] == [];
      }
    }
    var rest := t[3..];
    assert rest == "A)(;";
    TrimOfTrimmed(rest);
    FirstIndexIs(rest, '(', 2);
    LastIndexIs(rest, ')', 1);
  }

  /** A type name as it stands in an entity line. */
  predicate TypeName(name: string) {
    Trimmed(name) && forall i :: 0 <= i < |name| ==> name[i] != '(' && name[i] != '='
  }

  /** An entity line as written to an IFC file. */
  function EntityLine(e: RawEntity): string {
    "#" + NatToDigits(e.id) + "=" + e.typeName + "(" + e.rawArgs + ");"
  }

  /** The part of a written line after `=`: the type name and the raw arguments are cut back out of it. */
  lemma AfterEquals(rest: string, name: string, args: string)
    requires TypeName(name) && rest == name + "(" + args + ");"
    ensures Trim(rest) == rest
    ensures FirstIndex(rest, '(') == Some(|name|)
    ensures LastIndex(rest, ')') == Some(|rest| - 2)
    ensures Trim(rest[..|name|]) == name && rest[|name| + 1..|rest| - 2] == args
  {
    RestTrimmed(rest, name, args);
    NameBeforeParen(rest, name, args);
    CloseBeforeSemicolon(rest, name, args);
    NameAndArgs(rest, name, args);
  }

  lemma CloseBeforeSemicolon(rest: string, name: string, args: string)
    requires TypeName(name) && rest == name + "(" + args + ");"
    ensures LastIndex(rest, ')') == Some(|rest| - 2)
  {
    LastIndexIs(rest, ')', |rest| - 2);
  }

  lemma NameAndArgs(rest: string, name: string, args: string)
    requires TypeName(name) && rest == name + "(" + args + ");"
    ensures Trim(rest[..|name|]) == name && rest[|name| + 1..|rest| - 2] == args
  {
    assert rest[..|name|] == name;
    TrimOfTrimmed(name);
  }

  lemma RestTrimmed(rest: string, name: string, args: string)
    requires TypeName(name) && rest == name + "(" + args + ");"
    ensures Trim(rest) == rest
  {
    assert rest[|rest| - 1] == ';';
    if name == [] { assert rest[0] == '('; } else { assert rest[0] == name[0]; }
    TrimOfTrimmed(rest);
  }

  lemma NameBeforeParen(rest: string, name: string, args: string)
    requires TypeName(name) && rest == name + "(" + args + ");"
    ensures FirstIndex(rest, '(') == Some(|name|)
  {
    assert forall i :: 0 <= i < |name| ==> rest[i] == name[i];
    FirstIndexIs(rest, '(', |name|);
  }

  /** A written line up to `=`: the id is cut back out of it. */
  lemma BeforeEquals(line: string, n: nat, rest: string)
    requires n < U64Limit && line == "#" + NatToDigits(n) + "=" + rest
    requires rest != [] && !IsWhitespace(rest[|rest| - 1])
    ensures Trim(line) == line
    ensures FirstIndex(line, '=') == Some(|NatToDigits(n)| + 1)
    ensures ParseU64(Trim(line[1..|NatToDigits(n)| + 1])) == Some(n)
    ensures line[|NatToDigits(n)| + 2..] == rest
  {
    LineTrimmed(line, n, rest);
    EqualsAfterId(line, n, rest);
    IdBeforeEquals(line, n, rest);
  }

  lemma LineTrimmed(line: string, n: nat, rest: string)
    requires line == "#" + NatToDigits(n) + "=" + rest
    requires rest != [] && !IsWhitespace(rest[|rest| - 1])
    ensures Trim(line) == line
  {
    assert line[0] == '#' && line[|line| - 1] == rest[|rest| - 1];
    TrimOfTrimmed(line);
  }

  lemma EqualsAfterId(line: string, n: nat, rest: string)
    requires line == "#" + NatToDigits(n) + "=" + rest
    ensures FirstIndex(line, '=') == Some(|NatToDigits(n)| + 1)
    ensures line[|NatToDigits(n)| + 2..] == rest
  {
    var d := NatToDigits(n);
    assert forall i :: 1 <= i < |d| + 1 ==> line[i] == d[i - 1];
    FirstIndexIs(line, '=', |d| + 1);
  }

  lemma IdBeforeEquals(line: string, n: nat, rest: string)
    requires n < U64Limit && line == "#" + NatToDigits(n) + "=" + rest
    ensures ParseU64(Trim(line[1..|NatToDigits(n)| + 1])) == Some(n)
  {
    var d := NatToDigits(n);
    assert line[1..|d| + 1] == d;
    assert Trimmed(d);
    TrimOfTrimmed(d);
    ParseU64OfDigits(n);
  }

  /** `line`'s `=` stands at k, `rest` follows it, and its first `(` and last `)` enclose `e`'s pieces. */
  predicate Pieces(line: string, k: nat, rest: string, open: nat, close: nat, e: RawEntity) {
    Trim(line) == line && FirstIndex(line, '=') == Some(k) && 1 <= k <= |line| &&
    ParseU64(Trim(line[1..k])) == Some(e.id) && line[k + 1..] == rest && Trim(rest) == rest &&
    FirstIndex(rest, '(') == Some(open) && LastIndex(rest, ')') == Some(close) && open < close <= |rest| &&
    Trim(rest[..open]) == e.typeName && rest[open + 1..close] == e.rawArgs
  }

  /** How both readings put an entity line together once its delimiters have been found. */
  lemma ReadPieces(line: string, k: nat, rest: string, open: nat, close: nat, e: RawEntity)
    requires Pieces(line, k, rest, open, close, e)
    ensures ParseEntityLine(line) == Some(e)
    ensures ParseEntityLineAsWritten(line) == Returns(Some(e))
  {
    ReadCorrected(line, k, rest, open, close, e);
    ReadAsWritten(line, k, rest, open, close, e);
  }

  lemma ReadCorrected(line: string, k: nat, rest: string, open: nat, close: nat, e: RawEntity)
    requires Pieces(line, k, rest, open, close, e)
    ensures ParseEntityLine(line) == Some(e)
  {
    assert TypeAndArgs(e.id, rest) == Some(e) by {
      assert RawEntity(e.id, Trim(rest[..open]), rest[open + 1..close]) == e;
    }
    LineUnfold(line, k, e.id, rest);
  }

  lemma ReadAsWritten(line: string, k: nat, rest: string, open: nat, close: nat, e: RawEntity)
    requires Pieces(line, k, rest, open, close, e)
    ensures ParseEntityLineAsWritten(line) == Returns(Some(e))
  {
    assert TypeAndArgsAsWritten(e.id, rest) == Returns(Some(e)) by {
      assert RawEntity(e.id, Trim(rest[..open]), rest[open + 1..close]) == e;
    }
    LineUnfold(line, k, e.id, rest);
  }

  /** Once `=` and the id are found, both readings continue with the text after `=`. */
  lemma LineUnfold(line: string, k: nat, id: nat, rest: string)
    requires Trim(line) == line && FirstIndex(line, '=') == Some(k) && 1 <= k < |line|
    requires ParseU64(Trim(line[1..k])) == Some(id) && Trim(line[k + 1..]) == rest
    ensures ParseEntityLine(line) == TypeAndArgs(id, rest)
    ensures ParseEntityLineAsWritten(line) == TypeAndArgsAsWritten(id, rest)
  {
    LineUnfoldAt(line, Trim(line), k, id, rest);
    LineUnfoldAsWritten(line, Trim(line), k, id, rest);
  }

  lemma LineUnfoldAt(line: string, t: string, k: nat, id: nat, rest: string)
    requires t == Trim(line) && FirstIndex(t, '=') == Some(k) && 1 <= k < |t|
    requires ParseU64(Trim(t[1..k])) == Some(id) && Trim(t[k + 1..]) == rest
    ensures ParseEntityLine(line) == TypeAndArgs(id, rest)
  {
  }

  lemma LineUnfoldAsWritten(line: string, t: string, k: nat, id: nat, rest: string)
    requires t == Trim(line) && FirstIndex(t, '=') == Some(k) && 1 <= k < |t|
    requires ParseU64(Trim(t[1..k])) == Some(id) && Trim(t[k + 1..]) == rest
    ensures ParseEntityLineAsWritten(line) == TypeAndArgsAsWritten(id, rest)
  {
  }

  /**
   * Reading back a written entity line gives the entity: any raw arguments,
   * including nested parentheses, `=` and `;`, survive, because only the
   * first `(` and the last `)` delimit them.
   */
  lemma EntityLineRoundTrip(e: RawEntity)
    requires e.id < U64Limit && TypeName(e.typeName)
    ensures ParseEntityLine(EntityLine(e)) == Some(e)
    ensures ParseEntityLineAsWritten(EntityLine(e)) == Returns(Some(e))
  {
    var k, rest := WrittenDelimiters(e);
    PiecesRead(EntityLine(e), e);
  }

  /** `ReadPieces` for whatever delimiters a line has, so that callers need not restate them. */
  lemma PiecesRead(line: string, e: RawEntity)
    ensures forall k: nat, rest: string, open: nat, close: nat :: Pieces(line, k, rest, open, close, e) ==>
      ParseEntityLine(line) == Some(e) && ParseEntityLineAsWritten(line) == Returns(Some(e))
  {
    forall k: nat, rest: string, open: nat, close: nat | Pieces(line, k, rest, open, close, e)
      ensures ParseEntityLine(line) == Some(e) && ParseEntityLineAsWritten(line) == Returns(Some(e))
    {
      ReadPieces(line, k, rest, open, close, e);
    }
  }

  /** Where the delimiters of a written entity line stand, and what lies between them. */
  lemma WrittenDelimiters(e: RawEntity) returns (k: nat, rest: string)
    requires e.id < U64Limit && TypeName(e.typeName)
    ensures |rest| >= 2 && Pieces(EntityLine(e), k, rest, |e.typeName|, |rest| - 2, e)
  {
    rest := e.typeName + "(" + e.rawArgs + ");";
    k := |NatToDigits(e.id)| + 1;
    assert EntityLine(e) == "#" + NatToDigits(e.id) + "=" + rest;
    BeforeEquals(EntityLine(e), e.id, rest);
    AfterEquals(rest, e.typeName, e.rawArgs);
  }
}
