/**
 * What the STEP parser reads back: a writer from a `StepFile` to tokens, the
 * proof that the parser returns exactly the file written (attributes nested
 * to any depth, entities in order, the three header entries), and, with the
 * lexer's own round trip, that `parse_step` of the written text gives the
 * file back.
 */
module StepParserPrint {
  import opened Core
  import L = StepLexer
  import LP = StepLexerPrint
  import opened StepParser

  // ----- Token runs -----

  /** `ts` holds `x` at `p`. */
  predicate TokensAt(ts: seq<L.Token>, p: nat, x: seq<L.Token>) {
    p + |x| <= |ts| && forall i {:trigger x[i]} :: 0 <= i < |x| ==> ts[p + i] == x[i]
  }

  lemma TokensAtSplit(ts: seq<L.Token>, p: nat, a: seq<L.Token>, b: seq<L.Token>)
    requires TokensAt(ts, p, a + b)
    ensures TokensAt(ts, p, a) && TokensAt(ts, p + |a|, b)
  {
    forall i | 0 <= i < |a| ensures ts[p + i] == a[i] {
      assert (a + b)[i] == a[i];
    }
    forall i | 0 <= i < |b| ensures ts[p + |a| + i] == b[i] {
      assert (a + b)[|a| + i] == b[i];
    }
  }

  // ----- Writing a file as tokens -----

  function AttrTokens(a: Attribute): (r: seq<L.Token>)
    ensures |r| > 0 && r[0] != L.CloseParen && r[0] != L.Comma
    decreases a
  {
    match a
    case Integer(v) => [L.Integer(v)]
    case Real(text) => [L.Real(text)]
    case String(text) => [L.String(text)]
    case Bool(b) => [L.Bool(b)]
    case Enum(name) => [L.Enum(name)]
    case EntityRef(n) => [L.EntityId(n)]
    case List(items) => [L.OpenParen] + ItemsTokens(items) + [L.CloseParen]
    case Null => [L.Null]
    case Derived => [L.Derived]
  }

  /** List items separated by commas. */
  function ItemsTokens(items: seq<Attribute>): seq<L.Token>
    decreases items
  {
    if items == [] then [] else AttrTokens(items[0]) + TailTokens(items[1..])
  }

  /** A comma before each item. */
  function TailTokens(xs: seq<Attribute>): seq<L.Token>
    decreases xs
  {
    if xs == [] then [] else [L.Comma] + AttrTokens(xs[0]) + TailTokens(xs[1..])
  }

  function EntityTokens(e: Entity): seq<L.Token> {
    [L.EntityId(e.id), L.Equals, L.Keyword(e.typeName), L.OpenParen] + ItemsTokens(e.attributes) + [L.CloseParen, L.Semicolon]
  }

  function DataTokens(es: seq<Entity>): seq<L.Token> {
    if es == [] then [] else EntityTokens(es[0]) + DataTokens(es[1..])
  }

  /** Strings separated by commas. */
  function StringItems(ss: seq<string>): seq<L.Token> {
    if ss == [] then []
    else if |ss| == 1 then [L.String(ss[0])]
    else [L.String(ss[0]), L.Comma] + StringItems(ss[1..])
  }

  /** A header entry `KEYWORD ( 'a', 'b' ) ;`. */
  function EntryTokens(kw: string, ss: seq<string>): seq<L.Token> {
    [L.Keyword(kw), L.OpenParen] + StringItems(ss) + [L.CloseParen, L.Semicolon]
  }

  function HeaderTokens(h: Header): seq<L.Token> {
    [L.Keyword("HEADER"), L.Semicolon]
    + (EntryTokens("FILE_DESCRIPTION", h.description)
    + (EntryTokens("FILE_NAME", h.fileName)
    + (EntryTokens("FILE_SCHEMA", h.fileSchema)
    + [L.Keyword("ENDSEC"), L.Semicolon])))
  }

  function FileTokens(f: StepFile): seq<L.Token> {
    [L.Keyword("ISO-10303-21"), L.Semicolon]
    + (HeaderTokens(f.header)
    + ([L.Keyword("DATA"), L.Semicolon]
    + ((DataTokens(f.entities) + [L.Keyword("ENDSEC"), L.Semicolon])
    + [L.Keyword("END-ISO-10303-21"), L.Semicolon])))
  }

  // ----- Reading attributes back -----

  lemma {:induction false} AttrRoundTrip(ts: seq<L.Token>, p: nat, a: Attribute)
    requires TokensAt(ts, p, AttrTokens(a))
    ensures AttributeAt(ts, p) == Ok(Parsed(a, p + |AttrTokens(a)|))
    decreases a
  {
    assert ts[p + 0] == AttrTokens(a)[0];
    if a.List? {
      var x := ItemsTokens(a.items);
      assert AttrTokens(a) == [L.OpenParen] + x + [L.CloseParen];
      TokensAtSplit(ts, p, [L.OpenParen] + x, [L.CloseParen]);
      TokensAtSplit(ts, p, [L.OpenParen], x);
      assert ts[p + 1 + |x| + 0] == [L.CloseParen][0];
      ItemsRoundTrip(ts, p + 1, a.items);
    }
  }

  lemma {:induction false} ItemsRoundTrip(ts: seq<L.Token>, p: nat, items: seq<Attribute>)
    requires TokensAt(ts, p, ItemsTokens(items)) && TokenAt(ts, p + |ItemsTokens(items)|, L.CloseParen)
    ensures ListAt(ts, p) == Ok(Parsed(items, p + |ItemsTokens(items)|))
    decreases items
  {
    if items != [] {
      var x, y := AttrTokens(items[0]), TailTokens(items[1..]);
      TokensAtSplit(ts, p, x, y);
      assert ts[p + 0] == x[0];
      AttrRoundTrip(ts, p, items[0]);
      TailRoundTrip(ts, p + |x|, items[1..]);
      assert [items[0]] + items[1..] == items;
    }
  }

  lemma {:induction false} TailRoundTrip(ts: seq<L.Token>, p: nat, xs: seq<Attribute>)
    requires TokensAt(ts, p, TailTokens(xs)) && TokenAt(ts, p + |TailTokens(xs)|, L.CloseParen)
    ensures MoreAt(ts, p) == Ok(Parsed(xs, p + |TailTokens(xs)|))
    decreases xs
  {
    if xs != [] {
      var q := TailRest(ts, p, xs);
      AttrRoundTrip(ts, p + 1, xs[0]);
      TailRoundTrip(ts, q, xs[1..]);
      TailCons(ts, p, xs, q, p + |TailTokens(xs)|);
    } else {
      assert !TokenAt(ts, p, L.Comma);
    }
  }

  /** Where the comma, the first attribute and the rest of a written tail lie. */
  lemma TailRest(ts: seq<L.Token>, p: nat, xs: seq<Attribute>) returns (q: nat)
    requires xs != [] && TokensAt(ts, p, TailTokens(xs)) && TokenAt(ts, p + |TailTokens(xs)|, L.CloseParen)
    ensures TokenAt(ts, p, L.Comma) && TokensAt(ts, p + 1, AttrTokens(xs[0]))
    ensures q == p + 1 + |AttrTokens(xs[0])| && q + |TailTokens(xs[1..])| == p + |TailTokens(xs)|
    ensures TokensAt(ts, q, TailTokens(xs[1..])) && TokenAt(ts, q + |TailTokens(xs[1..])|, L.CloseParen)
  {
    q := p + 1 + |AttrTokens(xs[0])|;
    TailParts(ts, p, xs, AttrTokens(xs[0]), TailTokens(xs[1..]));
  }

  /** A comma, the first attribute and the rest read as the whole tail. */
  lemma TailCons(ts: seq<L.Token>, p: nat, xs: seq<Attribute>, q: nat, r: nat)
    requires xs != [] && TokenAt(ts, p, L.Comma) && AttributeAt(ts, p + 1) == Ok(Parsed(xs[0], q))
    requires q <= |ts| && MoreAt(ts, q) == Ok(Parsed(xs[1..], r))
    ensures MoreAt(ts, p) == Ok(Parsed(xs, r))
  {
    MoreStep(ts, p, xs[0], q, xs[1..], r);
    ConsFront(xs);
  }

  lemma ConsFront<T>(xs: seq<T>)
    requires xs != []
    ensures [xs[0]] + xs[1..] == xs
  {
  }

  /** Where the comma, the first attribute `x` and the rest `y` of a written tail lie. */
  lemma TailParts(ts: seq<L.Token>, p: nat, xs: seq<Attribute>, x: seq<L.Token>, y: seq<L.Token>)
    requires xs != [] && x == AttrTokens(xs[0]) && y == TailTokens(xs[1..]) && TokensAt(ts, p, TailTokens(xs))
    ensures |TailTokens(xs)| == 1 + |x| + |y| && TokenAt(ts, p, L.Comma) && TokensAt(ts, p + 1, x) && TokensAt(ts, p + 1 + |x|, y)
  {
    assert TailTokens(xs) == [L.Comma] + x + y;
    CommaThen(ts, p, x, y);
  }

  lemma CommaThen(ts: seq<L.Token>, p: nat, x: seq<L.Token>, y: seq<L.Token>)
    requires TokensAt(ts, p, [L.Comma] + x + y)
    ensures TokenAt(ts, p, L.Comma) && TokensAt(ts, p + 1, x) && TokensAt(ts, p + 1 + |x|, y)
  {
    TokensAtSplit(ts, p, [L.Comma] + x, y);
    TokensAtSplit(ts, p, [L.Comma], x);
    assert ts[p + 0] == [L.Comma][0];
  }

  /** A comma, an attribute and the attributes after it read as one more attribute. */
  lemma MoreStep(ts: seq<L.Token>, p: nat, a: Attribute, q: nat, rest: seq<Attribute>, r: nat)
    requires TokenAt(ts, p, L.Comma) && AttributeAt(ts, p + 1) == Ok(Parsed(a, q))
    requires q <= |ts| && MoreAt(ts, q) == Ok(Parsed(rest, r))
    ensures MoreAt(ts, p) == Ok(Parsed([a] + rest, r))
  {
  }

  // ----- Reading entities and the data section back -----

  lemma EntityRoundTrip(ts: seq<L.Token>, p: nat, e: Entity)
    requires TokensAt(ts, p, EntityTokens(e))
    ensures EntityAt(ts, p) == Ok(Parsed(e, p + |EntityTokens(e)|))
  {
    var head := [L.EntityId(e.id), L.Equals, L.Keyword(e.typeName), L.OpenParen];
    var x := ItemsTokens(e.attributes);
    TokensAtSplit(ts, p, head + x, [L.CloseParen, L.Semicolon]);
    TokensAtSplit(ts, p, head, x);
    assert ts[p + 0] == head[0] && ts[p + 1] == head[1] && ts[p + 2] == head[2] && ts[p + 3] == head[3];
    var q := p + 4 + |x|;
    assert ts[q + 0] == [L.CloseParen, L.Semicolon][0] && ts[q + 1] == [L.CloseParen, L.Semicolon][1];
    ItemsRoundTrip(ts, p + 4, e.attributes);
  }

  lemma {:induction false} DataRoundTrip(ts: seq<L.Token>, p: nat, es: seq<Entity>)
    requires TokensAt(ts, p, DataTokens(es)) && TokensAt(ts, p + |DataTokens(es)|, [L.Keyword("ENDSEC"), L.Semicolon])
    ensures DataAt(ts, p) == Ok(Parsed(es, p + |DataTokens(es)| + 2))
    decreases es
  {
    if es == [] {
      DataEnd(ts, p);
    } else {
      var x, y := EntityTokens(es[0]), DataTokens(es[1..]);
      DataParts(ts, p, es, x, y);
      var q := p + |x|;
      DataRoundTrip(ts, q, es[1..]);
      DataCons(ts, p, es, q, q + |y| + 2);
    }
  }

  /** A written entity followed by a data section that reads back as the rest reads back as the whole. */
  lemma DataCons(ts: seq<L.Token>, p: nat, es: seq<Entity>, q: nat, r: nat)
    requires es != [] && TokensAt(ts, p, EntityTokens(es[0])) && q == p + |EntityTokens(es[0])|
    requires q <= |ts| && DataAt(ts, q) == Ok(Parsed(es[1..], r))
    ensures DataAt(ts, p) == Ok(Parsed(es, r))
  {
    assert ts[p + 0] == EntityTokens(es[0])[0];
    EntityRoundTrip(ts, p, es[0]);
    DataStep(ts, p, es[0], q, es[1..], r);
    assert [es[0]] + es[1..] == es;
  }

  /** `ENDSEC ;` ends the data section. */
  lemma DataEnd(ts: seq<L.Token>, p: nat)
    requires TokensAt(ts, p, [L.Keyword("ENDSEC"), L.Semicolon])
    ensures DataAt(ts, p) == Ok(Parsed([], p + 2))
  {
    var end := [L.Keyword("ENDSEC"), L.Semicolon];
    assert ts[p + 0] == end[0] && ts[p + 1] == end[1];
  }

  /** Where the first written entity `x` and the rest `y` of a data section lie. */
  lemma DataParts(ts: seq<L.Token>, p: nat, es: seq<Entity>, x: seq<L.Token>, y: seq<L.Token>)
    requires es != [] && x == EntityTokens(es[0]) && y == DataTokens(es[1..]) && TokensAt(ts, p, DataTokens(es))
    ensures |DataTokens(es)| == |x| + |y| && TokensAt(ts, p, x) && TokensAt(ts, p + |x|, y)
  {
    assert DataTokens(es) == x + y;
    TokensAtSplit(ts, p, x, y);
  }

  /** An entity and the entities after it read as one more entity of the data section. */
  lemma DataStep(ts: seq<L.Token>, p: nat, e: Entity, q: nat, rest: seq<Entity>, r: nat)
    requires p < |ts| && ts[p].EntityId? && EntityAt(ts, p) == Ok(Parsed(e, q))
    requires q <= |ts| && DataAt(ts, q) == Ok(Parsed(rest, r))
    ensures DataAt(ts, p) == Ok(Parsed([e] + rest, r))
  {
  }

  // ----- Reading the header back -----

  lemma {:induction false} StringsRoundTrip(ts: seq<L.Token>, p: nat, ss: seq<string>)
    requires TokensAt(ts, p, StringItems(ss) + [L.CloseParen])
    ensures StringsAt(ts, p, 1) == Parsed(ss, p + |StringItems(ss)| + 1)
    decreases ss
  {
    var x := StringItems(ss);
    assert ts[p + 0] == (x + [L.CloseParen])[0];
    if |ss| == 1 {
      assert ts[p + 1] == (x + [L.CloseParen])[1];
      assert StringsAt(ts, p + 1, 1) == Parsed([], p + 2);
      assert [ss[0]] + [] == ss;
    } else if |ss| > 1 {
      var y := StringItems(ss[1..]);
      assert x + [L.CloseParen] == [L.String(ss[0]), L.Comma] + (y + [L.CloseParen]);
      TokensAtSplit(ts, p, [L.String(ss[0]), L.Comma], y + [L.CloseParen]);
      assert ts[p + 1] == [L.String(ss[0]), L.Comma][1];
      StringsRoundTrip(ts, p + 2, ss[1..]);
      assert StringsAt(ts, p + 1, 1) == StringsAt(ts, p + 2, 1);
      assert [ss[0]] + ss[1..] == ss;
    }
  }

  /** One written header entry records its strings and moves past them. */
  lemma EntryStep(ts: seq<L.Token>, p: nat, kw: string, ss: seq<string>, h: Header, q: nat, h': Header)
    requires kw != "ENDSEC" && TokensAt(ts, p, EntryTokens(kw, ss))
    requires q == p + |EntryTokens(kw, ss)| && h' == Record(h, kw, ss)
    ensures HeaderLoop(ts, p, h) == HeaderLoop(ts, q, h')
  {
    var x := StringItems(ss);
    assert EntryTokens(kw, ss) == [L.Keyword(kw), L.OpenParen] + (x + [L.CloseParen]) + [L.Semicolon];
    TokensAtSplit(ts, p, [L.Keyword(kw), L.OpenParen] + (x + [L.CloseParen]), [L.Semicolon]);
    TokensAtSplit(ts, p, [L.Keyword(kw), L.OpenParen], x + [L.CloseParen]);
    assert ts[p + 0] == L.Keyword(kw) && ts[p + 1] == L.OpenParen by {
      assert [L.Keyword(kw), L.OpenParen][0] == L.Keyword(kw);
      assert [L.Keyword(kw), L.OpenParen][1] == L.OpenParen;
    }
    StringsRoundTrip(ts, p + 2, ss);
    assert StringsAt(ts, p + 1, 0) == StringsAt(ts, p + 2, 1);
    var e := p + 2 + |x| + 1;
    assert ts[e + 0] == [L.Semicolon][0];
  }

  lemma HeaderRoundTrip(ts: seq<L.Token>, p: nat, h: Header)
    requires TokensAt(ts, p, HeaderTokens(h))
    ensures HeaderAt(ts, p) == Ok(Parsed(h, p + |HeaderTokens(h)|))
  {
    var d := EntryTokens("FILE_DESCRIPTION", h.description);
    var n := EntryTokens("FILE_NAME", h.fileName);
    var s := EntryTokens("FILE_SCHEMA", h.fileSchema);
    var q := p + 2 + |d| + |n| + |s|;
    HeaderSections(ts, p, h);
    HeaderStart(ts, p);
    HeaderEntries(ts, p + 2, h, d, n, s);
    HeaderEnd(ts, q, h);
  }

  /** `HEADER ;` opens the header loop with no entry recorded. */
  lemma HeaderStart(ts: seq<L.Token>, p: nat)
    requires TokensAt(ts, p, [L.Keyword("HEADER"), L.Semicolon])
    ensures p + 2 <= |ts| && HeaderAt(ts, p) == HeaderLoop(ts, p + 2, EmptyHeader)
  {
    PairAt(ts, p, L.Keyword("HEADER"), L.Semicolon);
  }

  /** `ENDSEC ;` ends the header loop with the entries recorded so far. */
  lemma HeaderEnd(ts: seq<L.Token>, q: nat, h: Header)
    requires TokensAt(ts, q, [L.Keyword("ENDSEC"), L.Semicolon])
    ensures HeaderLoop(ts, q, h) == Ok(Parsed(h, q + 2))
  {
    PairAt(ts, q, L.Keyword("ENDSEC"), L.Semicolon);
  }

  /** The three written entries, `d`, `n` and `s`, record the whole header. */
  lemma HeaderEntries(ts: seq<L.Token>, b: nat, h: Header, d: seq<L.Token>, n: seq<L.Token>, s: seq<L.Token>)
    requires d == EntryTokens("FILE_DESCRIPTION", h.description) && TokensAt(ts, b, d)
    requires n == EntryTokens("FILE_NAME", h.fileName) && TokensAt(ts, b + |d|, n)
    requires s == EntryTokens("FILE_SCHEMA", h.fileSchema) && TokensAt(ts, b + |d| + |n|, s)
    ensures HeaderLoop(ts, b, EmptyHeader) == HeaderLoop(ts, b + |d| + |n| + |s|, h)
  {
    var h2 := Record(Record(EmptyHeader, "FILE_DESCRIPTION", h.description), "FILE_NAME", h.fileName);
    FirstEntries(ts, b, h, d, n);
    assert HeaderLoop(ts, b + |d| + |n|, h2) == HeaderLoop(ts, b + |d| + |n| + |s|, h) by {
      assert "FILE_SCHEMA" != "ENDSEC" by { assert |"FILE_SCHEMA"| != |"ENDSEC"|; }
      RecordAll(h);
      EntryStep(ts, b + |d| + |n|, "FILE_SCHEMA", h.fileSchema, h2, b + |d| + |n| + |s|, h);
    }
  }

  /** The description and name entries record themselves in turn. */
  lemma FirstEntries(ts: seq<L.Token>, b: nat, h: Header, d: seq<L.Token>, n: seq<L.Token>)
    requires d == EntryTokens("FILE_DESCRIPTION", h.description) && TokensAt(ts, b, d)
    requires n == EntryTokens("FILE_NAME", h.fileName) && TokensAt(ts, b + |d|, n)
    ensures b + |d| + |n| <= |ts|
    ensures HeaderLoop(ts, b, EmptyHeader)
      == HeaderLoop(ts, b + |d| + |n|, Record(Record(EmptyHeader, "FILE_DESCRIPTION", h.description), "FILE_NAME", h.fileName))
  {
    var h1 := Record(EmptyHeader, "FILE_DESCRIPTION", h.description);
    var h2 := Record(h1, "FILE_NAME", h.fileName);
    assert HeaderLoop(ts, b, EmptyHeader) == HeaderLoop(ts, b + |d|, h1) by {
      assert "FILE_DESCRIPTION" != "ENDSEC" by { assert |"FILE_DESCRIPTION"| != |"ENDSEC"|; }
      EntryStep(ts, b, "FILE_DESCRIPTION", h.description, EmptyHeader, b + |d|, h1);
    }
    assert HeaderLoop(ts, b + |d|, h1) == HeaderLoop(ts, b + |d| + |n|, h2) by {
      assert "FILE_NAME" != "ENDSEC" by { assert |"FILE_NAME"| != |"ENDSEC"|; }
      EntryStep(ts, b + |d|, "FILE_NAME", h.fileName, h1, b + |d| + |n|, h2);
    }
  }

  /** Where each part of a written header lies. */
  lemma HeaderSections(ts: seq<L.Token>, p: nat, h: Header)
    requires TokensAt(ts, p, HeaderTokens(h))
    ensures var d := EntryTokens("FILE_DESCRIPTION", h.description);
      var n := EntryTokens("FILE_NAME", h.fileName);
      var s := EntryTokens("FILE_SCHEMA", h.fileSchema);
      TokensAt(ts, p, [L.Keyword("HEADER"), L.Semicolon]) && TokensAt(ts, p + 2, d)
      && TokensAt(ts, p + 2 + |d|, n) && TokensAt(ts, p + 2 + |d| + |n|, s)
      && TokensAt(ts, p + 2 + |d| + |n| + |s|, [L.Keyword("ENDSEC"), L.Semicolon])
      && |HeaderTokens(h)| == 2 + |d| + |n| + |s| + 2
  {
    var start := [L.Keyword("HEADER"), L.Semicolon];
    var d := EntryTokens("FILE_DESCRIPTION", h.description);
    var n := EntryTokens("FILE_NAME", h.fileName);
    var s := EntryTokens("FILE_SCHEMA", h.fileSchema);
    var end := [L.Keyword("ENDSEC"), L.Semicolon];
    TokensAtSplit(ts, p, start, d + (n + (s + end)));
    TokensAtSplit(ts, p + 2, d, n + (s + end));
    TokensAtSplit(ts, p + 2 + |d|, n, s + end);
    TokensAtSplit(ts, p + 2 + |d| + |n|, s, end);
  }

  lemma PairAt(ts: seq<L.Token>, p: nat, a: L.Token, b: L.Token)
    requires TokensAt(ts, p, [a, b])
    ensures TokenAt(ts, p, a) && TokenAt(ts, p + 1, b)
  {
    assert ts[p + 0] == [a, b][0];
    assert ts[p + 1] == [a, b][1];
  }

  /** Recording the three known entries in order rebuilds the header. */
  lemma RecordAll(h: Header)
    ensures Record(Record(Record(EmptyHeader, "FILE_DESCRIPTION", h.description), "FILE_NAME", h.fileName), "FILE_SCHEMA", h.fileSchema) == h
  {
    assert "FILE_NAME" != "FILE_DESCRIPTION" by { assert |"FILE_NAME"| != |"FILE_DESCRIPTION"|; }
    assert "FILE_SCHEMA" != "FILE_DESCRIPTION" by { assert |"FILE_SCHEMA"| != |"FILE_DESCRIPTION"|; }
    assert "FILE_SCHEMA" != "FILE_NAME" by { assert |"FILE_SCHEMA"| != |"FILE_NAME"|; }
  }

  // ----- Reading the whole file back -----

  /** `parse_file` succeeds when the sections follow one another as written. */
  lemma FileOfSections(ts: seq<L.Token>, h: Header, q: nat, es: seq<Entity>, r: nat)
    requires TokenAt(ts, 0, L.Keyword("ISO-10303-21")) && TokenAt(ts, 1, L.Semicolon)
    requires HeaderAt(ts, 2) == Ok(Parsed(h, q))
    requires TokenAt(ts, q, L.Keyword("DATA")) && TokenAt(ts, q + 1, L.Semicolon)
    requires DataAt(ts, q + 2) == Ok(Parsed(es, r))
    requires TokenAt(ts, r, L.Keyword("END-ISO-10303-21")) && TokenAt(ts, r + 1, L.Semicolon)
    ensures FileOf(ts) == Ok(StepFile(h, es))
  {
  }

  /** The parser returns exactly the file the writer wrote. */
  lemma FileRoundTrip(f: StepFile)
    ensures FileOf(FileTokens(f)) == Ok(f)
  {
    var ts := FileTokens(f);
    assert TokensAt(ts, 0, ts);
    var q, r := FileSections(ts, f);
    FileTokensAt(ts, f, q, r);
  }

  /** A file whose sections each read back reads back whole. */
  lemma FileTokensAt(ts: seq<L.Token>, f: StepFile, q: nat, r: nat)
    requires TokenAt(ts, 0, L.Keyword("ISO-10303-21")) && TokenAt(ts, 1, L.Semicolon)
    requires TokensAt(ts, 2, HeaderTokens(f.header)) && q == 2 + |HeaderTokens(f.header)|
    requires TokenAt(ts, q, L.Keyword("DATA")) && TokenAt(ts, q + 1, L.Semicolon)
    requires TokensAt(ts, q + 2, DataTokens(f.entities))
    requires TokensAt(ts, q + 2 + |DataTokens(f.entities)|, [L.Keyword("ENDSEC"), L.Semicolon])
    requires r == q + 2 + |DataTokens(f.entities)| + 2
    requires TokenAt(ts, r, L.Keyword("END-ISO-10303-21")) && TokenAt(ts, r + 1, L.Semicolon)
    ensures FileOf(ts) == Ok(f)
  {
    assert HeaderAt(ts, 2) == Ok(Parsed(f.header, q)) by {
      HeaderRoundTrip(ts, 2, f.header);
    }
    assert DataAt(ts, q + 2) == Ok(Parsed(f.entities, r)) by {
      DataRoundTrip(ts, q + 2, f.entities);
    }
    FileOfSections(ts, f.header, q, f.entities, r);
  }

  /** Where each part of a written file lies. */
  lemma FileSections(ts: seq<L.Token>, f: StepFile) returns (q: nat, r: nat)
    requires TokensAt(ts, 0, FileTokens(f))
    ensures TokenAt(ts, 0, L.Keyword("ISO-10303-21")) && TokenAt(ts, 1, L.Semicolon)
    ensures TokensAt(ts, 2, HeaderTokens(f.header)) && q == 2 + |HeaderTokens(f.header)|
    ensures TokenAt(ts, q, L.Keyword("DATA")) && TokenAt(ts, q + 1, L.Semicolon)
    ensures TokensAt(ts, q + 2, DataTokens(f.entities))
    ensures TokensAt(ts, q + 2 + |DataTokens(f.entities)|, [L.Keyword("ENDSEC"), L.Semicolon])
    ensures r == q + 2 + |DataTokens(f.entities)| + 2
    ensures TokenAt(ts, r, L.Keyword("END-ISO-10303-21")) && TokenAt(ts, r + 1, L.Semicolon)
  {
    var start := [L.Keyword("ISO-10303-21"), L.Semicolon];
    var h := HeaderTokens(f.header);
    var data := [L.Keyword("DATA"), L.Semicolon];
    var x := DataTokens(f.entities);
    var end := [L.Keyword("ENDSEC"), L.Semicolon];
    var finish := [L.Keyword("END-ISO-10303-21"), L.Semicolon];
    q := 2 + |h|;
    r := q + 2 + |x| + 2;
    TokensAtSplit(ts, 0, start, h + (data + ((x + end) + finish)));
    TokensAtSplit(ts, 2, h, data + ((x + end) + finish));
    TokensAtSplit(ts, 2 + |h|, data, (x + end) + finish);
    TokensAtSplit(ts, 4 + |h|, x + end, finish);
    TokensAtSplit(ts, 4 + |h|, x, end);
    PairAt(ts, 0, L.Keyword("ISO-10303-21"), L.Semicolon);
    PairAt(ts, q, L.Keyword("DATA"), L.Semicolon);
    PairAt(ts, r, L.Keyword("END-ISO-10303-21"), L.Semicolon);
  }

  // ----- From text: the lexer and the parser together -----

  /** Attributes the writer can put into text that the lexer reads back. */
  predicate WritableAttr(a: Attribute)
    decreases a
  {
    match a
    case Integer(v) => I64Min <= v <= I64Max
    case Real(text) => LP.PlainReal(text)
    case Enum(name) => LP.Printable(L.Enum(name))
    case EntityRef(n) => n < U64Limit
    case List(items) => forall i :: 0 <= i < |items| ==> WritableAttr(items[i])
    case _ => true
  }

  predicate WritableEntity(e: Entity) {
    e.id < U64Limit && LP.Printable(L.Keyword(e.typeName))
    && forall i :: 0 <= i < |e.attributes| ==> WritableAttr(e.attributes[i])
  }

  predicate WritableFile(f: StepFile) {
    forall i :: 0 <= i < |f.entities| ==> WritableEntity(f.entities[i])
  }

  predicate AllPrintable(ts: seq<L.Token>) {
    forall i :: 0 <= i < |ts| ==> LP.Printable(ts[i])
  }

  lemma PrintableConcat(a: seq<L.Token>, b: seq<L.Token>)
    requires AllPrintable(a) && AllPrintable(b)
    ensures AllPrintable(a + b)
  {
    forall i | 0 <= i < |a + b| ensures LP.Printable((a + b)[i]) {
      if i < |a| {
        assert (a + b)[i] == a[i];
      } else {
        assert (a + b)[i] == b[i - |a|];
      }
    }
  }

  lemma {:induction false} AttrPrintable(a: Attribute)
    requires WritableAttr(a)
    ensures AllPrintable(AttrTokens(a))
    decreases a
  {
    if a.List? {
      ItemsPrintable(a.items);
      PrintableConcat([L.OpenParen], ItemsTokens(a.items));
      PrintableConcat([L.OpenParen] + ItemsTokens(a.items), [L.CloseParen]);
    }
  }

  lemma {:induction false} ItemsPrintable(items: seq<Attribute>)
    requires forall i :: 0 <= i < |items| ==> WritableAttr(items[i])
    ensures AllPrintable(ItemsTokens(items))
    decreases items
  {
    if items != [] {
      AttrPrintable(items[0]);
      TailPrintable(items[1..]);
      PrintableConcat(AttrTokens(items[0]), TailTokens(items[1..]));
    }
  }

  lemma {:induction false} TailPrintable(xs: seq<Attribute>)
    requires forall i :: 0 <= i < |xs| ==> WritableAttr(xs[i])
    ensures AllPrintable(TailTokens(xs))
    decreases xs
  {
    if xs != [] {
      AttrPrintable(xs[0]);
      TailPrintable(xs[1..]);
      PrintableConcat([L.Comma], AttrTokens(xs[0]));
      PrintableConcat([L.Comma] + AttrTokens(xs[0]), TailTokens(xs[1..]));
    }
  }

  lemma {:induction false} DataPrintable(es: seq<Entity>)
    requires forall i :: 0 <= i < |es| ==> WritableEntity(es[i])
    ensures AllPrintable(DataTokens(es))
    decreases es
  {
    if es != [] {
      var e := es[0];
      var head := [L.EntityId(e.id), L.Equals, L.Keyword(e.typeName), L.OpenParen];
      assert WritableEntity(e);
      ItemsPrintable(e.attributes);
      PrintableConcat(head, ItemsTokens(e.attributes));
      PrintableConcat(head + ItemsTokens(e.attributes), [L.CloseParen, L.Semicolon]);
      DataPrintable(es[1..]);
      PrintableConcat(EntityTokens(e), DataTokens(es[1..]));
    }
  }

  lemma {:induction false} StringItemsPrintable(ss: seq<string>)
    ensures AllPrintable(StringItems(ss))
    decreases ss
  {
    if |ss| > 1 {
      StringItemsPrintable(ss[1..]);
      PrintableConcat([L.String(ss[0]), L.Comma], StringItems(ss[1..]));
    }
  }

  lemma EntryPrintable(kw: string, ss: seq<string>)
    requires LP.Printable(L.Keyword(kw))
    ensures AllPrintable(EntryTokens(kw, ss))
  {
    StringItemsPrintable(ss);
    PrintableConcat([L.Keyword(kw), L.OpenParen], StringItems(ss));
    PrintableConcat([L.Keyword(kw), L.OpenParen] + StringItems(ss), [L.CloseParen, L.Semicolon]);
  }

  lemma HeaderPrintable(h: Header)
    ensures AllPrintable(HeaderTokens(h))
  {
    var d := EntryTokens("FILE_DESCRIPTION", h.description);
    var n := EntryTokens("FILE_NAME", h.fileName);
    var s := EntryTokens("FILE_SCHEMA", h.fileSchema);
    var start := [L.Keyword("HEADER"), L.Semicolon];
    HeaderWordsPrintable();
    EntryWordsPrintable();
    EntryPrintable("FILE_DESCRIPTION", h.description);
    EntryPrintable("FILE_NAME", h.fileName);
    EntryPrintable("FILE_SCHEMA", h.fileSchema);
    var end := [L.Keyword("ENDSEC"), L.Semicolon];
    PrintableConcat(s, end);
    PrintableConcat(n, s + end);
    PrintableConcat(d, n + (s + end));
    PrintableConcat(start, d + (n + (s + end)));
  }

  lemma HeaderWordsPrintable()
    ensures LP.Printable(L.Keyword("HEADER")) && LP.Printable(L.Keyword("ENDSEC"))
  {
  }

  lemma EntryWordsPrintable()
    ensures LP.Printable(L.Keyword("FILE_DESCRIPTION"))
    ensures LP.Printable(L.Keyword("FILE_NAME")) && LP.Printable(L.Keyword("FILE_SCHEMA"))
  {
  }

  lemma FileWordsPrintable()
    ensures LP.Printable(L.Keyword("ISO-10303-21")) && LP.Printable(L.Keyword("DATA"))
    ensures LP.Printable(L.Keyword("END-ISO-10303-21"))
  {
  }

  lemma FilePrintable(f: StepFile)
    requires WritableFile(f)
    ensures AllPrintable(FileTokens(f))
  {
    var head := [L.Keyword("ISO-10303-21"), L.Semicolon];
    var h := HeaderTokens(f.header);
    var data := [L.Keyword("DATA"), L.Semicolon];
    var x := DataTokens(f.entities);
    HeaderPrintable(f.header);
    DataPrintable(f.entities);
    HeaderWordsPrintable();
    FileWordsPrintable();
    var end := [L.Keyword("ENDSEC"), L.Semicolon];
    var finish := [L.Keyword("END-ISO-10303-21"), L.Semicolon];
    PrintableConcat(x, end);
    PrintableConcat(x + end, finish);
    PrintableConcat(data, (x + end) + finish);
    PrintableConcat(h, data + ((x + end) + finish));
    PrintableConcat(head, h + (data + ((x + end) + finish)));
  }

  /** `parse_step` of the written text of a file gives the file back. */
  lemma StepRoundTrip(f: StepFile)
    requires WritableFile(f)
    ensures StepOf(LP.Print(FileTokens(f))) == Ok(f)
  {
    FilePrintable(f);
    LP.LexPrint(FileTokens(f));
    FileRoundTrip(f);
  }
}
