/**
 * The parser of STEP physical files: a cursor over the lexer's tokens reads
 * `ISO-10303-21;`, the header section, the data section and
 * `END-ISO-10303-21;`, building the header strings and the entities with
 * their (possibly nested) attribute lists.
 *
 * Each parsing routine is specified by a function on the token sequence and a
 * start position, giving the value read and the position after it, or the
 * parse error (`...At` below); the `Parser` methods are proved to compute
 * them.
 */
module StepParser {
  import opened Core
  import L = StepLexer

  // ----- The parse tree -----

  /** An attribute value; a real keeps its source text. */
  datatype Attribute =
    | Integer(value: int)
    | Real(text: string)
    | String(text: string)
    | Bool(flag: bool)
    | Enum(name: string)
    | EntityRef(id: nat)
    | List(items: seq<Attribute>)
    | Null
    | Derived

  datatype Entity = Entity(id: nat, typeName: string, attributes: seq<Attribute>)

  datatype Header = Header(description: seq<string>, fileName: seq<string>, fileSchema: seq<string>)

  datatype StepFile = StepFile(header: Header, entities: seq<Entity>)

  const EmptyHeader := Header([], [], [])

  /** A value read from the tokens and the position just after it. */
  datatype Parsed<T> = Parsed(value: T, next: nat)

  /** `r` with `xs` put in front of the sequence it carries. */
  function Cons<T>(xs: seq<T>, r: Result<Parsed<seq<T>>>): Result<Parsed<seq<T>>> {
    match r
    case Ok(Parsed(ys, q)) => Ok(Parsed(xs + ys, q))
    case Err(e) => Err(e)
  }

  lemma ConsTwice<T>(a: seq<T>, b: seq<T>, r: Result<Parsed<seq<T>>>)
    ensures Cons(a, Cons(b, r)) == Cons(a + b, r)
  {
    match r
    case Ok(Parsed(ys, q)) => assert a + (b + ys) == (a + b) + ys;
    case Err(_) =>
  }

  /** A method's outcome together with the parser position it leaves. */
  function Lift<T>(r: Result<T>, pos: nat): Result<Parsed<T>> {
    match r
    case Ok(v) => Ok(Parsed(v, pos))
    case Err(e) => Err(e)
  }

  // ----- Single tokens -----

  predicate KeywordAt(ts: seq<L.Token>, p: nat, kw: string) {
    p < |ts| && ts[p] == L.Keyword(kw)
  }

  predicate TokenAt(ts: seq<L.Token>, p: nat, t: L.Token) {
    p < |ts| && ts[p] == t
  }

  /** The attribute a single token stands for, when it is not punctuation or a keyword. */
  function Scalar(t: L.Token): Option<Attribute> {
    match t
    case Integer(v) => Some(Integer(v))
    case Real(text) => Some(Real(text))
    case String(text) => Some(String(text))
    case Bool(b) => Some(Bool(b))
    case Enum(name) => Some(Enum(name))
    case EntityId(n) => Some(EntityRef(n))
    case Null => Some(Null)
    case Derived => Some(Derived)
    case _ => None
  }

  // ----- Attributes -----

  /**
   * `parse_attribute` at `p`: a scalar token, or `(` with an attribute list
   * and `)`; anything else, or the end of the tokens, is a parse error. A
   * successful parse consumes at least one token.
   */
  function AttributeAt(ts: seq<L.Token>, p: nat): (r: Result<Parsed<Attribute>>)
    requires p <= |ts|
    ensures r.Ok? ==> p < r.value.next <= |ts|
    ensures r.Err? ==> r.error == Parse
    decreases |ts| - p, 0
  {
    if p == |ts| then Err(Parse)
    else if Scalar(ts[p]).Some? then Ok(Parsed(Scalar(ts[p]).value, p + 1))
    else if ts[p] == L.OpenParen then
      match ListAt(ts, p + 1)
      case Err(e) => Err(e)
      case Ok(Parsed(items, q)) =>
        if TokenAt(ts, q, L.CloseParen) then Ok(Parsed(List(items), q + 1)) else Err(Parse)
    else Err(Parse)
  }

  /** `parse_attribute_list` at `p`: empty when `)` follows, otherwise attributes separated by commas. */
  function ListAt(ts: seq<L.Token>, p: nat): (r: Result<Parsed<seq<Attribute>>>)
    requires p <= |ts|
    ensures r.Ok? ==> p <= r.value.next <= |ts|
    ensures r.Err? ==> r.error == Parse
    decreases |ts| - p, 1
  {
    if TokenAt(ts, p, L.CloseParen) then Ok(Parsed([], p))
    else
      match AttributeAt(ts, p)
      case Err(e) => Err(e)
      case Ok(Parsed(a, q)) => Cons([a], MoreAt(ts, q))
  }

  /** The attributes that follow a list item: one more after each comma. */
  function MoreAt(ts: seq<L.Token>, p: nat): (r: Result<Parsed<seq<Attribute>>>)
    requires p <= |ts|
    ensures r.Ok? ==> p <= r.value.next <= |ts|
    ensures r.Err? ==> r.error == Parse
    decreases |ts| - p, 0
  {
    if TokenAt(ts, p, L.Comma) then
      match AttributeAt(ts, p + 1)
      case Err(e) => Err(e)
      case Ok(Parsed(a, q)) => Cons([a], MoreAt(ts, q))
    else Ok(Parsed([], p))
  }

  // ----- Entities and the data section -----

  /** `parse_entity` at `p`: `#id = NAME ( attributes ) ;`, every mismatch a parse error. */
  function EntityAt(ts: seq<L.Token>, p: nat): (r: Result<Parsed<Entity>>)
    requires p <= |ts|
    ensures r.Ok? ==> p + 6 <= r.value.next <= |ts|
    ensures r.Ok? ==> ts[p] == L.EntityId(r.value.value.id) && ts[p + 1] == L.Equals
    ensures r.Ok? ==> ts[p + 2] == L.Keyword(r.value.value.typeName) && ts[p + 3] == L.OpenParen
    ensures r.Ok? ==> ts[r.value.next - 2] == L.CloseParen && ts[r.value.next - 1] == L.Semicolon
    ensures r.Err? ==> r.error == Parse
  {
    if p + 4 > |ts| || !ts[p].EntityId? || ts[p + 1] != L.Equals || !ts[p + 2].Keyword? || ts[p + 3] != L.OpenParen
    then Err(Parse)
    else
      match ListAt(ts, p + 4)
      case Err(e) => Err(e)
      case Ok(Parsed(attrs, q)) =>
        if TokenAt(ts, q, L.CloseParen) && TokenAt(ts, q + 1, L.Semicolon)
        then Ok(Parsed(Entity(ts[p].id, ts[p + 2].word, attrs), q + 2))
        else Err(Parse)
  }

  /**
   * The data section's loop from `p`: entities in order, skipping any other
   * token, up to `ENDSEC ;` or the end of the tokens.
   */
  function DataAt(ts: seq<L.Token>, p: nat): (r: Result<Parsed<seq<Entity>>>)
    requires p <= |ts|
    ensures r.Ok? ==> p <= r.value.next <= |ts|
    ensures r.Err? ==> r.error == Parse
    decreases |ts| - p
  {
    if p == |ts| then Ok(Parsed([], p))
    else if ts[p] == L.Keyword("ENDSEC") then
      if TokenAt(ts, p + 1, L.Semicolon) then Ok(Parsed([], p + 2)) else Err(Parse)
    else if ts[p].EntityId? then
      match EntityAt(ts, p)
      case Err(e) => Err(e)
      case Ok(Parsed(e, q)) => Cons([e], DataAt(ts, q))
    else DataAt(ts, p + 1)
  }

  // ----- The header section -----

  /**
   * `collect_header_strings` from `p` at nesting `depth`: every string token
   * up to the `)` that brings the depth back to zero, a `;`, or the end.
   */
  function StringsAt(ts: seq<L.Token>, p: nat, depth: int): (r: Parsed<seq<string>>)
    requires p <= |ts|
    ensures p <= r.next <= |ts|
    decreases |ts| - p
  {
    if p == |ts| || ts[p] == L.Semicolon then Parsed([], p)
    else if ts[p] == L.OpenParen then StringsAt(ts, p + 1, depth + 1)
    else if ts[p] == L.CloseParen then
      if depth - 1 <= 0 then Parsed([], p + 1) else StringsAt(ts, p + 1, depth - 1)
    else
      var rest := StringsAt(ts, p + 1, depth);
      if ts[p].String? then Parsed([ts[p].text] + rest.value, rest.next) else rest
  }

  /** The header with the strings of entry `kw` recorded; entries other than the three known ones change nothing. */
  function Record(h: Header, kw: string, strings: seq<string>): Header {
    if kw == "FILE_DESCRIPTION" then h.(description := strings)
    else if kw == "FILE_NAME" then h.(fileName := strings)
    else if kw == "FILE_SCHEMA" then h.(fileSchema := strings)
    else h
  }

  /** The header loop from `p`: entries `KEYWORD ( ... ) ;` up to `ENDSEC ;`, skipping other tokens. */
  function HeaderLoop(ts: seq<L.Token>, p: nat, h: Header): (r: Result<Parsed<Header>>)
    requires p <= |ts|
    ensures r.Ok? ==> p < r.value.next <= |ts|
    ensures r.Err? ==> r.error == Parse
    decreases |ts| - p
  {
    if p == |ts| then Err(Parse)
    else if ts[p] == L.Keyword("ENDSEC") then
      if TokenAt(ts, p + 1, L.Semicolon) then Ok(Parsed(h, p + 2)) else Err(Parse)
    else if ts[p].Keyword? then
      var s := StringsAt(ts, p + 1, 0);
      if TokenAt(ts, s.next, L.Semicolon) then HeaderLoop(ts, s.next + 1, Record(h, ts[p].word, s.value))
      else Err(Parse)
    else HeaderLoop(ts, p + 1, h)
  }

  /** `parse_header` at `p`: `HEADER ;` and the header loop. */
  function HeaderAt(ts: seq<L.Token>, p: nat): (r: Result<Parsed<Header>>)
    requires p <= |ts|
    ensures r.Ok? ==> p < r.value.next <= |ts|
    ensures r.Err? ==> r.error == Parse
  {
    if KeywordAt(ts, p, "HEADER") && TokenAt(ts, p + 1, L.Semicolon) then HeaderLoop(ts, p + 2, EmptyHeader)
    else Err(Parse)
  }

  // ----- The whole file -----

  /** `parse_file`: the sections in order; tokens after the final `;` are not looked at. */
  function FileOf(ts: seq<L.Token>): (r: Result<StepFile>)
    ensures r.Err? ==> r.error == Parse
  {
    if !(KeywordAt(ts, 0, "ISO-10303-21") && TokenAt(ts, 1, L.Semicolon)) then Err(Parse)
    else
      match HeaderAt(ts, 2)
      case Err(e) => Err(e)
      case Ok(Parsed(h, q)) =>
        if !(KeywordAt(ts, q, "DATA") && TokenAt(ts, q + 1, L.Semicolon)) then Err(Parse)
        else
          match DataAt(ts, q + 2)
          case Err(e) => Err(e)
          case Ok(Parsed(es, r)) =>
            if KeywordAt(ts, r, "END-ISO-10303-21") && TokenAt(ts, r + 1, L.Semicolon)
            then Ok(StepFile(h, es))
            else Err(Parse)
  }

  /** `parse_step`: the lexer's error, or the parse of its tokens. */
  function StepOf(input: string): Result<StepFile> {
    match L.Lex(input)
    case Err(e) => Err(e)
    case Ok(ts) => FileOf(ts)
  }

  // ----- The parser -----

  class Parser {
    const tokens: seq<L.Token>
    var pos: nat

    constructor(tokens: seq<L.Token>)
      ensures this.tokens == tokens && pos == 0
    {
      this.tokens := tokens;
      pos := 0;
    }

    /** The token under the cursor, if any. */
    function Peek(): (r: Option<L.Token>)
      reads this
      ensures r.Some? <==> pos < |tokens|
      ensures r.Some? ==> r.value == tokens[pos]
    {
      if pos < |tokens| then Some(tokens[pos]) else None
    }

    /** The token under the cursor, moving past it; an error at the end of the tokens. */
    method Advance() returns (r: Result<L.Token>)
      requires pos <= |tokens|
      modifies this
      ensures old(pos) < |tokens| ==> r == Ok(tokens[old(pos)]) && pos == old(pos) + 1
      ensures old(pos) == |tokens| ==> r == Err(Parse) && pos == old(pos)
    {
      if pos >= |tokens| {
        return Err(Parse);
      }
      r := Ok(tokens[pos]);
      pos := pos + 1;
    }

    method ExpectKeyword(kw: string) returns (r: Result<()>)
      requires pos <= |tokens|
      modifies this
      ensures old(pos) <= pos <= |tokens|
      ensures r.Ok? <==> KeywordAt(tokens, old(pos), kw)
      ensures r.Ok? ==> pos == old(pos) + 1
      ensures r.Err? ==> r.error == Parse
    {
      var t := Advance();
      if t == Ok(L.Keyword(kw)) {
        return Ok(());
      }
      return Err(Parse);
    }

    method ExpectSemicolon() returns (r: Result<()>)
      requires pos <= |tokens|
      modifies this
      ensures old(pos) <= pos <= |tokens|
      ensures r.Ok? <==> TokenAt(tokens, old(pos), L.Semicolon)
      ensures r.Ok? ==> pos == old(pos) + 1
      ensures r.Err? ==> r.error == Parse
    {
      var t := Advance();
      if t == Ok(L.Semicolon) {
        return Ok(());
      }
      return Err(Parse);
    }

    method ParseAttribute() returns (r: Result<Attribute>)
      requires pos <= |tokens|
      modifies this
      ensures old(pos) <= pos <= |tokens|
      ensures Lift(r, pos) == AttributeAt(tokens, old(pos))
      decreases |tokens| - pos, 0
    {
      var t := Peek();
      if t.Some? && Scalar(t.value).Some? {
        var _ := Advance();
        return Ok(Scalar(t.value).value);
      }
      if t == Some(L.OpenParen) {
        var _ := Advance();
        var items := ParseAttributeList();
        if items.Err? {
          return Err(items.error);
        }
        var close := Advance();
        if close != Ok(L.CloseParen) {
          return Err(Parse);
        }
        return Ok(List(items.value));
      }
      return Err(Parse);
    }

    method ParseAttributeList() returns (r: Result<seq<Attribute>>)
      requires pos <= |tokens|
      modifies this
      ensures old(pos) <= pos <= |tokens|
      ensures Lift(r, pos) == ListAt(tokens, old(pos))
      decreases |tokens| - pos, 1
    {
      if Peek() == Some(L.CloseParen) {
        return Ok([]);
      }
      var first := ParseAttribute();
      if first.Err? {
        return Err(first.error);
      }
      var attrs := [first.value];
      while Peek() == Some(L.Comma)
        invariant old(pos) < pos <= |tokens|
        invariant ListAt(tokens, old(pos)) == Cons(attrs, MoreAt(tokens, pos))
        decreases |tokens| - pos
      {
        ghost var here := pos;
        var _ := Advance();
        var a := ParseAttribute();
        if a.Err? {
          return Err(a.error);
        }
        assert MoreAt(tokens, here) == Cons([a.value], MoreAt(tokens, pos));
        ConsTwice(attrs, [a.value], MoreAt(tokens, pos));
        attrs := attrs + [a.value];
      }
      assert MoreAt(tokens, pos) == Ok(Parsed([], pos));
      assert attrs + [] == attrs;
      return Ok(attrs);
    }

    method ParseEntity() returns (r: Result<Entity>)
      requires pos <= |tokens|
      modifies this
      ensures old(pos) <= pos <= |tokens|
      ensures Lift(r, pos) == EntityAt(tokens, old(pos))
    {
      var id := Advance();
      if id.Err? || !id.value.EntityId? {
        return Err(Parse);
      }
      var eq := Advance();
      if eq != Ok(L.Equals) {
        return Err(Parse);
      }
      var name := Advance();
      if name.Err? || !name.value.Keyword? {
        return Err(Parse);
      }
      var open := Advance();
      if open != Ok(L.OpenParen) {
        return Err(Parse);
      }
      var attrs := ParseAttributeList();
      if attrs.Err? {
        return Err(attrs.error);
      }
      var close := Advance();
      if close != Ok(L.CloseParen) {
        return Err(Parse);
      }
      var semi := ExpectSemicolon();
      if semi.Err? {
        return Err(semi.error);
      }
      return Ok(Entity(id.value.id, name.value.word, attrs.value));
    }

    method CollectHeaderStrings() returns (r: Result<seq<string>>)
      requires pos <= |tokens|
      modifies this
      ensures r.Ok? && Parsed(r.value, pos) == StringsAt(tokens, old(pos), 0)
    {
      var strings: seq<string> := [];
      var depth := 0;
      assert [] + StringsAt(tokens, pos, depth).value == StringsAt(tokens, pos, depth).value;
      while true
        invariant old(pos) <= pos <= |tokens|
        invariant StringsAt(tokens, old(pos), 0) == var s := StringsAt(tokens, pos, depth); Parsed(strings + s.value, s.next)
        decreases |tokens| - pos
      {
        var t := Peek();
        if t == None || t == Some(L.Semicolon) {
          break;
        }
        if t == Some(L.OpenParen) {
          depth := depth + 1;
          var _ := Advance();
        } else if t == Some(L.CloseParen) {
          depth := depth - 1;
          var _ := Advance();
          if depth <= 0 {
            assert strings + [] == strings;
            return Ok(strings);
          }
        } else if t.value.String? {
          var s := Advance();
          assert strings + ([t.value.text] + StringsAt(tokens, pos, depth).value) == (strings + [t.value.text]) + StringsAt(tokens, pos, depth).value;
          strings := strings + [s.value.text];
        } else {
          var _ := Advance();
        }
      }
      assert strings + [] == strings;
      return Ok(strings);
    }

    method ParseHeader() returns (r: Result<Header>)
      requires pos <= |tokens|
      modifies this
      ensures old(pos) <= pos <= |tokens|
      ensures Lift(r, pos) == HeaderAt(tokens, old(pos))
    {
      var kw := ExpectKeyword("HEADER");
      if kw.Err? {
        return Err(Parse);
      }
      var semi := ExpectSemicolon();
      if semi.Err? {
        return Err(Parse);
      }
      var header := EmptyHeader;
      while true
        invariant old(pos) + 2 <= pos <= |tokens|
        invariant HeaderAt(tokens, old(pos)) == HeaderLoop(tokens, pos, header)
        decreases |tokens| - pos
      {
        var t := Peek();
        if t == Some(L.Keyword("ENDSEC")) {
          var _ := Advance();
          var end := ExpectSemicolon();
          if end.Err? {
            return Err(Parse);
          }
          return Ok(header);
        }
        if t.Some? && t.value.Keyword? {
          var _ := Advance();
          var strings := CollectHeaderStrings();
          var sep := ExpectSemicolon();
          if sep.Err? {
            return Err(Parse);
          }
          header := Record(header, t.value.word, strings.value);
        } else {
          var skipped := Advance();
          if skipped.Err? {
            return Err(Parse);
          }
        }
      }
    }

    /** The data section's loop, the body of `parse_file` between `DATA ;` and `END-ISO-10303-21`. */
    method ParseData() returns (r: Result<seq<Entity>>)
      requires pos <= |tokens|
      modifies this
      ensures old(pos) <= pos <= |tokens|
      ensures Lift(r, pos) == DataAt(tokens, old(pos))
    {
      ghost var q := pos;
      var entities: seq<Entity> := [];
      assert DataAt(tokens, q) == Cons(entities, DataAt(tokens, pos)) by {
        match DataAt(tokens, q)
        case Ok(Parsed(es, _)) => assert [] + es == es;
        case Err(_) =>
      }
      while Peek().Some?
        invariant q <= pos <= |tokens|
        invariant DataAt(tokens, q) == Cons(entities, DataAt(tokens, pos))
        decreases |tokens| - pos
      {
        var t := Peek().value;
        if t == L.Keyword("ENDSEC") {
          var _ := Advance();
          var end := ExpectSemicolon();
          if end.Err? {
            return Err(Parse);
          }
          assert entities + [] == entities;
          assert DataAt(tokens, q) == Ok(Parsed(entities, pos));
          break;
        } else if t.EntityId? {
          ghost var here := pos;
          var e := ParseEntity();
          if e.Err? {
            return Err(Parse);
          }
          assert DataAt(tokens, here) == Cons([e.value], DataAt(tokens, pos));
          ConsTwice(entities, [e.value], DataAt(tokens, pos));
          entities := entities + [e.value];
        } else {
          var _ := Advance();
        }
      }
      assert entities + [] == entities;
      assert DataAt(tokens, q) == Ok(Parsed(entities, pos));
      return Ok(entities);
    }

    method ParseFile() returns (r: Result<StepFile>)
      requires pos == 0
      modifies this
      ensures r == FileOf(tokens)
    {
      var start := ExpectKeyword("ISO-10303-21");
      if start.Err? {
        return Err(Parse);
      }
      var semi := ExpectSemicolon();
      if semi.Err? {
        return Err(Parse);
      }
      var header := ParseHeader();
      if header.Err? {
        return Err(Parse);
      }
      var data := ExpectKeyword("DATA");
      if data.Err? {
        return Err(Parse);
      }
      semi := ExpectSemicolon();
      if semi.Err? {
        return Err(Parse);
      }
      var entities := ParseData();
      if entities.Err? {
        return Err(Parse);
      }
      var finish := ExpectKeyword("END-ISO-10303-21");
      if finish.Err? {
        return Err(Parse);
      }
      semi := ExpectSemicolon();
      if semi.Err? {
        return Err(Parse);
      }
      return Ok(StepFile(header.value, entities.value));
    }
  }

  /** `parse_step`: tokenize, then parse the whole file. */
  method ParseStep(input: string) returns (r: Result<StepFile>)
    ensures r == StepOf(input)
  {
    var tokens := L.Tokenize(input);
    if tokens.Err? {
      return Err(tokens.error);
    }
    var parser := new Parser(tokens.value);
    r := parser.ParseFile();
  }
}
