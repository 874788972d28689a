/**
 * Properties of the STEP parser's specification functions beyond the round
 * trip: how single tokens become attributes, when a list is empty, which
 * tokens the data and header loops pass over, and how header entries are
 * recorded.
 */
module StepParserFacts {
  import opened Core
  import L = StepLexer
  import opened StepParser

  // ----- Attributes -----

  /** Different scalar tokens never give the same attribute. */
  lemma ScalarInjective(t: L.Token, u: L.Token)
    requires Scalar(t).Some? && Scalar(t) == Scalar(u)
    ensures t == u
  {
    match t
    case Integer(_) =>
    case Real(_) =>
    case String(_) =>
    case Bool(_) =>
    case Enum(_) =>
    case EntityId(_) =>
    case Null =>
    case Derived =>
  }

  /**
   * A successful attribute is either the scalar its first token stands for,
   * one token long, or a `( ... )` list; punctuation other than `(` and
   * keywords are never attributes.
   */
  lemma AttributeShape(ts: seq<L.Token>, p: nat)
    requires p <= |ts| && AttributeAt(ts, p).Ok?
    ensures p < |ts|
    ensures Scalar(ts[p]).Some? ==> AttributeAt(ts, p) == Ok(Parsed(Scalar(ts[p]).value, p + 1))
    ensures Scalar(ts[p]).None? ==> ts[p] == L.OpenParen && AttributeAt(ts, p).value.value.List?
    ensures Scalar(ts[p]).None? ==> ts[AttributeAt(ts, p).value.next - 1] == L.CloseParen
  {
  }

  /** A token that is neither a scalar nor `(` — a keyword, `)`, `,`, `;` or `=` — is a parse error. */
  lemma NotAnAttribute(ts: seq<L.Token>, p: nat)
    requires p < |ts| && Scalar(ts[p]).None? && ts[p] != L.OpenParen
    ensures AttributeAt(ts, p) == Err(Parse)
  {
  }

  /** An attribute list reads as empty exactly when `)` comes first; the `)` is left for the caller. */
  lemma EmptyListIff(ts: seq<L.Token>, p: nat)
    requires p <= |ts|
    ensures (ListAt(ts, p).Ok? && ListAt(ts, p).value.value == []) <==> TokenAt(ts, p, L.CloseParen)
    ensures TokenAt(ts, p, L.CloseParen) ==> ListAt(ts, p) == Ok(Parsed([], p))
  {
    if !TokenAt(ts, p, L.CloseParen) {
      match AttributeAt(ts, p)
      case Err(_) =>
      case Ok(Parsed(a, q)) =>
        match MoreAt(ts, q)
        case Err(_) =>
        case Ok(Parsed(rest, _)) => assert ([a] + rest)[0] == a;
    }
  }

  /** `()` as an attribute is the empty list, two tokens long. */
  lemma EmptyParens(ts: seq<L.Token>, p: nat)
    requires p + 1 < |ts| && ts[p] == L.OpenParen && ts[p + 1] == L.CloseParen
    ensures AttributeAt(ts, p) == Ok(Parsed(List([]), p + 2))
  {
    EmptyListIff(ts, p + 1);
  }

  // ----- The data section -----

  /** A token the data loop passes over: neither an entity name nor `ENDSEC`. */
  predicate Stray(t: L.Token) {
    !t.EntityId? && t != L.Keyword("ENDSEC")
  }

  /** A run of stray tokens in the data section is skipped without effect. */
  lemma {:induction false} StraySkipped(ts: seq<L.Token>, p: nat, q: nat)
    requires p <= q <= |ts|
    requires forall i :: p <= i < q ==> Stray(ts[i])
    ensures DataAt(ts, p) == DataAt(ts, q)
    decreases q - p
  {
    if p < q {
      assert Stray(ts[p]);
      StraySkipped(ts, p + 1, q);
    }
  }

  /** Two entities one after the other are kept in that order. */
  lemma {:induction false} DataKeepsOrder(ts: seq<L.Token>, p: nat, e1: Entity, q: nat, e2: Entity, r: nat)
    requires p <= |ts|
    requires EntityAt(ts, p) == Ok(Parsed(e1, q))
    requires EntityAt(ts, q) == Ok(Parsed(e2, r))
    ensures DataAt(ts, p) == Cons([e1, e2], DataAt(ts, r))
  {
    assert ts[p].EntityId? && ts[q].EntityId?;
    ConsTwice([e1], [e2], DataAt(ts, r));
    assert [e1] + [e2] == [e1, e2];
  }

  // ----- The header section -----

  /** An entry of the header with an unknown keyword is read and ignored. */
  lemma UnknownEntryIgnored(ts: seq<L.Token>, p: nat, h: Header)
    requires p < |ts| && ts[p].Keyword?
    requires ts[p].word !in {"ENDSEC", "FILE_DESCRIPTION", "FILE_NAME", "FILE_SCHEMA"}
    requires TokenAt(ts, StringsAt(ts, p + 1, 0).next, L.Semicolon)
    ensures HeaderLoop(ts, p, h) == HeaderLoop(ts, StringsAt(ts, p + 1, 0).next + 1, h)
  {
    assert Record(h, ts[p].word, StringsAt(ts, p + 1, 0).value) == h;
  }

  /** When an entry appears twice, the later one wins. */
  lemma LaterEntryWins(h: Header, kw: string, first: seq<string>, second: seq<string>)
    ensures Record(Record(h, kw, first), kw, second) == Record(h, kw, second)
  {
  }

  /** Recording one entry changes only its own field. */
  lemma RecordOnlyItsField(h: Header, kw: string, strings: seq<string>)
    ensures kw != "FILE_DESCRIPTION" ==> Record(h, kw, strings).description == h.description
    ensures kw != "FILE_NAME" ==> Record(h, kw, strings).fileName == h.fileName
    ensures kw != "FILE_SCHEMA" ==> Record(h, kw, strings).fileSchema == h.fileSchema
  {
  }

  /** The arguments of `FILE_DESCRIPTION(('ViewDefinition [CoordinationView]'),'2;1');` after the keyword. */
  function DescriptionTokens(): (ts: seq<L.Token>)
    ensures |ts| == 8 && ts[7] == L.Semicolon
  {
    [L.OpenParen, L.OpenParen, L.String("ViewDefinition [CoordinationView]"), L.CloseParen,
     L.Comma, L.String("2;1"), L.CloseParen, L.Semicolon]
  }

  /**
   * The strings are collected in order, through nested parentheses, up to the
   * `)` that closes the entry, wherever the arguments stand in the tokens.
   */
  lemma NestedDescription(ts: seq<L.Token>, k: nat)
    requires k + 8 <= |ts| && ts[k..k + 8] == DescriptionTokens()
    ensures StringsAt(ts, k, 0) == Parsed(["ViewDefinition [CoordinationView]", "2;1"], k + 7)
  {
    var d := DescriptionTokens();
    assert forall i :: 0 <= i < 8 ==> ts[k + i] == d[i];
    assert ts[k + 6] == L.CloseParen && ts[k + 5] == L.String("2;1") && ts[k + 4] == L.Comma;
    assert ts[k + 3] == L.CloseParen && ts[k + 2] == L.String("ViewDefinition [CoordinationView]");
    assert ts[k + 1] == L.OpenParen && ts[k] == L.OpenParen;
    assert StringsAt(ts, k + 6, 1) == Parsed([], k + 7);
    assert ["2;1"] + [] == ["2;1"];
    assert StringsAt(ts, k + 5, 1) == Parsed(["2;1"], k + 7);
    assert StringsAt(ts, k + 3, 2) == Parsed(["2;1"], k + 7);
    assert ["ViewDefinition [CoordinationView]"] + ["2;1"] == ["ViewDefinition [CoordinationView]", "2;1"];
    assert StringsAt(ts, k + 2, 2) == Parsed(["ViewDefinition [CoordinationView]", "2;1"], k + 7);
  }

  /** A whole header with that entry records both strings as the description. */
  lemma DescriptionHeader()
    ensures HeaderLoop([L.Keyword("FILE_DESCRIPTION")] + DescriptionTokens() + [L.Keyword("ENDSEC"), L.Semicolon], 0, EmptyHeader)
         == Ok(Parsed(Header(["ViewDefinition [CoordinationView]", "2;1"], [], []), 11))
  {
    var ts := [L.Keyword("FILE_DESCRIPTION")] + DescriptionTokens() + [L.Keyword("ENDSEC"), L.Semicolon];
    assert ts[1..9] == DescriptionTokens();
    NestedDescription(ts, 1);
    assert ts[9] == L.Keyword("ENDSEC") && ts[10] == L.Semicolon;
    assert HeaderLoop(ts, 9, Header(["ViewDefinition [CoordinationView]", "2;1"], [], []))
        == Ok(Parsed(Header(["ViewDefinition [CoordinationView]", "2;1"], [], []), 11));
  }
}
