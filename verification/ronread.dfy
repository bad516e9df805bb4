/** The converse of `RonDocs.ParseEmitted`: whatever the parser accepts is
    the token stream of some document, and the value it builds is that
    document's meaning. Together the two directions say the parser succeeds
    at an offset exactly when the tokens there spell a document whose
    meaning is defined. Also the three ways a value can be malformed at its
    first tokens. */
module RonRead {
  import opened Bytes
  import opened Results
  import opened Schedules
  import opened Lexer
  import opened Values
  import opened Parser
  import opened Reader
  import opened RonDocs

  /** Every punctuation token carries its own one-byte text, as the
      tokenizer produces it. Token streams that break this spell no
      document, because a document's punctuation is written out. */
  predicate PunctText(toks: seq<Token>) {
    forall k :: 0 <= k < |toks| && toks[k].kind !in {Str, Ident, EOF} ==>
      |toks[k].value| == 1 && PunctKind(toks[k].value[0]) == Some(toks[k].kind)
  }

  /** A punctuation token of `PunctText` spells its canonical lexeme. */
  lemma PunctSpelled(toks: seq<Token>, i: nat, l: Lexeme)
    requires PunctText(toks) && i < |toks| && toks[i].kind == l.0
    requires l in [(LParen, "("), (RParen, ")"), (LBrack, "["), (RBrack, "]"), (Colon, ":"), (Comma, ",")]
    ensures Spells(toks, i, [l])
  {
    var v := toks[i].value;
    assert |v| == 1 && PunctKind(v[0]) == Some(l.0);
    assert v == [v[0]];
    assert (toks[i + 0].kind, toks[i + 0].value) == [l][0];
  }

  /** Any token spells itself. */
  lemma SelfSpelled(toks: seq<Token>, i: nat)
    requires i < |toks|
    ensures Spells(toks, i, [(toks[i].kind, toks[i].value)])
  {
    assert toks[i + 0] == toks[i];
  }

  /** The converse of `RonDocs.SpellsSplit`. */
  lemma SpellsJoin(toks: seq<Token>, i: nat, a: seq<Lexeme>, b: seq<Lexeme>)
    requires Spells(toks, i, a) && Spells(toks, i + |a|, b)
    ensures Spells(toks, i, a + b)
  {
    forall k | 0 <= k < |a + b|
      ensures (toks[i + k].kind, toks[i + k].value) == (a + b)[k]
    {
      if k >= |a| {
        assert toks[i + k] == toks[(i + |a|) + (k - |a|)];
        assert (a + b)[k] == b[k - |a|];
      }
    }
  }

  lemma SpellsJoin3(toks: seq<Token>, i: nat, a: seq<Lexeme>, b: seq<Lexeme>, c: seq<Lexeme>)
    requires Spells(toks, i, a) && Spells(toks, i + |a|, b) && Spells(toks, i + |a| + |b|, c)
    ensures Spells(toks, i, a + b + c)
  {
    SpellsJoin(toks, i, a, b);
    SpellsJoin(toks, i, a + b, c);
  }

  /** Where a value spelled by `d` ends. */
  lemma SpelledEnd(toks: seq<Token>, i: nat, d: Doc)
    requires Spells(toks, i, Emit(d)) && ParseValue(toks, i).Ok?
    ensures ParseValue(toks, i).value.1 == i + |Emit(d)|
  {
    ParseEmitted(toks, i, d);
  }

  /** The document a successful parse at `i` read, built from the tokens by
      following the parser. */
  lemma {:induction false} ValueDoc(toks: seq<Token>, i: nat) returns (d: Doc)
    requires i <= |toks| && PunctText(toks) && ParseValue(toks, i).Ok?
    ensures Spells(toks, i, Emit(d))
    decreases |toks| - i, 2
  {
    var t := Peek(toks, i);
    if t.kind == Str {
      d := DStr(t.value);
      SelfSpelled(toks, i);
    } else if t.kind == Ident {
      assert Expect(toks, i + 1, LParen) == Ok(i + 2);
      var k := ParseFields(toks, i + 2).value.1;
      assert Expect(toks, k, RParen).Ok?;
      var fs, tr := FieldsDoc(toks, i + 2);
      d := DRec(t.value, fs, tr);
      RecordSpelled(toks, i, t.value, fs, tr);
    } else {
      d := ArrayDoc(toks, i);
    }
  }

  /** A record name, `(`, the fields, and `)`. */
  lemma RecordSpelled(toks: seq<Token>, i: nat, n: Bytes, fs: seq<Field>, tr: bool)
    requires PunctText(toks) && i + 1 < |toks|
    requires toks[i].kind == Ident && toks[i].value == n && toks[i + 1].kind == LParen
    requires Spells(toks, i + 2, EmitFields(fs, tr))
    requires i + 2 + |EmitFields(fs, tr)| < |toks| && toks[i + 2 + |EmitFields(fs, tr)|].kind == RParen
    ensures Spells(toks, i, Emit(DRec(n, fs, tr)))
  {
    var open: seq<Lexeme> := [(Ident, n), (LParen, "(")];
    SelfSpelled(toks, i);
    PunctSpelled(toks, i + 1, (LParen, "("));
    assert open == [(Ident, n)] + [(LParen, "(")];
    SpellsJoin(toks, i, [(Ident, n)], [(LParen, "(")]);
    PunctSpelled(toks, i + 2 + |EmitFields(fs, tr)|, (RParen, ")"));
    SpellsJoin3(toks, i, open, EmitFields(fs, tr), [(RParen, ")")]);
    RecordLexemes(n, fs, tr);
  }

  lemma {:induction false} ArrayDoc(toks: seq<Token>, i: nat) returns (d: Doc)
    requires i <= |toks| && PunctText(toks) && ParseArray(toks, i).Ok?
    ensures Spells(toks, i, Emit(d))
    decreases |toks| - i, 1
  {
    assert Expect(toks, i, LBrack) == Ok(i + 1);
    PunctSpelled(toks, i, (LBrack, "["));
    var close: seq<Lexeme> := [(RBrack, "]")];
    var es: seq<Doc>, tr := [], false;
    if Peek(toks, i + 1).kind == RBrack {
      PunctSpelled(toks, i + 1, (RBrack, "]"));
    } else {
      es, tr := ElementsDoc(toks, i + 1, []);
    }
    d := DArr(es, tr);
    ArrayLexemes(es, tr);
    SpellsJoin(toks, i, [(LBrack, "[")], EmitElems(es, tr) + close);
  }

  // The layout of `Emit` one level down, stated once.

  lemma ArrayLexemes(es: seq<Doc>, tr: bool)
    ensures Emit(DArr(es, tr)) == [(LBrack, "[")] + (EmitElems(es, tr) + [(RBrack, "]")])
    ensures es == [] ==> EmitElems(es, tr) + [(RBrack, "]")] == [(RBrack, "]")]
  {
  }

  lemma RecordLexemes(n: Bytes, fs: seq<Field>, tr: bool)
    ensures Emit(DRec(n, fs, tr)) == [(Ident, n), (LParen, "(")] + EmitFields(fs, tr) + [(RParen, ")")]
  {
  }

  lemma ElemsLexemes(e: Doc, rest: seq<Doc>, tr: bool)
    ensures rest == [] ==> EmitElems([e], tr) == Emit(e) + Separator(true, tr)
    ensures rest != [] ==> EmitElems([e] + rest, tr) == Emit(e) + [(Comma, ",")] + EmitElems(rest, tr)
  {
    assert ([e] + rest)[1..] == rest;
    assert [e][1..] == [];
  }

  lemma FieldsLexemes(f: Field, rest: seq<Field>, tr: bool)
    ensures var head := [(Ident, f.key), (Colon, ":")] + Emit(f.doc);
      && (rest == [] ==> EmitFields([f], tr) == head + Separator(true, tr))
      && (rest != [] ==> EmitFields([f] + rest, tr) == head + [(Comma, ",")] + EmitFields(rest, tr))
  {
    assert ([f] + rest)[1..] == rest;
    assert [f][1..] == [];
  }

  /** The elements an element loop read, with the closing `]`. */
  lemma {:induction false} ElementsDoc(toks: seq<Token>, i: nat, acc: seq<Value>) returns (es: seq<Doc>, tr: bool)
    requires i <= |toks| && PunctText(toks) && ParseElements(toks, i, acc).Ok?
    ensures es != [] && Spells(toks, i, EmitElems(es, tr) + [(RBrack, "]")])
    decreases |toks| - i, 3
  {
    var (v, k) := ParseValue(toks, i).value;
    var e := ValueDoc(toks, i);
    SpelledEnd(toks, i, e);
    if Peek(toks, k).kind == Comma && Peek(toks, k + 1).kind == RBrack {
      es, tr := [e], true;
      ElementsClosed(toks, i, e, tr);
    } else if Peek(toks, k).kind == Comma {
      var rest, t := ElementsDoc(toks, k + 1, acc + [v]);
      es, tr := [e] + rest, t;
      ElementsJoined(toks, i, e, rest, tr);
    } else {
      assert CloseArray(toks, k, acc + [v]).Ok?;
      es, tr := [e], false;
      ElementsClosed(toks, i, e, tr);
    }
  }

  /** An element list that ends with element `e`, then a comma if `tr`,
      then `]`. */
  lemma ElementsClosed(toks: seq<Token>, i: nat, e: Doc, tr: bool)
    requires PunctText(toks) && Spells(toks, i, Emit(e))
    requires var k := i + |Emit(e)|;
      if tr then k + 1 < |toks| && toks[k].kind == Comma && toks[k + 1].kind == RBrack
      else k < |toks| && toks[k].kind == RBrack
    ensures Spells(toks, i, EmitElems([e], tr) + [(RBrack, "]")])
  {
    var k := i + |Emit(e)|;
    var close: seq<Lexeme> := [(RBrack, "]")];
    ElemsLexemes(e, [], tr);
    if tr {
      PunctSpelled(toks, k, (Comma, ","));
      PunctSpelled(toks, k + 1, (RBrack, "]"));
      SpellsJoin3(toks, i, Emit(e), [(Comma, ",")], close);
    } else {
      PunctSpelled(toks, k, (RBrack, "]"));
      SpellsJoin(toks, i, Emit(e), close);
      assert EmitElems([e], tr) + close == Emit(e) + close;
    }
  }

  /** Element `e`, a comma, and the rest of the list. */
  lemma ElementsJoined(toks: seq<Token>, i: nat, e: Doc, rest: seq<Doc>, tr: bool)
    requires PunctText(toks) && Spells(toks, i, Emit(e)) && rest != []
    requires i + |Emit(e)| < |toks| && toks[i + |Emit(e)|].kind == Comma
    requires Spells(toks, i + |Emit(e)| + 1, EmitElems(rest, tr) + [(RBrack, "]")])
    ensures Spells(toks, i, EmitElems([e] + rest, tr) + [(RBrack, "]")])
  {
    var more := EmitElems(rest, tr) + [(RBrack, "]")];
    PunctSpelled(toks, i + |Emit(e)|, (Comma, ","));
    SpellsJoin3(toks, i, Emit(e), [(Comma, ",")], more);
    ElemsLexemes(e, rest, tr);
    assert EmitElems([e] + rest, tr) + [(RBrack, "]")] == Emit(e) + [(Comma, ",")] + more;
  }

  /** The fields of a record the parser read, up to its `)`. */
  lemma {:induction false} FieldsDoc(toks: seq<Token>, i: nat) returns (fs: seq<Field>, tr: bool)
    requires i <= |toks| && PunctText(toks) && ParseFields(toks, i).Ok?
    ensures Spells(toks, i, EmitFields(fs, tr))
    ensures ParseFields(toks, i).value.1 == i + |EmitFields(fs, tr)|
    decreases |toks| - i, 4
  {
    if Peek(toks, i).kind == RParen {
      fs, tr := [], false;
    } else {
      fs, tr := FieldListDoc(toks, i, map[]);
    }
  }

  lemma {:induction false} FieldListDoc(toks: seq<Token>, i: nat, acc: Fields) returns (fs: seq<Field>, tr: bool)
    requires i <= |toks| && PunctText(toks) && ParseFieldList(toks, i, acc).Ok?
    ensures fs != [] && Spells(toks, i, EmitFields(fs, tr))
    ensures ParseFieldList(toks, i, acc).value.1 == i + |EmitFields(fs, tr)|
    decreases |toks| - i, 3
  {
    var key := toks[i].value;
    assert Expect(toks, i + 1, Colon) == Ok(i + 2);
    var (v, k) := ParseValue(toks, i + 2).value;
    var e := ValueDoc(toks, i + 2);
    SpelledEnd(toks, i + 2, e);
    var f := Field(key, e);
    FieldSpelled(toks, i, f);
    if Peek(toks, k).kind == Comma && Peek(toks, k + 1).kind == RParen {
      fs, tr := [f], true;
      FieldLast(toks, i, f, tr);
    } else if Peek(toks, k).kind == Comma {
      var rest, t := FieldListDoc(toks, k + 1, acc[key := v]);
      fs, tr := [f] + rest, t;
      FieldsJoined(toks, i, f, rest, tr);
    } else {
      fs, tr := [f], false;
      FieldLast(toks, i, f, tr);
    }
  }

  /** The lexemes of one field, up to its separator. */
  function FieldHead(f: Field): seq<Lexeme> {
    [(Ident, f.key), (Colon, ":")] + Emit(f.doc)
  }

  lemma FieldSpelled(toks: seq<Token>, i: nat, f: Field)
    requires PunctText(toks) && i + 1 < |toks|
    requires toks[i].kind == Ident && toks[i].value == f.key && toks[i + 1].kind == Colon
    requires Spells(toks, i + 2, Emit(f.doc))
    ensures Spells(toks, i, FieldHead(f))
  {
    SelfSpelled(toks, i);
    PunctSpelled(toks, i + 1, (Colon, ":"));
    SpellsJoin3(toks, i, [(Ident, f.key)], [(Colon, ":")], Emit(f.doc));
    assert FieldHead(f) == [(Ident, f.key)] + [(Colon, ":")] + Emit(f.doc);
  }

  /** The last field, then a comma if `tr`; the `)` is not part of it. */
  lemma FieldLast(toks: seq<Token>, i: nat, f: Field, tr: bool)
    requires PunctText(toks) && Spells(toks, i, FieldHead(f))
    requires tr ==> i + |FieldHead(f)| < |toks| && toks[i + |FieldHead(f)|].kind == Comma
    ensures Spells(toks, i, EmitFields([f], tr))
    ensures |EmitFields([f], tr)| == |FieldHead(f)| + (if tr then 1 else 0)
  {
    FieldsLexemes(f, [], tr);
    if tr {
      PunctSpelled(toks, i + |FieldHead(f)|, (Comma, ","));
      SpellsJoin(toks, i, FieldHead(f), [(Comma, ",")]);
    } else {
      assert EmitFields([f], tr) == FieldHead(f);
    }
  }

  /** Field `f`, a comma, and the rest of the list. */
  lemma FieldsJoined(toks: seq<Token>, i: nat, f: Field, rest: seq<Field>, tr: bool)
    requires PunctText(toks) && Spells(toks, i, FieldHead(f)) && rest != []
    requires i + |FieldHead(f)| < |toks| && toks[i + |FieldHead(f)|].kind == Comma
    requires Spells(toks, i + |FieldHead(f)| + 1, EmitFields(rest, tr))
    ensures Spells(toks, i, EmitFields([f] + rest, tr))
    ensures |EmitFields([f] + rest, tr)| == |FieldHead(f)| + 1 + |EmitFields(rest, tr)|
  {
    PunctSpelled(toks, i + |FieldHead(f)|, (Comma, ","));
    SpellsJoin3(toks, i, FieldHead(f), [(Comma, ",")], EmitFields(rest, tr));
    FieldsLexemes(f, rest, tr);
  }

  /** The parser succeeds at `i` exactly when the tokens there spell a
      document whose meaning is defined; then it returns that meaning and
      stops just past the document. */
  lemma ParseValueMeaning(toks: seq<Token>, i: nat)
    requires i <= |toks| && PunctText(toks)
    ensures ParseValue(toks, i).Ok? <==> exists d :: Spells(toks, i, Emit(d)) && Eval(d).Ok?
    ensures ParseValue(toks, i).Ok? ==>
      exists d :: && Spells(toks, i, Emit(d))
                  && Eval(d) == Ok(ParseValue(toks, i).value.0)
                  && ParseValue(toks, i).value.1 == i + |Emit(d)|
  {
    if ParseValue(toks, i).Ok? {
      var d := ValueDoc(toks, i);
      ParseEmitted(toks, i, d);
    }
    forall d | Spells(toks, i, Emit(d)) && Eval(d).Ok?
      ensures ParseValue(toks, i).Ok?
    {
      ParseEmitted(toks, i, d);
    }
  }

  /** The tokenizer gives every punctuation token its one-byte text. */
  lemma TokenizeIsPunctText(input: Bytes)
    ensures Tokenize(input).Ok? ==> PunctText(Tokenize(input).value)
  {
    TokenizePunctText(input, 0);
  }

  lemma {:induction false} TokenizePunctText(input: Bytes, pos: nat)
    requires pos <= |input|
    ensures TokenizeFrom(input, pos).Ok? ==> PunctText(TokenizeFrom(input, pos).value)
    decreases |input| - pos
  {
    match NextToken(input, pos)
    case Err(_) =>
    case Ok((tok, next)) =>
      if tok.kind != EOF {
        TokenizePunctText(input, next);
        match TokenizeFrom(input, next)
        case Err(_) =>
        case Ok(rest) =>
          assert TokenizeFrom(input, pos) == Ok([tok] + rest);
          HeadPunctText(input, pos);
          PunctTextCons(tok, rest);
      }
  }

  lemma HeadPunctText(input: Bytes, pos: nat)
    requires pos <= |input| && NextToken(input, pos).Ok?
    ensures var tok := NextToken(input, pos).value.0;
      tok.kind !in {Str, Ident, EOF} ==> |tok.value| == 1 && PunctKind(tok.value[0]) == Some(tok.kind)
  {
    NextTokenMeaning(input, pos);
    var (tok, next) := NextToken(input, pos).value;
    if tok.kind !in {Str, Ident, EOF} {
      assert tok.value == input[tok.pos..tok.pos + 1];
      assert tok.value[0] == input[tok.pos];
    }
  }

  lemma PunctTextCons(tok: Token, rest: seq<Token>)
    requires tok.kind !in {Str, Ident, EOF} ==> |tok.value| == 1 && PunctKind(tok.value[0]) == Some(tok.kind)
    requires PunctText(rest)
    ensures PunctText([tok] + rest)
  {
    forall k | 1 <= k < |[tok] + rest|
      ensures ([tok] + rest)[k] == rest[k - 1]
    {
    }
  }

  /** The reader accepts a text as schedule `s` exactly when the text
      tokenizes and its tokens start with the spelling of a document that
      means `s`. */
  lemma ReaderAccepts(input: Bytes, s: Schedule)
    ensures ParseRon(input) == Ok(s) <==>
      && Tokenize(input).Ok?
      && exists d :: Spells(Tokenize(input).value, 0, Emit(d)) && Eval(d) == Ok(VSchedule(s))
  {
    if Tokenize(input).Ok? {
      TokenizeIsPunctText(input);
      ScheduleMeaning(Tokenize(input).value, s);
    }
  }

  /** The parser's entry point returns schedule `s` exactly when the tokens
      start with the spelling of a document that means `s`. */
  lemma ScheduleMeaning(toks: seq<Token>, s: Schedule)
    requires PunctText(toks)
    ensures Parse(toks) == Ok(s) <==> exists d :: Spells(toks, 0, Emit(d)) && Eval(d) == Ok(VSchedule(s))
  {
    if Parse(toks) == Ok(s) {
      var d := ValueDoc(toks, 0);
      ParseEmitted(toks, 0, d);
      assert Eval(d) == Ok(VSchedule(s));
    }
    forall d | Spells(toks, 0, Emit(d)) && Eval(d) == Ok(VSchedule(s))
      ensures Parse(toks) == Ok(s)
    {
      ParseEmitted(toks, 0, d);
    }
  }

  /** A record name must be followed by `(`. */
  lemma RecordNeedsParen(toks: seq<Token>, i: nat)
    requires i < |toks| && toks[i].kind == Ident && Peek(toks, i + 1).kind != LParen
    ensures ParseValue(toks, i) == Err(Expected(LParen, Peek(toks, i + 1).kind, Peek(toks, i + 1).pos))
  {
  }

  /** A field name must be followed by `:`, in any field of a record. */
  lemma FieldNeedsColon(toks: seq<Token>, i: nat, acc: Fields)
    requires i < |toks| && toks[i].kind == Ident && Peek(toks, i + 1).kind != Colon
    ensures ParseFieldList(toks, i, acc) == Err(Expected(Colon, Peek(toks, i + 1).kind, Peek(toks, i + 1).pos))
  {
  }

  /** The same for the first field, seen from the record. */
  lemma FirstFieldNeedsColon(toks: seq<Token>, i: nat)
    requires i + 2 < |toks| && toks[i].kind == Ident && toks[i + 1].kind == LParen && toks[i + 2].kind == Ident
    requires Peek(toks, i + 3).kind != Colon
    ensures ParseValue(toks, i) == Err(Expected(Colon, Peek(toks, i + 3).kind, Peek(toks, i + 3).pos))
  {
    FieldNeedsColon(toks, i + 2, map[]);
    assert Expect(toks, i + 1, LParen) == Ok(i + 2);
  }

  /** A value starts with a string, a record name or `[`; any other token,
      including the end of the stream, is reported where it stands. */
  lemma ValueStart(toks: seq<Token>, i: nat)
    requires i <= |toks| && Peek(toks, i).kind !in {Str, Ident, LBrack}
    ensures ParseValue(toks, i) == Err(UnexpectedToken(Peek(toks, i).kind, Peek(toks, i).pos))
  {
  }
}
