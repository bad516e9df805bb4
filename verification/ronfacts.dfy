/** What the parser does with particular shapes of input: records are
    materialized as soon as they close, a repeated field keeps its last
    value, commas and separators are checked, and the root must be a
    Schedule. Stated over documents, whose meaning the parser computes on
    any token stream spelling them. */
module RonFacts {
  import opened Bytes
  import opened Results
  import opened Lexer
  import opened Values
  import opened Materializer
  import opened Parser
  import opened RonDocs

  /** Some record in the document, at any depth, has a type name other than
      the three known ones. */
  predicate HasUnknown(d: Doc)
    decreases d, 1
  {
    match d
    case DStr(_) => false
    case DArr(es, _) => ElemsHaveUnknown(es)
    case DRec(n, fs, _) => n !in {"Schedule", "Day", "Lesson"} || FieldsHaveUnknown(fs)
  }

  predicate ElemsHaveUnknown(es: seq<Doc>)
    decreases es, 0
  {
    es != [] && (HasUnknown(es[0]) || ElemsHaveUnknown(es[1..]))
  }

  predicate FieldsHaveUnknown(fs: seq<Field>)
    decreases fs, 0
  {
    fs != [] && (HasUnknown(fs[0].doc) || FieldsHaveUnknown(fs[1..]))
  }

  /** Materialization is eager: an unknown record anywhere fails the whole
      document, even inside a field its enclosing record never reads. */
  lemma {:induction false} UnknownFails(d: Doc)
    requires HasUnknown(d)
    ensures Eval(d).Err?
    decreases d, 1
  {
    match d
    case DArr(es, _) =>
      ElemsFail(es);
    case DRec(n, fs, _) =>
      if FieldsHaveUnknown(fs) {
        FieldsFail(fs, map[]);
      }
  }

  lemma {:induction false} ElemsFail(es: seq<Doc>)
    requires ElemsHaveUnknown(es)
    ensures EvalElems(es).Err?
    decreases es, 0
  {
    if HasUnknown(es[0]) {
      UnknownFails(es[0]);
    } else if Eval(es[0]).Ok? {
      ElemsFail(es[1..]);
    }
  }

  lemma {:induction false} FieldsFail(fs: seq<Field>, acc: Fields)
    requires FieldsHaveUnknown(fs)
    ensures EvalFields(fs, acc).Err?
    decreases fs, 0
  {
    if HasUnknown(fs[0].doc) {
      UnknownFails(fs[0].doc);
    } else if Eval(fs[0].doc).Ok? {
      FieldsFail(fs[1..], acc[fs[0].key := Eval(fs[0].doc).value]);
    }
  }

  /** On tokens: the parse of a document with an unknown record fails. */
  lemma ParseUnknownFails(toks: seq<Token>, i: nat, d: Doc)
    requires Spells(toks, i, Emit(d)) && HasUnknown(d)
    ensures ParseValue(toks, i).Err?
  {
    ParseEmitted(toks, i, d);
    UnknownFails(d);
  }

  /** A Lesson ignores every field but its six, yet an unknown record in an
      ignored field still fails it. */
  lemma IgnoredFieldStillFails()
    ensures Eval(DRec("Lesson", [Field("note", DRec("Note", [], false))], false)) == Err(UnknownType("Note"))
  {
    var inner := DRec("Note", [], false);
    assert Eval(inner) == Err(UnknownType("Note"));
    var fs := [Field("note", inner)];
    assert EvalFields(fs, map[]) == Err(UnknownType("Note"));
  }

  /** Reading fields in two parts. */
  lemma {:induction false} EvalFieldsAppend(fs: seq<Field>, gs: seq<Field>, acc: Fields)
    ensures EvalFields(fs + gs, acc)
      == match EvalFields(fs, acc)
         case Err(e) => Err(e)
         case Ok(m) => EvalFields(gs, m)
    decreases fs
  {
    if fs == [] {
      assert fs + gs == gs;
    } else {
      assert (fs + gs)[0] == fs[0];
      assert (fs + gs)[1..] == fs[1..] + gs;
      match Eval(fs[0].doc)
      case Err(_) =>
      case Ok(v) =>
        EvalFieldsAppend(fs[1..], gs, acc[fs[0].key := v]);
    }
  }

  /** A field given twice in a row keeps the second value: the first is
      overwritten. */
  lemma DuplicateLastWins(fs: seq<Field>, key: Bytes, d1: Doc, d2: Doc, acc: Fields)
    requires EvalFields(fs, acc).Ok? && Eval(d1).Ok? && Eval(d2).Ok?
    ensures EvalFields(fs + [Field(key, d1), Field(key, d2)], acc)
      == Ok(EvalFields(fs, acc).value[key := Eval(d2).value])
  {
    var m := EvalFields(fs, acc).value;
    var v1 := Eval(d1).value;
    var v2 := Eval(d2).value;
    var gs := [Field(key, d1), Field(key, d2)];
    EvalFieldsAppend(fs, gs, acc);
    TwoFields(key, d1, d2, m);
    assert m[key := v1][key := v2] == m[key := v2];
  }

  /** The keys a list of fields sets. */
  function FieldKeys(fs: seq<Field>): set<Bytes> {
    if fs == [] then {} else {fs[0].key} + FieldKeys(fs[1..])
  }

  /** A field given twice keeps the second value, whatever fields come
      before, between and after the two, as long as none after the second
      has the same key. */
  lemma LaterDuplicateWins(fs: seq<Field>, gs: seq<Field>, hs: seq<Field>, key: Bytes, d1: Doc, d2: Doc, acc: Fields)
    requires key !in FieldKeys(hs)
    ensures var r := EvalFields(fs + [Field(key, d1)] + gs + [Field(key, d2)] + hs, acc);
      r.Ok? ==> Eval(d2).Ok? && key in r.value && r.value[key] == Eval(d2).value
  {
    var front := fs + [Field(key, d1)] + gs;
    EvalFieldsAppend(front + [Field(key, d2)], hs, acc);
    EvalFieldsAppend(front, [Field(key, d2)], acc);
    if EvalFields(front, acc).Ok? && Eval(d2).Ok? {
      var m := EvalFields(front, acc).value[key := Eval(d2).value];
      OneField(key, d2, EvalFields(front, acc).value);
      KeyKept(hs, key, m);
    }
  }

  lemma OneField(key: Bytes, d: Doc, m: Fields)
    requires Eval(d).Ok?
    ensures EvalFields([Field(key, d)], m) == Ok(m[key := Eval(d).value])
  {
    assert [Field(key, d)][1..] == [];
  }

  /** Fields with other keys leave a key's value alone. */
  lemma {:induction false} KeyKept(hs: seq<Field>, key: Bytes, m: Fields)
    requires key !in FieldKeys(hs) && key in m
    ensures EvalFields(hs, m).Ok? ==> key in EvalFields(hs, m).value && EvalFields(hs, m).value[key] == m[key]
    decreases hs
  {
    if hs != [] && Eval(hs[0].doc).Ok? {
      KeyKept(hs[1..], key, m[hs[0].key := Eval(hs[0].doc).value]);
    }
  }

  lemma TwoFields(key: Bytes, d1: Doc, d2: Doc, m: Fields)
    requires Eval(d1).Ok? && Eval(d2).Ok?
    ensures EvalFields([Field(key, d1), Field(key, d2)], m)
      == Ok(m[key := Eval(d1).value][key := Eval(d2).value])
  {
    var gs := [Field(key, d1), Field(key, d2)];
    var m1 := m[key := Eval(d1).value];
    var m2 := m1[key := Eval(d2).value];
    assert gs[1..] == [Field(key, d2)];
    assert gs[1..][1..] == [];
    assert EvalFields(gs[1..][1..], m2) == Ok(m2);
    assert EvalFields(gs[1..], m1) == Ok(m2);
    assert EvalFields(gs, m) == EvalFields(gs[1..], m1);
  }

  /** `[` directly followed by `,` is an unexpected comma. */
  lemma LeadingComma(toks: seq<Token>, i: nat)
    requires i + 1 < |toks| && toks[i].kind == LBrack && toks[i + 1].kind == Comma
    ensures ParseValue(toks, i) == Err(UnexpectedToken(Comma, toks[i + 1].pos))
  {
    var e := Err(UnexpectedToken(Comma, toks[i + 1].pos));
    assert ParseValue(toks, i + 1) == e;
    assert ParseElements(toks, i + 1, []) == e;
    assert ParseArray(toks, i) == e;
  }

  /** `(` directly followed by `,` in a record is a missing field name. */
  lemma LeadingCommaInRecord(toks: seq<Token>, i: nat)
    requires i + 2 < |toks| && toks[i].kind == Ident && toks[i + 1].kind == LParen && toks[i + 2].kind == Comma
    ensures ParseValue(toks, i) == Err(ExpectedFieldName(Comma, toks[i + 2].pos))
  {
    assert ParseFields(toks, i + 2) == Err(ExpectedFieldName(Comma, toks[i + 2].pos));
  }

  /** Only one trailing comma: `[v,,` fails at the second comma. */
  lemma DoubleComma(toks: seq<Token>, i: nat, d: Doc)
    requires Spells(toks, i, [(LBrack, "[")] + (Emit(d) + [(Comma, ","), (Comma, ",")]))
    requires Eval(d).Ok?
    ensures ParseValue(toks, i) == Err(UnexpectedToken(Comma, toks[i + 2 + |Emit(d)|].pos))
  {
    var k := i + 1 + |Emit(d)|;
    var commas := [(Comma, ","), (Comma, ",")];
    ArraySpelled(toks, i, d, commas);
    assert toks[k].kind == Comma && toks[k + 1].kind == Comma by {
      assert (toks[k + 0].kind, toks[k + 0].value) == commas[0];
      assert (toks[k + 1].kind, toks[k + 1].value) == commas[1];
    }
    EmittedValue(toks, i + 1, d);
    ArrayDoubleComma(toks, i, Eval(d).value, k);
  }

  /** Two elements with no comma between them. */
  lemma MissingSeparator(toks: seq<Token>, i: nat, d1: Doc, d2: Doc)
    requires Spells(toks, i, [(LBrack, "[")] + (Emit(d1) + Emit(d2)))
    requires Eval(d1).Ok?
    ensures var k := i + 1 + |Emit(d1)|;
      ParseValue(toks, i) == Err(ExpectedSeparator(RBrack, Emit(d2)[0].0, toks[k].pos))
  {
    ElementThenOther(toks, i, d1, Emit(d2));
  }

  /** An element followed by anything that is neither a comma nor `]`. */
  lemma ElementThenOther(toks: seq<Token>, i: nat, d: Doc, rest: seq<Lexeme>)
    requires Spells(toks, i, [(LBrack, "[")] + (Emit(d) + rest))
    requires Eval(d).Ok? && rest != [] && rest[0].0 != Comma && rest[0].0 != RBrack
    ensures var k := i + 1 + |Emit(d)|;
      ParseValue(toks, i) == Err(ExpectedSeparator(RBrack, rest[0].0, toks[k].pos))
  {
    var k := i + 1 + |Emit(d)|;
    ArraySpelled(toks, i, d, rest);
    FirstSpelled(toks, k, rest);
    EmittedValue(toks, i + 1, d);
    ArrayUnseparated(toks, i, Eval(d).value, k);
  }

  /** Two fields with no comma between them. */
  lemma MissingFieldSeparator(toks: seq<Token>, i: nat, name: Bytes, key: Bytes, d: Doc, next: Bytes)
    requires Spells(toks, i, [(Ident, name), (LParen, "("), (Ident, key), (Colon, ":")] + (Emit(d) + [(Ident, next)]))
    requires Eval(d).Ok?
    ensures var k := i + 4 + |Emit(d)|;
      ParseValue(toks, i) == Err(ExpectedSeparator(RParen, Ident, toks[k].pos))
  {
    var k := i + 4 + |Emit(d)|;
    RecordSpelled(toks, i, name, key, d, next);
    EmittedValue(toks, i + 4, d);
    RecordUnseparated(toks, i, Eval(d).value, k);
  }

  // Single steps of the parser towards the errors above.

  /** The tokens of `[`, then `d`, then `rest`. */
  lemma ArraySpelled(toks: seq<Token>, i: nat, d: Doc, rest: seq<Lexeme>)
    requires Spells(toks, i, [(LBrack, "[")] + (Emit(d) + rest))
    ensures && toks[i].kind == LBrack && toks[i + 1].kind == Emit(d)[0].0
            && Spells(toks, i + 1, Emit(d)) && Spells(toks, i + 1 + |Emit(d)|, rest)
  {
    SpellsSplit(toks, i, [(LBrack, "[")], Emit(d) + rest);
    SpellsSplit(toks, i + 1, Emit(d), rest);
    assert (toks[i + 0].kind, toks[i + 0].value) == [(LBrack, "[")][0];
    assert (toks[i + 1 + 0].kind, toks[i + 1 + 0].value) == Emit(d)[0];
  }

  /** The tokens of `name(key: d next`, one by one. */
  lemma RecordSpelled(toks: seq<Token>, i: nat, name: Bytes, key: Bytes, d: Doc, next: Bytes)
    requires Spells(toks, i, [(Ident, name), (LParen, "("), (Ident, key), (Colon, ":")] + (Emit(d) + [(Ident, next)]))
    ensures var k := i + 4 + |Emit(d)|;
      && toks[i].kind == Ident && toks[i + 1].kind == LParen && toks[i + 2].kind == Ident && toks[i + 3].kind == Colon
      && k < |toks| && toks[k].kind == Ident && Spells(toks, i + 4, Emit(d))
  {
    var head := [(Ident, name), (LParen, "("), (Ident, key), (Colon, ":")];
    var k := i + 4 + |Emit(d)|;
    SpellsSplit(toks, i, head, Emit(d) + [(Ident, next)]);
    SpellsSplit(toks, i + 4, Emit(d), [(Ident, next)]);
    assert (toks[i + 0].kind, toks[i + 0].value) == head[0];
    assert (toks[i + 1].kind, toks[i + 1].value) == head[1];
    assert (toks[i + 2].kind, toks[i + 2].value) == head[2];
    assert (toks[i + 3].kind, toks[i + 3].value) == head[3];
    assert (toks[k + 0].kind, toks[k + 0].value) == [(Ident, next)][0];
  }


  /** `[v,,`: the second comma starts no value. */
  lemma ArrayDoubleComma(toks: seq<Token>, i: nat, v: Value, k: nat)
    requires i + 1 < |toks| && toks[i].kind == LBrack && toks[i + 1].kind != RBrack
    requires ParseValue(toks, i + 1) == Ok((v, k))
    requires k + 1 < |toks| && toks[k].kind == Comma && toks[k + 1].kind == Comma
    ensures ParseValue(toks, i) == Err(UnexpectedToken(Comma, toks[k + 1].pos))
  {
    var e := UnexpectedToken(Comma, toks[k + 1].pos);
    assert ParseElements(toks, i + 1, []) == Err(e) by {
      ElementsDoubleComma(toks, i + 1, [], v, k);
    }
    ArrayFails(toks, i, e);
  }

  /** `[v w`: no comma after the first element. */
  lemma ArrayUnseparated(toks: seq<Token>, i: nat, v: Value, k: nat)
    requires i + 1 < |toks| && toks[i].kind == LBrack && toks[i + 1].kind != RBrack
    requires ParseValue(toks, i + 1) == Ok((v, k))
    requires k < |toks| && toks[k].kind != Comma && toks[k].kind != RBrack
    ensures ParseValue(toks, i) == Err(ExpectedSeparator(RBrack, toks[k].kind, toks[k].pos))
  {
    var e := ExpectedSeparator(RBrack, toks[k].kind, toks[k].pos);
    assert ParseElements(toks, i + 1, []) == Err(e) by {
      ElementsUnseparated(toks, i + 1, [], v, k);
    }
    ArrayFails(toks, i, e);
  }

  /** `name(key: v w`: no comma after the first field. */
  lemma RecordUnseparated(toks: seq<Token>, i: nat, v: Value, k: nat)
    requires i + 3 < |toks| && toks[i].kind == Ident && toks[i + 1].kind == LParen
    requires toks[i + 2].kind == Ident && toks[i + 3].kind == Colon
    requires ParseValue(toks, i + 4) == Ok((v, k))
    requires k < |toks| && toks[k].kind != Comma && toks[k].kind != RParen
    ensures ParseValue(toks, i) == Err(ExpectedSeparator(RParen, toks[k].kind, toks[k].pos))
  {
    var e := ExpectedSeparator(RParen, toks[k].kind, toks[k].pos);
    assert ParseFieldList(toks, i + 2, map[]) == Err(e) by {
      FieldsUnseparated(toks, i + 2, map[], v, k);
    }
    RecordFails(toks, i, e);
  }

  /** An array with a first element fails as its element loop does. */
  lemma ArrayFails(toks: seq<Token>, i: nat, e: ParseError)
    requires i + 1 < |toks| && toks[i].kind == LBrack && toks[i + 1].kind != RBrack
    requires ParseElements(toks, i + 1, []) == Err(e)
    ensures ParseValue(toks, i) == Err(e)
  {
    assert Expect(toks, i, LBrack) == Ok(i + 1);
  }

  /** A record with a first field fails as its field loop does. */
  lemma RecordFails(toks: seq<Token>, i: nat, e: ParseError)
    requires i + 2 < |toks| && toks[i].kind == Ident && toks[i + 1].kind == LParen && toks[i + 2].kind != RParen
    requires ParseFieldList(toks, i + 2, map[]) == Err(e)
    ensures ParseValue(toks, i) == Err(e)
  {
    assert Expect(toks, i + 1, LParen) == Ok(i + 2);
  }

  /** An element followed by two commas: the second comma starts no value. */
  lemma ElementsDoubleComma(toks: seq<Token>, i: nat, acc: seq<Value>, v: Value, k: nat)
    requires i <= |toks| && ParseValue(toks, i) == Ok((v, k))
    requires k + 1 < |toks| && toks[k].kind == Comma && toks[k + 1].kind == Comma
    ensures ParseElements(toks, i, acc) == Err(UnexpectedToken(Comma, toks[k + 1].pos))
  {
    ElementNext(toks, i, acc, v, k);
    CommaStartsNoValue(toks, k + 1);
    ElementFails(toks, k + 1, acc + [v]);
  }

  /** A comma cannot start a value. */
  lemma CommaStartsNoValue(toks: seq<Token>, j: nat)
    requires j < |toks| && toks[j].kind == Comma
    ensures ParseValue(toks, j) == Err(UnexpectedToken(Comma, toks[j].pos))
  {
    assert Peek(toks, j) == toks[j];
  }

  /** An element followed by neither a comma nor `]`. */
  lemma ElementsUnseparated(toks: seq<Token>, i: nat, acc: seq<Value>, v: Value, k: nat)
    requires i <= |toks| && ParseValue(toks, i) == Ok((v, k))
    requires k < |toks| && toks[k].kind != Comma && toks[k].kind != RBrack
    ensures ParseElements(toks, i, acc) == Err(ExpectedSeparator(RBrack, toks[k].kind, toks[k].pos))
  {
    assert Peek(toks, k) == toks[k];
  }

  /** A field whose value is followed by neither a comma nor `)`. */
  lemma FieldsUnseparated(toks: seq<Token>, i: nat, acc: Fields, v: Value, k: nat)
    requires i + 1 < |toks| && toks[i].kind == Ident && toks[i + 1].kind == Colon
    requires ParseValue(toks, i + 2) == Ok((v, k))
    requires k < |toks| && toks[k].kind != Comma && toks[k].kind != RParen
    ensures ParseFieldList(toks, i, acc) == Err(ExpectedSeparator(RParen, toks[k].kind, toks[k].pos))
  {
    assert Expect(toks, i + 1, Colon) == Ok(i + 2);
  }

  /** A root that is read but is not a Schedule is rejected with its kind. */
  lemma RootMustBeSchedule(toks: seq<Token>, d: Doc)
    requires Spells(toks, 0, Emit(d)) && Eval(d).Ok? && !Eval(d).value.VSchedule?
    ensures Parse(toks) == Err(RootNotSchedule(TagOf(Eval(d).value)))
  {
    ParseEmitted(toks, 0, d);
  }
}
