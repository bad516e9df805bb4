/** Documents of the notation as trees, the token stream that spells each
    one, and what a document means: the value the parser must build for it,
    or the first error met in reading order. The main result is that on any
    token stream spelling a document the parser computes exactly that
    meaning, whatever offsets the tokens carry and whatever follows. */
module RonDocs {
  import opened Bytes
  import opened Results
  import opened Lexer
  import opened Values
  import opened Materializer
  import opened Parser

  /** A document: a string, an array, or a record with its type name and its
      fields in order. `trail` asks for a comma after the last element or
      field, which the grammar allows. */
  datatype Doc =
    | DStr(s: Bytes)
    | DArr(elems: seq<Doc>, trail: bool)
    | DRec(name: Bytes, fields: seq<Field>, trail: bool)

  datatype Field = Field(key: Bytes, doc: Doc)

  /** A token without its offset. */
  type Lexeme = (Kind, Bytes)

  /** The comma after an element or field: always between two of them, and
      after the last one only when a trailing comma is asked for. */
  function Separator(last: bool, trail: bool): seq<Lexeme>
  {
    if !last || trail then [(Comma, ",")] else []
  }

  /** The token stream of a document. */
  function Emit(d: Doc): (ls: seq<Lexeme>)
    ensures |ls| > 0 && ls[0].0 in {Str, LBrack, Ident}
    decreases d, 1
  {
    match d
    case DStr(s) => [(Str, s)]
    case DArr(es, t) => [(LBrack, "[")] + EmitElems(es, t) + [(RBrack, "]")]
    case DRec(n, fs, t) => [(Ident, n), (LParen, "(")] + EmitFields(fs, t) + [(RParen, ")")]
  }

  function EmitElems(es: seq<Doc>, trail: bool): seq<Lexeme>
    decreases es, 0
  {
    if es == [] then []
    else Emit(es[0]) + Separator(|es| == 1, trail) + EmitElems(es[1..], trail)
  }

  function EmitFields(fs: seq<Field>, trail: bool): seq<Lexeme>
    decreases fs, 0
  {
    if fs == [] then []
    else [(Ident, fs[0].key), (Colon, ":")] + Emit(fs[0].doc) + Separator(|fs| == 1, trail)
         + EmitFields(fs[1..], trail)
  }

  /** The meaning of a document: strings and arrays stand for themselves, a
      record is materialized from its fields, where a later field of the same
      name replaces an earlier one; the first failure in reading order is the
      result. */
  function Eval(d: Doc): Result<Value, ParseError>
    decreases d, 1
  {
    match d
    case DStr(s) => Ok(VStr(s))
    case DArr(es, _) =>
      (match EvalElems(es)
       case Err(e) => Err(e)
       case Ok(vs) => Ok(VArr(vs)))
    case DRec(n, fs, _) =>
      (match EvalFields(fs, map[])
       case Err(e) => Err(e)
       case Ok(m) => Materialize(n, m))
  }

  function EvalElems(es: seq<Doc>): Result<seq<Value>, ParseError>
    decreases es, 0
  {
    if es == [] then Ok([])
    else
      match Eval(es[0])
      case Err(e) => Err(e)
      case Ok(v) =>
        match EvalElems(es[1..])
        case Err(e) => Err(e)
        case Ok(vs) => Ok([v] + vs)
  }

  function EvalFields(fs: seq<Field>, acc: Fields): Result<Fields, ParseError>
    decreases fs, 0
  {
    if fs == [] then Ok(acc)
    else
      match Eval(fs[0].doc)
      case Err(e) => Err(e)
      case Ok(v) => EvalFields(fs[1..], acc[fs[0].key := v])
  }

  /** The tokens from `i` on start with the lexemes `ls`. */
  predicate Spells(toks: seq<Token>, i: nat, ls: seq<Lexeme>) {
    i + |ls| <= |toks| && forall k :: 0 <= k < |ls| ==> (toks[i + k].kind, toks[i + k].value) == ls[k]
  }

  lemma SpellsSplit(toks: seq<Token>, i: nat, a: seq<Lexeme>, b: seq<Lexeme>)
    requires Spells(toks, i, a + b)
    ensures Spells(toks, i, a) && Spells(toks, i + |a|, b)
  {
    assert forall k :: 0 <= k < |a| ==> (a + b)[k] == a[k];
    assert forall k :: 0 <= k < |b| ==> (a + b)[|a| + k] == b[k];
  }

  /** The first token of a spelled non-empty sequence. */
  lemma FirstSpelled(toks: seq<Token>, i: nat, ls: seq<Lexeme>)
    requires ls != [] && Spells(toks, i, ls)
    ensures i < |toks| && toks[i].kind == ls[0].0 && toks[i].value == ls[0].1
  {
    assert (toks[i + 0].kind, toks[i + 0].value) == ls[0];
  }

  /** The parser's result for a value that meant `r` and ended at `n`. */
  function At(r: Result<Value, ParseError>, n: nat): Result<(Value, nat), ParseError> {
    match r
    case Ok(v) => Ok((v, n))
    case Err(e) => Err(e)
  }

  /** The parser computes the meaning of every document it is given the
      tokens of, and stops just past them. */
  lemma {:induction false} ParseEmitted(toks: seq<Token>, i: nat, d: Doc)
    requires Spells(toks, i, Emit(d))
    ensures ParseValue(toks, i) == At(Eval(d), i + |Emit(d)|)
    decreases d, 2
  {
    match d
    case DStr(s) =>
      assert (toks[i + 0].kind, toks[i + 0].value) == Emit(d)[0];
    case DArr(es, t) =>
      ArrayEmitted(toks, i, es, t);
    case DRec(n, fs, t) =>
      RecordEmitted(toks, i, n, fs, t);
  }

  /** The two outcomes of `ParseEmitted`, one at a time. */
  lemma {:induction false} EmittedFails(toks: seq<Token>, i: nat, d: Doc)
    requires Spells(toks, i, Emit(d)) && Eval(d).Err?
    ensures ParseValue(toks, i) == Err(Eval(d).error)
    decreases d, 3
  {
    ParseEmitted(toks, i, d);
  }

  lemma {:induction false} EmittedValue(toks: seq<Token>, i: nat, d: Doc)
    requires Spells(toks, i, Emit(d)) && Eval(d).Ok?
    ensures ParseValue(toks, i) == Ok((Eval(d).value, i + |Emit(d)|))
    decreases d, 3
  {
    ParseEmitted(toks, i, d);
  }

  lemma {:induction false} ArrayEmitted(toks: seq<Token>, i: nat, es: seq<Doc>, t: bool)
    requires Spells(toks, i, Emit(DArr(es, t)))
    ensures ParseValue(toks, i) == At(Eval(DArr(es, t)), i + |Emit(DArr(es, t))|)
    decreases DArr(es, t), 1
  {
    ArrayLayout(toks, i, es, t);
    ArrayStep(toks, i);
    if es != [] {
      var n := i + |Emit(DArr(es, t))|;
      ElementsEmitted(toks, i + 1, es, t, []);
      ArrayMeaning(es, t, n);
    }
  }

  /** Where the brackets and the elements of an array sit. */
  lemma ArrayLayout(toks: seq<Token>, i: nat, es: seq<Doc>, t: bool)
    requires Spells(toks, i, Emit(DArr(es, t)))
    ensures var body := EmitElems(es, t);
      && |Emit(DArr(es, t))| == |body| + 2
      && i + 1 + |body| < |toks|
      && toks[i].kind == LBrack
      && Spells(toks, i + 1, body + [(RBrack, "]")])
      && (es == [] ==> |body| == 0 && toks[i + 1].kind == RBrack)
      && (es != [] ==> toks[i + 1].kind != RBrack)
  {
    var body := EmitElems(es, t);
    var open: seq<Lexeme> := [(LBrack, "[")];
    var close: seq<Lexeme> := [(RBrack, "]")];
    assert Emit(DArr(es, t)) == open + (body + close);
    SpellsSplit(toks, i, open, body + close);
    assert (toks[i + 0].kind, toks[i + 0].value) == open[0];
    var j := i + 1;
    assert (toks[j + 0].kind, toks[j + 0].value) == (body + close)[0];
    if es != [] {
      FirstLexeme(es, t);
    }
  }

  /** The element loop's answer from the first element is the array's
      meaning. */
  lemma ArrayMeaning(es: seq<Doc>, t: bool, n: nat)
    ensures ElementsMeaning(es, [], n) == At(Eval(DArr(es, t)), n)
  {
    match EvalElems(es)
    case Err(_) =>
    case Ok(vs) =>
      assert [] + vs == vs;
  }

  /** One unfolding of the parser on an array. */
  lemma ArrayStep(toks: seq<Token>, i: nat)
    requires i + 1 < |toks| && toks[i].kind == LBrack
    ensures toks[i + 1].kind == RBrack ==> ParseValue(toks, i) == Ok((VArr([]), i + 2))
    ensures toks[i + 1].kind != RBrack ==> ParseValue(toks, i) == ParseElements(toks, i + 1, [])
  {
    assert Peek(toks, i) == toks[i] && Peek(toks, i + 1) == toks[i + 1];
    assert Expect(toks, i, LBrack) == Ok(i + 1);
  }

  // One round of the element loop, by what follows the element.

  lemma ElementFails(toks: seq<Token>, j: nat, acc: seq<Value>)
    requires j <= |toks| && ParseValue(toks, j).Err?
    ensures ParseElements(toks, j, acc) == Err(ParseValue(toks, j).error)
  {
  }

  lemma ElementLast(toks: seq<Token>, j: nat, acc: seq<Value>, v: Value, k: nat)
    requires j <= |toks| && ParseValue(toks, j) == Ok((v, k))
    requires k < |toks| && toks[k].kind == RBrack
    ensures ParseElements(toks, j, acc) == Ok((VArr(acc + [v]), k + 1))
  {
    assert Peek(toks, k) == toks[k];
  }

  lemma ElementLastTrailing(toks: seq<Token>, j: nat, acc: seq<Value>, v: Value, k: nat)
    requires j <= |toks| && ParseValue(toks, j) == Ok((v, k))
    requires k + 1 < |toks| && toks[k].kind == Comma && toks[k + 1].kind == RBrack
    ensures ParseElements(toks, j, acc) == Ok((VArr(acc + [v]), k + 2))
  {
    assert Peek(toks, k) == toks[k] && Peek(toks, k + 1) == toks[k + 1];
    assert Expect(toks, k + 1, RBrack) == Ok(k + 2);
  }

  lemma ElementNext(toks: seq<Token>, j: nat, acc: seq<Value>, v: Value, k: nat)
    requires j <= |toks| && ParseValue(toks, j) == Ok((v, k))
    requires k + 1 < |toks| && toks[k].kind == Comma && toks[k + 1].kind != RBrack
    ensures ParseElements(toks, j, acc) == ParseElements(toks, k + 1, acc + [v])
  {
    assert Peek(toks, k) == toks[k] && Peek(toks, k + 1) == toks[k + 1];
  }

  /** Where the first element, its separator and the rest of the list sit
      in the tokens of an element list, for the first element, the last one,
      and one that has more after it. */
  lemma ElementsLayout(toks: seq<Token>, j: nat, es: seq<Doc>, t: bool)
    requires es != []
    requires Spells(toks, j, EmitElems(es, t) + [(RBrack, "]")])
    ensures Spells(toks, j, Emit(es[0]))
  {
    var close: seq<Lexeme> := [(RBrack, "]")];
    var e0 := Emit(es[0]);
    ElementsRegrouped(toks, j, es, t, close);
    if |es| > 1 {
      FirstLexeme(es[1..], t);
    }
    ItemLayout(toks, j, [], e0, |es| == 1, t, EmitElems(es[1..], t), EmitElems(es, t), close);
  }

  lemma ElementsLast(toks: seq<Token>, j: nat, es: seq<Doc>, t: bool)
    requires |es| == 1
    requires Spells(toks, j, EmitElems(es, t) + [(RBrack, "]")])
    ensures var k := j + |Emit(es[0])|;
      && (!t ==> k < |toks| && toks[k].kind == RBrack && |EmitElems(es, t)| == |Emit(es[0])|)
      && (t ==> && k + 1 < |toks| && toks[k].kind == Comma && toks[k + 1].kind == RBrack
                && |EmitElems(es, t)| == |Emit(es[0])| + 1)
  {
    var close: seq<Lexeme> := [(RBrack, "]")];
    var e0 := Emit(es[0]);
    ElementsRegrouped(toks, j, es, t, close);
    ItemLayout(toks, j, [], e0, |es| == 1, t, EmitElems(es[1..], t), EmitElems(es, t), close);
  }

  lemma ElementsMore(toks: seq<Token>, j: nat, es: seq<Doc>, t: bool)
    requires |es| > 1
    requires Spells(toks, j, EmitElems(es, t) + [(RBrack, "]")])
    ensures var k := j + |Emit(es[0])|;
      && k + 1 < |toks| && toks[k].kind == Comma && toks[k + 1].kind != RBrack
      && Spells(toks, k + 1, EmitElems(es[1..], t) + [(RBrack, "]")])
      && |EmitElems(es, t)| == |Emit(es[0])| + 1 + |EmitElems(es[1..], t)|
  {
    var close: seq<Lexeme> := [(RBrack, "]")];
    var e0 := Emit(es[0]);
    ElementsRegrouped(toks, j, es, t, close);
    FirstLexeme(es[1..], t);
    ItemLayout(toks, j, [], e0, |es| == 1, t, EmitElems(es[1..], t), EmitElems(es, t), close);
  }

  /** The layout of a list whose first item is `pre` and then `e0`, followed
      by its separator, the `rest` of the list and the closer. */
  lemma ItemLayout(toks: seq<Token>, j: nat, pre: seq<Lexeme>, e0: seq<Lexeme>, last: bool, t: bool,
                   rest: seq<Lexeme>, body: seq<Lexeme>, close: seq<Lexeme>)
    requires |close| == 1 && (last ==> rest == []) && (!last ==> |rest| > 0 && rest[0].0 != close[0].0)
    requires |body| == |pre| + |e0| + |Separator(last, t)| + |rest|
    requires Spells(toks, j, pre + (e0 + (Separator(last, t) + (rest + close))))
    ensures Spells(toks, j, pre) && Spells(toks, j + |pre|, e0)
    ensures var k := j + |pre| + |e0|;
      && (last && !t ==> k < |toks| && toks[k].kind == close[0].0 && |body| == k - j)
      && (last && t ==> k + 1 < |toks| && toks[k].kind == Comma && toks[k + 1].kind == close[0].0
                        && |body| == k + 1 - j)
      && (!last ==> && k + 1 < |toks| && toks[k].kind == Comma && toks[k + 1].kind != close[0].0
                    && Spells(toks, k + 1, rest + close) && |body| == k + 1 - j + |rest|)
  {
    SpellsSplit(toks, j, pre, e0 + (Separator(last, t) + (rest + close)));
    SpellsSplit(toks, j + |pre|, e0, Separator(last, t) + (rest + close));
    AfterFirst(toks, j + |pre| + |e0|, last, t, rest, close);
  }

  /** What follows the first element or field: the closer, a comma and the
      closer, or a comma and the rest of a list that does not start with a
      closer. */
  lemma AfterFirst(toks: seq<Token>, k: nat, last: bool, t: bool, rest: seq<Lexeme>, close: seq<Lexeme>)
    requires |close| == 1 && (last ==> rest == []) && (!last ==> |rest| > 0 && rest[0].0 != close[0].0)
    requires Spells(toks, k, Separator(last, t) + (rest + close))
    ensures last && !t ==> k < |toks| && toks[k].kind == close[0].0 && |Separator(last, t)| == 0
    ensures last && t ==> k + 1 < |toks| && toks[k].kind == Comma && toks[k + 1].kind == close[0].0
                          && |Separator(last, t)| == 1
    ensures !last ==> && k + 1 < |toks| && toks[k].kind == Comma && toks[k + 1].kind != close[0].0
                      && Spells(toks, k + 1, rest + close) && |Separator(last, t)| == 1
  {
    if last {
      LastSeparator(toks, k, t, rest, close);
    } else {
      MidSeparator(toks, k, rest + close);
      assert (toks[k + 1 + 0].kind, toks[k + 1 + 0].value) == (rest + close)[0];
    }
  }

  /** The tokens of an element list, grouped as the first element and what
      follows it. */
  lemma ElementsRegrouped(toks: seq<Token>, j: nat, es: seq<Doc>, t: bool, close: seq<Lexeme>)
    requires es != [] && Spells(toks, j, EmitElems(es, t) + close)
    ensures Spells(toks, j, [] + (Emit(es[0]) + (Separator(|es| == 1, t) + (EmitElems(es[1..], t) + close))))
    ensures |EmitElems(es, t)| == |Emit(es[0])| + |Separator(|es| == 1, t)| + |EmitElems(es[1..], t)|
  {
    ElementsUnfold(es, t, close);
    var l := Emit(es[0]) + (Separator(|es| == 1, t) + (EmitElems(es[1..], t) + close));
    assert [] + l == l;
  }

  lemma ElementsUnfold(es: seq<Doc>, t: bool, close: seq<Lexeme>)
    requires es != []
    ensures EmitElems(es, t) + close == Emit(es[0]) + (Separator(|es| == 1, t) + (EmitElems(es[1..], t) + close))
    ensures |EmitElems(es, t)| == |Emit(es[0])| + |Separator(|es| == 1, t)| + |EmitElems(es[1..], t)|
  {
    var e0 := Emit(es[0]);
    var sep := Separator(|es| == 1, t);
    var rest := EmitElems(es[1..], t);
    assert EmitElems(es, t) == e0 + sep + rest;
    Regroup([], e0, sep, rest, close);
    assert [] + e0 == e0;
  }

  /** After the last element or field: the closer, or a comma and then the
      closer. */
  lemma LastSeparator(toks: seq<Token>, k: nat, t: bool, rest: seq<Lexeme>, close: seq<Lexeme>)
    requires rest == [] && |close| == 1
    requires Spells(toks, k, Separator(true, t) + (rest + close))
    ensures !t ==> k < |toks| && toks[k].kind == close[0].0
    ensures t ==> k + 1 < |toks| && toks[k].kind == Comma && toks[k + 1].kind == close[0].0
  {
    var l := Separator(true, t) + (rest + close);
    if t {
      assert l == [(Comma, ","), close[0]];
      assert (toks[k + 0].kind, toks[k + 0].value) == l[0];
      assert (toks[k + 1].kind, toks[k + 1].value) == l[1];
    } else {
      assert l == [close[0]];
      assert (toks[k + 0].kind, toks[k + 0].value) == l[0];
    }
  }

  /** Between two elements or fields: a comma, then what follows it. */
  lemma MidSeparator(toks: seq<Token>, k: nat, more: seq<Lexeme>)
    requires Spells(toks, k, Separator(false, true) + more) || Spells(toks, k, Separator(false, false) + more)
    ensures k < |toks| && toks[k].kind == Comma && Spells(toks, k + 1, more)
  {
    assert Separator(false, true) == Separator(false, false) == [(Comma, ",")];
    SpellsSplit(toks, k, [(Comma, ",")], more);
    assert (toks[k + 0].kind, toks[k + 0].value) == ([(Comma, ",")] + more)[0];
  }

  /** A non-empty element list starts with what its first element starts
      with, never with a closer. */
  lemma FirstLexeme(es: seq<Doc>, t: bool)
    requires es != []
    ensures |EmitElems(es, t)| > 0 && EmitElems(es, t)[0].0 in {Str, LBrack, Ident}
  {
    var e1 := Emit(es[0]);
    var rest := EmitElems(es, t);
    assert rest == e1 + (Separator(|es| == 1, t) + EmitElems(es[1..], t));
    assert rest[0] == e1[0];
  }

  lemma {:induction false} ElementsEmitted(toks: seq<Token>, j: nat, es: seq<Doc>, t: bool, acc: seq<Value>)
    requires es != []
    requires Spells(toks, j, EmitElems(es, t) + [(RBrack, "]")])
    ensures ParseElements(toks, j, acc) == ElementsMeaning(es, acc, j + |EmitElems(es, t)| + 1)
    decreases es, 3
  {
    if Eval(es[0]).Err? {
      ElementsFailCase(toks, j, es, t, acc);
    } else if |es| == 1 {
      ElementsOneCase(toks, j, es, t, acc);
    } else {
      ElementsMoreCase(toks, j, es, t, acc);
    }
  }

  /** The element loop when the first element fails. */
  lemma {:induction false} ElementsFailCase(toks: seq<Token>, j: nat, es: seq<Doc>, t: bool, acc: seq<Value>)
    requires es != [] && Eval(es[0]).Err?
    requires Spells(toks, j, EmitElems(es, t) + [(RBrack, "]")])
    ensures ParseElements(toks, j, acc) == ElementsMeaning(es, acc, j + |EmitElems(es, t)| + 1)
    decreases es, 2
  {
    var e := Eval(es[0]).error;
    assert j <= |toks| && ParseValue(toks, j) == Err(e) by {
      ElementsLayout(toks, j, es, t);
      EmittedFails(toks, j, es[0]);
    }
    ElementFails(toks, j, acc);
    ElementsFailMeaning(es, acc, e, j + |EmitElems(es, t)| + 1);
  }

  /** The element loop on the last element, with or without a trailing
      comma. */
  lemma {:induction false} ElementsOneCase(toks: seq<Token>, j: nat, es: seq<Doc>, t: bool, acc: seq<Value>)
    requires |es| == 1 && Eval(es[0]).Ok?
    requires Spells(toks, j, EmitElems(es, t) + [(RBrack, "]")])
    ensures ParseElements(toks, j, acc) == ElementsMeaning(es, acc, j + |EmitElems(es, t)| + 1)
    decreases es, 2
  {
    var k := j + |Emit(es[0])|;
    var n := j + |EmitElems(es, t)| + 1;
    var v := Eval(es[0]).value;
    assert ParseValue(toks, j) == Ok((v, k)) by {
      ElementsLayout(toks, j, es, t);
      EmittedValue(toks, j, es[0]);
    }
    assert ParseElements(toks, j, acc) == Ok((VArr(acc + [v]), n)) by {
      ElementsLast(toks, j, es, t);
      if t {
        ElementLastTrailing(toks, j, acc, v, k);
      } else {
        ElementLast(toks, j, acc, v, k);
      }
    }
    OneElementMeaning(es, acc, v, n);
  }

  /** The element loop on an element with more after it. */
  lemma {:induction false} ElementsMoreCase(toks: seq<Token>, j: nat, es: seq<Doc>, t: bool, acc: seq<Value>)
    requires |es| > 1 && Eval(es[0]).Ok?
    requires Spells(toks, j, EmitElems(es, t) + [(RBrack, "]")])
    ensures ParseElements(toks, j, acc) == ElementsMeaning(es, acc, j + |EmitElems(es, t)| + 1)
    decreases es, 2
  {
    var k := j + |Emit(es[0])|;
    var n := j + |EmitElems(es, t)| + 1;
    var v := Eval(es[0]).value;
    calc {
      ParseElements(toks, j, acc);
    == { ElementsMoreStep(toks, j, es, t, acc); }
      ParseElements(toks, k + 1, acc + [v]);
    == { ElementsMore(toks, j, es, t);
         ElementsEmitted(toks, k + 1, es[1..], t, acc + [v]); }
      ElementsMeaning(es[1..], acc + [v], n);
    == { MoreElementsMeaning(es, acc, v, n); }
      ElementsMeaning(es, acc, n);
    }
  }

  /** The first round of the element loop on an element with more after
      it. */
  lemma ElementsMoreStep(toks: seq<Token>, j: nat, es: seq<Doc>, t: bool, acc: seq<Value>)
    requires |es| > 1 && Eval(es[0]).Ok?
    requires Spells(toks, j, EmitElems(es, t) + [(RBrack, "]")])
    ensures var k := j + |Emit(es[0])|;
      && k + 1 <= |toks|
      && ParseElements(toks, j, acc) == ParseElements(toks, k + 1, acc + [Eval(es[0]).value])
    decreases es, 1
  {
    var k := j + |Emit(es[0])|;
    var v := Eval(es[0]).value;
    assert ParseValue(toks, j) == Ok((v, k)) by {
      ElementsLayout(toks, j, es, t);
      EmittedValue(toks, j, es[0]);
    }
    assert k + 1 < |toks| && toks[k].kind == Comma && toks[k + 1].kind != RBrack by {
      ElementsMore(toks, j, es, t);
    }
    ElementNext(toks, j, acc, v, k);
  }

  /** What the element loop returns for the elements `es` after `acc`,
      ending at `n`. */
  function ElementsMeaning(es: seq<Doc>, acc: seq<Value>, n: nat): Result<(Value, nat), ParseError> {
    match EvalElems(es)
    case Err(e) => Err(e)
    case Ok(vs) => Ok((VArr(acc + vs), n))
  }

  lemma ElementsFailMeaning(es: seq<Doc>, acc: seq<Value>, e: ParseError, n: nat)
    requires es != [] && Eval(es[0]) == Err(e)
    ensures ElementsMeaning(es, acc, n) == Err(e)
  {
  }

  lemma OneElementMeaning(es: seq<Doc>, acc: seq<Value>, v: Value, n: nat)
    requires |es| == 1 && Eval(es[0]) == Ok(v)
    ensures ElementsMeaning(es, acc, n) == Ok((VArr(acc + [v]), n))
  {
    assert EvalElems(es[1..]) == Ok([]);
    assert [v] + [] == [v];
  }

  lemma MoreElementsMeaning(es: seq<Doc>, acc: seq<Value>, v: Value, n: nat)
    requires |es| > 1 && Eval(es[0]) == Ok(v)
    ensures ElementsMeaning(es, acc, n) == ElementsMeaning(es[1..], acc + [v], n)
  {
    match EvalElems(es[1..])
    case Err(_) =>
    case Ok(vs) =>
      assert acc + [v] + vs == acc + ([v] + vs);
  }

  lemma {:induction false} RecordEmitted(toks: seq<Token>, i: nat, n: Bytes, fs: seq<Field>, t: bool)
    requires Spells(toks, i, Emit(DRec(n, fs, t)))
    ensures ParseValue(toks, i) == At(Eval(DRec(n, fs, t)), i + |Emit(DRec(n, fs, t))|)
    decreases DRec(n, fs, t), 1
  {
    var j := i + 2;
    var k := j + |EmitFields(fs, t)|;
    RecordLayout(toks, i, n, fs, t);
    assert ParseFields(toks, j) == FieldsMeaning(fs, map[], k) by {
      if fs == [] {
        assert Peek(toks, j) == toks[j];
      } else {
        assert Peek(toks, j) == toks[j];
        FieldsEmitted(toks, j, fs, t, map[]);
      }
    }
    RecordStep(toks, i);
    RecordMeaning(n, fs, t, k);
  }

  /** The record closed after the field loop's answer, its type name
      applied. */
  function Closed(r: Result<(Fields, nat), ParseError>, name: Bytes): Result<(Value, nat), ParseError> {
    match r
    case Err(e) => Err(e)
    case Ok((fields, k)) => At(Materialize(name, fields), k + 1)
  }

  /** Closing the field loop's answer from the first field gives the
      record's meaning. */
  lemma RecordMeaning(n: Bytes, fs: seq<Field>, t: bool, k: nat)
    ensures Closed(FieldsMeaning(fs, map[], k), n) == At(Eval(DRec(n, fs, t)), k + 1)
  {
  }

  /** A record whose `(` is in place: its closing `)` is always there once
      its fields are read, so the value is the materialized record. */
  lemma RecordStep(toks: seq<Token>, i: nat)
    requires i + 1 < |toks| && toks[i].kind == Ident && toks[i + 1].kind == LParen
    ensures ParseValue(toks, i) == Closed(ParseFields(toks, i + 2), toks[i].value)
  {
    assert Peek(toks, i) == toks[i];
    assert Expect(toks, i + 1, LParen) == Ok(i + 2);
  }

  /** Where the type name, the parentheses and the fields of a record sit. */
  lemma RecordLayout(toks: seq<Token>, i: nat, n: Bytes, fs: seq<Field>, t: bool)
    requires Spells(toks, i, Emit(DRec(n, fs, t)))
    ensures var body := EmitFields(fs, t);
      && |Emit(DRec(n, fs, t))| == |body| + 3
      && i + 2 + |body| < |toks|
      && toks[i].kind == Ident && toks[i].value == n && toks[i + 1].kind == LParen
      && Spells(toks, i + 2, body + [(RParen, ")")])
      && toks[i + 2 + |body|].kind == RParen
      && (fs != [] ==> toks[i + 2].kind == Ident)
  {
    var body := EmitFields(fs, t);
    var open: seq<Lexeme> := [(Ident, n), (LParen, "(")];
    var close: seq<Lexeme> := [(RParen, ")")];
    assert Emit(DRec(n, fs, t)) == open + (body + close);
    SpellsSplit(toks, i, open, body + close);
    assert (toks[i + 0].kind, toks[i + 0].value) == open[0];
    assert (toks[i + 1].kind, toks[i + 1].value) == open[1];
    var j := i + 2;
    SpellsSplit(toks, j, body, close);
    assert (toks[j + |body| + 0].kind, toks[j + |body| + 0].value) == close[0];
    if fs != [] {
      FirstField(fs, t);
      assert (toks[j + 0].kind, toks[j + 0].value) == (body + close)[0];
    }
  }

  lemma {:induction false} FieldsEmitted(toks: seq<Token>, j: nat, fs: seq<Field>, t: bool, acc: Fields)
    requires fs != []
    requires Spells(toks, j, EmitFields(fs, t) + [(RParen, ")")])
    ensures ParseFieldList(toks, j, acc) == FieldsMeaning(fs, acc, j + |EmitFields(fs, t)|)
    decreases fs, 3
  {
    if Eval(fs[0].doc).Err? {
      FieldsFailCase(toks, j, fs, t, acc);
    } else if |fs| == 1 {
      FieldsOneCase(toks, j, fs, t, acc);
    } else {
      FieldsMoreCase(toks, j, fs, t, acc);
    }
  }

  /** The field loop when the first field's value fails. */
  lemma {:induction false} FieldsFailCase(toks: seq<Token>, j: nat, fs: seq<Field>, t: bool, acc: Fields)
    requires fs != [] && Eval(fs[0].doc).Err?
    requires Spells(toks, j, EmitFields(fs, t) + [(RParen, ")")])
    ensures ParseFieldList(toks, j, acc) == FieldsMeaning(fs, acc, j + |EmitFields(fs, t)|)
    decreases fs, 2
  {
    var e := Eval(fs[0].doc).error;
    assert j + 1 < |toks| && toks[j].kind == Ident && toks[j + 1].kind == Colon && ParseValue(toks, j + 2) == Err(e) by {
      FieldsLayout(toks, j, fs, t);
      EmittedFails(toks, j + 2, fs[0].doc);
    }
    FieldFails(toks, j, acc);
    FieldsFailMeaning(fs, acc, e, j + |EmitFields(fs, t)|);
  }

  /** The field loop on the last field, with or without a trailing comma. */
  lemma {:induction false} FieldsOneCase(toks: seq<Token>, j: nat, fs: seq<Field>, t: bool, acc: Fields)
    requires |fs| == 1 && Eval(fs[0].doc).Ok?
    requires Spells(toks, j, EmitFields(fs, t) + [(RParen, ")")])
    ensures ParseFieldList(toks, j, acc) == FieldsMeaning(fs, acc, j + |EmitFields(fs, t)|)
    decreases fs, 2
  {
    var k := j + 2 + |Emit(fs[0].doc)|;
    var n := j + |EmitFields(fs, t)|;
    var v := Eval(fs[0].doc).value;
    assert && j + 1 < |toks| && toks[j].kind == Ident && toks[j].value == fs[0].key && toks[j + 1].kind == Colon
           && ParseValue(toks, j + 2) == Ok((v, k)) by {
      FieldsLayout(toks, j, fs, t);
      EmittedValue(toks, j + 2, fs[0].doc);
    }
    assert ParseFieldList(toks, j, acc) == Ok((acc[fs[0].key := v], n)) by {
      FieldsLast(toks, j, fs, t);
      if t {
        FieldLastTrailing(toks, j, acc, v, k);
      } else {
        FieldLast(toks, j, acc, v, k);
      }
    }
    OneFieldMeaning(fs, acc, v, n);
  }

  /** The field loop on a field with more after it. */
  lemma {:induction false} FieldsMoreCase(toks: seq<Token>, j: nat, fs: seq<Field>, t: bool, acc: Fields)
    requires |fs| > 1 && Eval(fs[0].doc).Ok?
    requires Spells(toks, j, EmitFields(fs, t) + [(RParen, ")")])
    ensures ParseFieldList(toks, j, acc) == FieldsMeaning(fs, acc, j + |EmitFields(fs, t)|)
    decreases fs, 2
  {
    var k := j + 2 + |Emit(fs[0].doc)|;
    var n := j + |EmitFields(fs, t)|;
    var v := Eval(fs[0].doc).value;
    calc {
      ParseFieldList(toks, j, acc);
    == { FieldsMoreStep(toks, j, fs, t, acc); }
      ParseFieldList(toks, k + 1, acc[fs[0].key := v]);
    == { FieldsMore(toks, j, fs, t);
         FieldsEmitted(toks, k + 1, fs[1..], t, acc[fs[0].key := v]); }
      FieldsMeaning(fs[1..], acc[fs[0].key := v], n);
    == { MoreFieldsMeaning(fs, acc, v, n); }
      FieldsMeaning(fs, acc, n);
    }
  }

  /** The first round of the field loop on a field with more after it. */
  lemma FieldsMoreStep(toks: seq<Token>, j: nat, fs: seq<Field>, t: bool, acc: Fields)
    requires |fs| > 1 && Eval(fs[0].doc).Ok?
    requires Spells(toks, j, EmitFields(fs, t) + [(RParen, ")")])
    ensures var k := j + 2 + |Emit(fs[0].doc)|;
      && k + 1 <= |toks|
      && ParseFieldList(toks, j, acc) == ParseFieldList(toks, k + 1, acc[fs[0].key := Eval(fs[0].doc).value])
    decreases fs, 1
  {
    var k := j + 2 + |Emit(fs[0].doc)|;
    var v := Eval(fs[0].doc).value;
    assert && j + 1 < |toks| && toks[j].kind == Ident && toks[j].value == fs[0].key && toks[j + 1].kind == Colon
           && ParseValue(toks, j + 2) == Ok((v, k)) by {
      FieldsLayout(toks, j, fs, t);
      EmittedValue(toks, j + 2, fs[0].doc);
    }
    assert k + 1 < |toks| && toks[k].kind == Comma && toks[k + 1].kind != RParen by {
      FieldsMore(toks, j, fs, t);
    }
    FieldNext(toks, j, acc, v, k);
  }

  /** Where the first field's name, its value, its separator and the rest of
      the list sit in the tokens of a field list, for the first field, the
      last one, and one that has more after it. */
  lemma FieldsLayout(toks: seq<Token>, j: nat, fs: seq<Field>, t: bool)
    requires fs != []
    requires Spells(toks, j, EmitFields(fs, t) + [(RParen, ")")])
    ensures j + 1 < |toks| && toks[j].kind == Ident && toks[j].value == fs[0].key && toks[j + 1].kind == Colon
    ensures Spells(toks, j + 2, Emit(fs[0].doc))
  {
    var close: seq<Lexeme> := [(RParen, ")")];
    var key: seq<Lexeme> := [(Ident, fs[0].key), (Colon, ":")];
    FieldsRegrouped(toks, j, fs, t, close);
    if |fs| > 1 {
      FirstField(fs[1..], t);
    }
    ItemLayout(toks, j, key, Emit(fs[0].doc), |fs| == 1, t, EmitFields(fs[1..], t), EmitFields(fs, t), close);
    KeySpelled(toks, j, fs[0].key);
  }

  lemma FieldsLast(toks: seq<Token>, j: nat, fs: seq<Field>, t: bool)
    requires |fs| == 1
    requires Spells(toks, j, EmitFields(fs, t) + [(RParen, ")")])
    ensures var k := j + 2 + |Emit(fs[0].doc)|;
      && (!t ==> k < |toks| && toks[k].kind == RParen && |EmitFields(fs, t)| == k - j)
      && (t ==> k + 1 < |toks| && toks[k].kind == Comma && toks[k + 1].kind == RParen
                && |EmitFields(fs, t)| == k + 1 - j)
  {
    var close: seq<Lexeme> := [(RParen, ")")];
    var key: seq<Lexeme> := [(Ident, fs[0].key), (Colon, ":")];
    FieldsRegrouped(toks, j, fs, t, close);
    ItemLayout(toks, j, key, Emit(fs[0].doc), |fs| == 1, t, EmitFields(fs[1..], t), EmitFields(fs, t), close);
  }

  lemma FieldsMore(toks: seq<Token>, j: nat, fs: seq<Field>, t: bool)
    requires |fs| > 1
    requires Spells(toks, j, EmitFields(fs, t) + [(RParen, ")")])
    ensures var k := j + 2 + |Emit(fs[0].doc)|;
      && k + 1 < |toks| && toks[k].kind == Comma && toks[k + 1].kind != RParen
      && Spells(toks, k + 1, EmitFields(fs[1..], t) + [(RParen, ")")])
      && |EmitFields(fs, t)| == k + 1 - j + |EmitFields(fs[1..], t)|
  {
    var close: seq<Lexeme> := [(RParen, ")")];
    var key: seq<Lexeme> := [(Ident, fs[0].key), (Colon, ":")];
    FieldsRegrouped(toks, j, fs, t, close);
    FirstField(fs[1..], t);
    ItemLayout(toks, j, key, Emit(fs[0].doc), |fs| == 1, t, EmitFields(fs[1..], t), EmitFields(fs, t), close);
  }

  lemma KeySpelled(toks: seq<Token>, j: nat, name: Bytes)
    requires Spells(toks, j, [(Ident, name), (Colon, ":")])
    ensures j + 1 < |toks| && toks[j].kind == Ident && toks[j].value == name && toks[j + 1].kind == Colon
  {
    var key: seq<Lexeme> := [(Ident, name), (Colon, ":")];
    assert (toks[j + 0].kind, toks[j + 0].value) == key[0];
    assert (toks[j + 1].kind, toks[j + 1].value) == key[1];
  }

  /** A non-empty field list starts with the first field's name. */
  lemma FirstField(fs: seq<Field>, t: bool)
    requires fs != []
    ensures |EmitFields(fs, t)| > 0 && EmitFields(fs, t)[0] == (Ident, fs[0].key)
  {
    var body := EmitFields(fs, t);
    assert body == [(Ident, fs[0].key), (Colon, ":")] + (Emit(fs[0].doc) + Separator(|fs| == 1, t)
                   + EmitFields(fs[1..], t));
    assert body[0] == (Ident, fs[0].key);
  }

  /** The tokens of a field list, grouped as the first field and what
      follows it. */
  lemma FieldsRegrouped(toks: seq<Token>, j: nat, fs: seq<Field>, t: bool, close: seq<Lexeme>)
    requires fs != [] && Spells(toks, j, EmitFields(fs, t) + close)
    ensures Spells(toks, j, [(Ident, fs[0].key), (Colon, ":")]
      + (Emit(fs[0].doc) + (Separator(|fs| == 1, t) + (EmitFields(fs[1..], t) + close))))
    ensures |EmitFields(fs, t)| == 2 + |Emit(fs[0].doc)| + |Separator(|fs| == 1, t)| + |EmitFields(fs[1..], t)|
  {
    FieldsUnfold(fs, t, close);
  }

  lemma FieldsUnfold(fs: seq<Field>, t: bool, close: seq<Lexeme>)
    requires fs != []
    ensures EmitFields(fs, t) + close == [(Ident, fs[0].key), (Colon, ":")]
      + (Emit(fs[0].doc) + (Separator(|fs| == 1, t) + (EmitFields(fs[1..], t) + close)))
    ensures |EmitFields(fs, t)| == 2 + |Emit(fs[0].doc)| + |Separator(|fs| == 1, t)| + |EmitFields(fs[1..], t)|
  {
    var key: seq<Lexeme> := [(Ident, fs[0].key), (Colon, ":")];
    var e0 := Emit(fs[0].doc);
    var sep := Separator(|fs| == 1, t);
    var rest := EmitFields(fs[1..], t);
    assert EmitFields(fs, t) == key + e0 + sep + rest;
    Regroup(key, e0, sep, rest, close);
  }

  lemma Regroup<T>(a: seq<T>, b: seq<T>, c: seq<T>, d: seq<T>, e: seq<T>)
    ensures a + b + c + d + e == a + (b + (c + (d + e)))
  {
  }

  // One round of the field loop, by what follows the field's value.

  lemma FieldFails(toks: seq<Token>, j: nat, acc: Fields)
    requires j + 1 < |toks| && toks[j].kind == Ident && toks[j + 1].kind == Colon
    requires ParseValue(toks, j + 2).Err?
    ensures ParseFieldList(toks, j, acc) == Err(ParseValue(toks, j + 2).error)
  {
    assert Peek(toks, j) == toks[j];
    assert Expect(toks, j + 1, Colon) == Ok(j + 2);
  }

  lemma FieldLast(toks: seq<Token>, j: nat, acc: Fields, v: Value, k: nat)
    requires j + 1 < |toks| && toks[j].kind == Ident && toks[j + 1].kind == Colon
    requires ParseValue(toks, j + 2) == Ok((v, k))
    requires k < |toks| && toks[k].kind == RParen
    ensures ParseFieldList(toks, j, acc) == Ok((acc[toks[j].value := v], k))
  {
    assert Peek(toks, j) == toks[j];
    assert Expect(toks, j + 1, Colon) == Ok(j + 2);
    assert Peek(toks, k) == toks[k];
  }

  lemma FieldLastTrailing(toks: seq<Token>, j: nat, acc: Fields, v: Value, k: nat)
    requires j + 1 < |toks| && toks[j].kind == Ident && toks[j + 1].kind == Colon
    requires ParseValue(toks, j + 2) == Ok((v, k))
    requires k + 1 < |toks| && toks[k].kind == Comma && toks[k + 1].kind == RParen
    ensures ParseFieldList(toks, j, acc) == Ok((acc[toks[j].value := v], k + 1))
  {
    assert Peek(toks, j) == toks[j];
    assert Expect(toks, j + 1, Colon) == Ok(j + 2);
    assert Peek(toks, k) == toks[k] && Peek(toks, k + 1) == toks[k + 1];
  }

  lemma FieldNext(toks: seq<Token>, j: nat, acc: Fields, v: Value, k: nat)
    requires j + 1 < |toks| && toks[j].kind == Ident && toks[j + 1].kind == Colon
    requires ParseValue(toks, j + 2) == Ok((v, k))
    requires k + 1 < |toks| && toks[k].kind == Comma && toks[k + 1].kind != RParen
    ensures ParseFieldList(toks, j, acc) == ParseFieldList(toks, k + 1, acc[toks[j].value := v])
  {
    assert Peek(toks, j) == toks[j];
    assert Expect(toks, j + 1, Colon) == Ok(j + 2);
    assert Peek(toks, k) == toks[k] && Peek(toks, k + 1) == toks[k + 1];
  }

  /** What the field loop returns for the fields `fs` after `acc`, with the
      closing `)` at `n`. */
  function FieldsMeaning(fs: seq<Field>, acc: Fields, n: nat): Result<(Fields, nat), ParseError> {
    match EvalFields(fs, acc)
    case Err(e) => Err(e)
    case Ok(m) => Ok((m, n))
  }

  lemma FieldsFailMeaning(fs: seq<Field>, acc: Fields, e: ParseError, n: nat)
    requires fs != [] && Eval(fs[0].doc) == Err(e)
    ensures FieldsMeaning(fs, acc, n) == Err(e)
  {
  }

  lemma OneFieldMeaning(fs: seq<Field>, acc: Fields, v: Value, n: nat)
    requires |fs| == 1 && Eval(fs[0].doc) == Ok(v)
    ensures FieldsMeaning(fs, acc, n) == Ok((acc[fs[0].key := v], n))
  {
    assert EvalFields(fs[1..], acc[fs[0].key := v]) == Ok(acc[fs[0].key := v]);
  }

  lemma MoreFieldsMeaning(fs: seq<Field>, acc: Fields, v: Value, n: nat)
    requires |fs| > 1 && Eval(fs[0].doc) == Ok(v)
    ensures FieldsMeaning(fs, acc, n) == FieldsMeaning(fs[1..], acc[fs[0].key := v], n)
  {
  }
}
