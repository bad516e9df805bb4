/** Two facts about the parser over all token sequences: an error that names
    the end of input reports offset 0, and nothing after the root value is
    ever looked at. */
module ParseFacts {
  import opened Bytes
  import opened Results
  import opened Schedules
  import opened Lexer
  import opened Values
  import opened Parser
  import opened Reader

  /** No stored token is an EOF token, as for every tokenizer output. */
  predicate NoEof(toks: seq<Token>) {
    forall k :: 0 <= k < |toks| ==> toks[k].kind != EOF
  }

  /** An error that met the end of input reports offset 0, because the
      parser's own EOF token is made at offset 0. */
  predicate EofAtZero(e: ParseError) {
    match e
    case Expected(_, got, pos) => got == EOF ==> pos == 0
    case UnexpectedToken(got, pos) => got == EOF ==> pos == 0
    case ExpectedSeparator(_, got, pos) => got == EOF ==> pos == 0
    case ExpectedFieldName(got, pos) => got == EOF ==> pos == 0
    case _ => true
  }

  lemma ExpectEof(toks: seq<Token>, i: nat, want: Kind)
    requires NoEof(toks) && want != EOF
    ensures Expect(toks, i, want).Err? ==> EofAtZero(Expect(toks, i, want).error)
  {
  }

  lemma {:induction false} ValueEof(toks: seq<Token>, i: nat)
    requires NoEof(toks) && i <= |toks|
    ensures ParseValue(toks, i).Err? ==> EofAtZero(ParseValue(toks, i).error)
    decreases |toks| - i, 2
  {
    var t := Peek(toks, i);
    if t.kind == Ident {
      ExpectEof(toks, i + 1, LParen);
      if Expect(toks, i + 1, LParen).Ok? {
        FieldsEof(toks, i + 2);
        match ParseFields(toks, i + 2)
        case Err(_) =>
        case Ok((_, k)) =>
          ExpectEof(toks, k, RParen);
      }
    } else if t.kind == LBrack {
      ArrayEof(toks, i);
    }
  }

  lemma {:induction false} ArrayEof(toks: seq<Token>, i: nat)
    requires NoEof(toks) && i <= |toks|
    ensures ParseArray(toks, i).Err? ==> EofAtZero(ParseArray(toks, i).error)
    decreases |toks| - i, 1
  {
    ExpectEof(toks, i, LBrack);
    if Expect(toks, i, LBrack).Ok? && Peek(toks, i + 1).kind != RBrack {
      ElementsEof(toks, i + 1, []);
    }
  }

  lemma {:induction false} ElementsEof(toks: seq<Token>, i: nat, acc: seq<Value>)
    requires NoEof(toks) && i <= |toks|
    ensures ParseElements(toks, i, acc).Err? ==> EofAtZero(ParseElements(toks, i, acc).error)
    decreases |toks| - i, 3
  {
    ValueEof(toks, i);
    match ParseValue(toks, i)
    case Err(_) =>
    case Ok((v, k)) =>
      var t := Peek(toks, k);
      if t.kind == Comma && Peek(toks, k + 1).kind == RBrack {
        ExpectEof(toks, k + 1, RBrack);
      } else if t.kind == Comma {
        ElementsEof(toks, k + 1, acc + [v]);
      } else if t.kind == RBrack {
        ExpectEof(toks, k, RBrack);
      }
  }

  lemma {:induction false} FieldsEof(toks: seq<Token>, i: nat)
    requires NoEof(toks) && i <= |toks|
    ensures ParseFields(toks, i).Err? ==> EofAtZero(ParseFields(toks, i).error)
    decreases |toks| - i, 4
  {
    if Peek(toks, i).kind != RParen {
      FieldListEof(toks, i, map[]);
    }
  }

  lemma {:induction false} FieldListEof(toks: seq<Token>, i: nat, acc: Fields)
    requires NoEof(toks) && i <= |toks|
    ensures ParseFieldList(toks, i, acc).Err? ==> EofAtZero(ParseFieldList(toks, i, acc).error)
    decreases |toks| - i, 3
  {
    var t := Peek(toks, i);
    if t.kind == Ident {
      ExpectEof(toks, i + 1, Colon);
      if Expect(toks, i + 1, Colon).Ok? {
        ValueEof(toks, i + 2);
        match ParseValue(toks, i + 2)
        case Err(_) =>
        case Ok((v, k)) =>
          var u := Peek(toks, k);
          if u.kind == Comma && Peek(toks, k + 1).kind != RParen {
            FieldListEof(toks, k + 1, acc[t.value := v]);
          }
      }
    }
  }

  /** Whatever the input, a parse error that met the end of input reports
      offset 0, while the tokenizer's own end is at the input's length. */
  lemma ParseRonEof(input: Bytes)
    ensures ParseRon(input).Err? && ParseRon(input).error.Parsing? ==> EofAtZero(ParseRon(input).error.parse)
  {
    TokenizeWellLexed(input, 0);
    match Tokenize(input)
    case Err(_) =>
    case Ok(toks) =>
      assert NoEof(toks);
      ValueEof(toks, 0);
  }

  /** `a` and `b` hold the same first `n` tokens. */
  predicate SameUpTo(a: seq<Token>, b: seq<Token>, n: nat) {
    n <= |a| && n <= |b| && forall j :: 0 <= j < n ==> a[j] == b[j]
  }

  /** A value read successfully depends only on the tokens it spans. */
  lemma {:induction false} ValueStable(a: seq<Token>, b: seq<Token>, i: nat)
    requires i <= |a| && i <= |b| && ParseValue(a, i).Ok?
    requires SameUpTo(a, b, ParseValue(a, i).value.1)
    ensures ParseValue(b, i) == ParseValue(a, i)
    decreases |a| - i, 2
  {
    var t := Peek(a, i);
    assert Peek(b, i) == t;
    if t.kind == Ident {
      var (fields, k) := ParseFields(a, i + 2).value;
      assert Peek(b, i + 1) == Peek(a, i + 1);
      FieldsStable(a, b, i + 2);
      assert Peek(b, k) == Peek(a, k);
    } else if t.kind == LBrack {
      ArrayStable(a, b, i);
    }
  }

  lemma {:induction false} ArrayStable(a: seq<Token>, b: seq<Token>, i: nat)
    requires i <= |a| && i <= |b| && ParseArray(a, i).Ok?
    requires SameUpTo(a, b, ParseArray(a, i).value.1)
    ensures ParseArray(b, i) == ParseArray(a, i)
    decreases |a| - i, 1
  {
    assert Peek(b, i) == Peek(a, i);
    assert Peek(b, i + 1) == Peek(a, i + 1);
    if Peek(a, i + 1).kind != RBrack {
      ElementsStable(a, b, i + 1, []);
    }
  }

  lemma {:induction false} ElementsStable(a: seq<Token>, b: seq<Token>, i: nat, acc: seq<Value>)
    requires i <= |a| && i <= |b| && ParseElements(a, i, acc).Ok?
    requires SameUpTo(a, b, ParseElements(a, i, acc).value.1)
    ensures ParseElements(b, i, acc) == ParseElements(a, i, acc)
    decreases |a| - i, 3
  {
    var (v, k) := ParseValue(a, i).value;
    ValueStable(a, b, i);
    var t := Peek(a, k);
    assert Peek(b, k) == t;
    if t.kind == Comma {
      assert Peek(b, k + 1) == Peek(a, k + 1);
      if Peek(a, k + 1).kind != RBrack {
        ElementsStable(a, b, k + 1, acc + [v]);
      }
    }
  }

  lemma {:induction false} FieldsStable(a: seq<Token>, b: seq<Token>, i: nat)
    requires i <= |a| && i <= |b| && ParseFields(a, i).Ok?
    requires SameUpTo(a, b, ParseFields(a, i).value.1 + 1)
    ensures ParseFields(b, i) == ParseFields(a, i)
    decreases |a| - i, 4
  {
    assert Peek(b, i) == Peek(a, i);
    if Peek(a, i).kind != RParen {
      FieldListStable(a, b, i, map[]);
    }
  }

  lemma {:induction false} FieldListStable(a: seq<Token>, b: seq<Token>, i: nat, acc: Fields)
    requires i <= |a| && i <= |b| && ParseFieldList(a, i, acc).Ok?
    requires SameUpTo(a, b, ParseFieldList(a, i, acc).value.1 + 1)
    ensures ParseFieldList(b, i, acc) == ParseFieldList(a, i, acc)
    decreases |a| - i, 3
  {
    var t := Peek(a, i);
    assert Peek(b, i) == t;
    assert Peek(b, i + 1) == Peek(a, i + 1);
    var (v, k) := ParseValue(a, i + 2).value;
    ValueStable(a, b, i + 2);
    var u := Peek(a, k);
    assert Peek(b, k) == u;
    if u.kind == Comma {
      assert Peek(b, k + 1) == Peek(a, k + 1);
      if Peek(a, k + 1).kind != RParen {
        FieldListNext(a, i, acc, t.value, v, k);
        FieldListNext(b, i, acc, t.value, v, k);
        FieldListStable(a, b, k + 1, acc[t.value := v]);
      } else {
        FieldListTrailing(a, i, acc, t.value, v, k);
        FieldListTrailing(b, i, acc, t.value, v, k);
      }
    } else {
      FieldListClose(a, i, acc, t.value, v, k);
      assert u.kind == RParen;
      FieldListClose(b, i, acc, t.value, v, k);
    }
  }

  // The three ways a field list goes on after one field's value: on to the
  // next field, to a closing parenthesis after a trailing comma, or
  // straight to the closing parenthesis.

  lemma FieldListNext(toks: seq<Token>, i: nat, acc: Fields, key: Bytes, v: Value, k: nat)
    requires i <= |toks| && Peek(toks, i).kind == Ident && Peek(toks, i).value == key && Expect(toks, i + 1, Colon).Ok?
    requires ParseValue(toks, i + 2) == Ok((v, k))
    requires Peek(toks, k).kind == Comma && Peek(toks, k + 1).kind != RParen
    ensures k + 1 <= |toks|
    ensures ParseFieldList(toks, i, acc) == ParseFieldList(toks, k + 1, acc[key := v])
  {
    assert Expect(toks, i + 1, Colon) == Ok(i + 2);
  }

  lemma FieldListTrailing(toks: seq<Token>, i: nat, acc: Fields, key: Bytes, v: Value, k: nat)
    requires i <= |toks| && Peek(toks, i).kind == Ident && Peek(toks, i).value == key && Expect(toks, i + 1, Colon).Ok?
    requires ParseValue(toks, i + 2) == Ok((v, k))
    requires Peek(toks, k).kind == Comma && Peek(toks, k + 1).kind == RParen
    ensures ParseFieldList(toks, i, acc) == Ok((acc[key := v], k + 1))
  {
    assert Expect(toks, i + 1, Colon) == Ok(i + 2);
  }

  lemma FieldListClose(toks: seq<Token>, i: nat, acc: Fields, key: Bytes, v: Value, k: nat)
    requires i <= |toks| && Peek(toks, i).kind == Ident && Peek(toks, i).value == key && Expect(toks, i + 1, Colon).Ok?
    requires ParseValue(toks, i + 2) == Ok((v, k))
    requires Peek(toks, k).kind != Comma
    ensures ParseFieldList(toks, i, acc).Ok? <==> Peek(toks, k).kind == RParen
    ensures Peek(toks, k).kind == RParen ==> ParseFieldList(toks, i, acc) == Ok((acc[key := v], k))
  {
    assert Expect(toks, i + 1, Colon) == Ok(i + 2);
  }

  /** Tokens after the root value are never looked at: once a root value
      has been read, replacing whatever follows it changes nothing, be the
      result the schedule or the complaint that the root is not one. */
  lemma TrailingIgnored(toks: seq<Token>, more: seq<Token>)
    requires ParseValue(toks, 0).Ok?
    ensures var k := ParseValue(toks, 0).value.1;
      Parse(toks[..k] + more) == Parse(toks)
  {
    var k := ParseValue(toks, 0).value.1;
    var b := toks[..k] + more;
    assert SameUpTo(toks, b, k);
    ValueStable(toks, b, 0);
  }
}
