/** Writing lexemes as text, each followed by a space, and the tokenizer
    reading that text back. With the schedule's document this closes the
    round trip from a schedule to RON text and back through `ParseRon`. */
module RonText {
  import opened Bytes
  import opened Results
  import opened Schedules
  import opened Lexer
  import opened LexShift
  import opened LexTrivia
  import opened Parser
  import opened Reader
  import opened RonDocs
  import opened RonSchedule
  import TomlWriter

  /** The text of one lexeme: a string is quoted, with its five special
      bytes escaped as the TOML writer escapes them; every other lexeme is
      its own text. */
  function LexemeText(l: Lexeme): Bytes
  {
    if l.0 == Str then "\"" + TomlWriter.EscapeToml(l.1) + "\"" else l.1
  }

  /** The lexemes one after another, each followed by one space. */
  function Render(ls: seq<Lexeme>): Bytes
  {
    if ls == [] then [] else LexemeText(ls[0]) + " " + Render(ls[1..])
  }

  /** The tokens the tokenizer is meant to find in `Render(ls)` placed at
      offset `off`. */
  function RenderedTokens(ls: seq<Lexeme>, off: nat): (ts: seq<Token>)
    ensures |ts| == |ls|
  {
    if ls == [] then []
    else [Token(ls[0].0, ls[0].1, off)] + RenderedTokens(ls[1..], off + |LexemeText(ls[0])| + 1)
  }

  /** A lexeme the tokenizer reads back as itself: any string, an
      identifier, or one punctuation byte. */
  predicate Writable(l: Lexeme) {
    || l.0 == Str
    || (l.0 == Ident && IsIdentifier(l.1))
    || (|l.1| == 1 && PunctKind(l.1[0]) == Some(l.0))
  }

  predicate AllWritable(ls: seq<Lexeme>) {
    forall k :: 0 <= k < |ls| ==> Writable(ls[k])
  }

  lemma {:induction false} ReadIdentTo(s: Bytes, p: nat, e: nat)
    requires p <= e < |s| && !IsIdentPart(s[e])
    requires forall k :: p <= k < e ==> IsIdentPart(s[k])
    ensures ReadIdent(s, p) == e
    decreases e - p
  {
    if p < e {
      ReadIdentTo(s, p + 1, e);
    }
  }

  /** A writable lexeme followed by a space is read as one token. */
  lemma FirstToken(s: Bytes, l: Lexeme)
    requires Writable(l)
    requires var n := |LexemeText(l)|; n < |s| && s[..n] == LexemeText(l) && s[n] == ' '
    ensures NextToken(s, 0) == Ok((Token(l.0, l.1, 0), |LexemeText(l)|))
  {
    var text := LexemeText(l);
    var n := |text|;
    assert s[0] == text[0] by {
      assert s[..n][0] == s[0];
    }
    if l.0 == Str {
      assert s[0] == '"';
      assert SkipTrivia(s, 0) == 0;
      StringStep(s, 0);
      assert s[0..n] == s[..n];
      TomlWriter.EscapeReadRoundTrip(s, 0, l.1);
    } else if l.0 == Ident {
      assert IsIdentStart(s[0]);
      assert SkipTrivia(s, 0) == 0;
      IdentStep(s, 0);
      forall k | 0 <= k < n
        ensures IsIdentPart(s[k])
      {
        assert s[..n][k] == s[k];
      }
      ReadIdentTo(s, 0, n);
      assert s[0..n] == l.1;
    } else {
      assert PunctKind(s[0]) == Some(l.0);
      assert SkipTrivia(s, 0) == 0;
      OtherStep(s, 0);
      assert [s[0]] == l.1;
    }
  }

  /** Tokenizing writable lexemes followed by any text gives the lexemes as
      tokens at their offsets, then the text's own tokens (or its error)
      moved past them. */
  lemma {:induction false} TokenizeRender(ls: seq<Lexeme>, tail: Bytes)
    requires AllWritable(ls)
    ensures Tokenize(Render(ls) + tail)
      == Prepend(RenderedTokens(ls, 0), ShiftResult(Tokenize(tail), |Render(ls)|))
  {
    if ls == [] {
      assert Render(ls) + tail == tail;
      ShiftZero(Tokenize(tail));
      PrependTwice([], [], Tokenize(tail));
    } else {
      var n := |LexemeText(ls[0])|;
      assert AllWritable(ls[1..]) by {
        forall k | 0 <= k < |ls[1..]| ensures Writable(ls[1..][k]) {
          assert ls[1..][k] == ls[k + 1];
        }
      }
      calc {
        Tokenize(Render(ls) + tail);
      == { RenderHead(ls, tail); }
        Prepend([Token(ls[0].0, ls[0].1, 0)], ShiftResult(Tokenize(Render(ls[1..]) + tail), n + 1));
      == { TokenizeRender(ls[1..], tail); }
        Prepend([Token(ls[0].0, ls[0].1, 0)],
                ShiftResult(Prepend(RenderedTokens(ls[1..], 0), ShiftResult(Tokenize(tail), |Render(ls[1..])|)), n + 1));
      == { RenderedStep(ls, Tokenize(tail), n); }
        Prepend(RenderedTokens(ls, 0), ShiftResult(Tokenize(tail), |Render(ls)|));
      }
    }
  }

  /** The first lexeme, then the tokens of the rest moved past it and its
      space. */
  lemma RenderHead(ls: seq<Lexeme>, tail: Bytes)
    requires ls != [] && AllWritable(ls)
    ensures var n := |LexemeText(ls[0])|;
      Tokenize(Render(ls) + tail)
        == Prepend([Token(ls[0].0, ls[0].1, 0)], ShiftResult(Tokenize(Render(ls[1..]) + tail), n + 1))
  {
    assert Writable(ls[0]);
    calc {
      Tokenize(Render(ls) + tail);
    == { RenderUnfold(ls, tail); }
      Tokenize(LexemeText(ls[0]) + " " + (Render(ls[1..]) + tail));
    == { HeadThenSpace(ls[0], Render(ls[1..]) + tail); }
      Prepend([Token(ls[0].0, ls[0].1, 0)], ShiftResult(Tokenize(Render(ls[1..]) + tail), |LexemeText(ls[0])| + 1));
    }
  }

  /** A writable lexeme and a space in front of `more`. */
  lemma HeadThenSpace(l: Lexeme, more: Bytes)
    requires Writable(l)
    ensures Tokenize(LexemeText(l) + " " + more)
      == Prepend([Token(l.0, l.1, 0)], ShiftResult(Tokenize(more), |LexemeText(l)| + 1))
  {
    var text := LexemeText(l);
    var s := text + " " + more;
    SpaceBetween(text, more, s);
    FirstToken(s, l);
    HeadAt(s, more, Token(l.0, l.1, 0), |text|);
  }

  lemma RenderUnfold(ls: seq<Lexeme>, tail: Bytes)
    requires ls != []
    ensures Render(ls) + tail == LexemeText(ls[0]) + " " + (Render(ls[1..]) + tail)
  {
  }

  lemma SpaceBetween(a: Bytes, b: Bytes, s: Bytes)
    requires s == a + " " + b
    ensures |a| < |s| && s[..|a|] == a && s[|a|] == ' ' && ShiftedBy(s, b, |a| + 1)
  {
  }

  lemma HeadAt(s: Bytes, more: Bytes, tok: Token, n: nat)
    requires NextToken(s, 0) == Ok((tok, n)) && tok.kind != EOF
    requires n < |s| && s[n] == ' ' && ShiftedBy(s, more, n + 1)
    ensures Tokenize(s) == Prepend([tok], ShiftResult(Tokenize(more), n + 1))
  {
    calc {
      Tokenize(s);
    == { TokenizeStep(s, tok, n); }
      Prepend([tok], TokenizeFrom(s, n));
    == { SpaceAfter(s, n); }
      Prepend([tok], TokenizeFrom(s, n + 1));
    == { ShiftAtStart(s, more, n + 1); }
      Prepend([tok], ShiftResult(Tokenize(more), n + 1));
    }
  }

  /** A space is trivia the tokenizer steps over. */
  lemma SpaceAfter(s: Bytes, n: nat)
    requires n < |s| && s[n] == ' '
    ensures TokenizeFrom(s, n) == TokenizeFrom(s, n + 1)
  {
    assert HoldsAt(s, n, " ");
    ResumeAfterTrivia(s, n, " ");
  }

  /** The arithmetic of offsets behind one step of `TokenizeRender`, for
      any result `x` of the text after the lexemes. */
  lemma RenderedStep(ls: seq<Lexeme>, x: Result<seq<Token>, LexError>, n: nat)
    requires ls != [] && n == |LexemeText(ls[0])|
    ensures var rest := RenderedTokens(ls[1..], 0);
      Prepend([Token(ls[0].0, ls[0].1, 0)],
              ShiftResult(Prepend(rest, ShiftResult(x, |Render(ls[1..])|)), n + 1))
      == Prepend(RenderedTokens(ls, 0), ShiftResult(x, |Render(ls)|))
  {
    var t := Token(ls[0].0, ls[0].1, 0);
    var rest := RenderedTokens(ls[1..], 0);
    var m := |Render(ls[1..])|;
    calc {
      Prepend([t], ShiftResult(Prepend(rest, ShiftResult(x, m)), n + 1));
    == { ShiftPrepend(rest, ShiftResult(x, m), n + 1); }
      Prepend([t], Prepend(ShiftTokens(rest, n + 1), ShiftResult(ShiftResult(x, m), n + 1)));
    == { ShiftTwice(x, m, n + 1); }
      Prepend([t], Prepend(ShiftTokens(rest, n + 1), ShiftResult(x, m + n + 1)));
    == { PrependTwice([t], ShiftTokens(rest, n + 1), ShiftResult(x, m + n + 1)); }
      Prepend([t] + ShiftTokens(rest, n + 1), ShiftResult(x, m + n + 1));
    == { RenderedShift(ls[1..], 0, n + 1); RenderedCons(ls, 0, n + 1); }
      Prepend(RenderedTokens(ls, 0), ShiftResult(x, m + n + 1));
    == { assert |Render(ls)| == n + 1 + m; }
      Prepend(RenderedTokens(ls, 0), ShiftResult(x, |Render(ls)|));
    }
  }

  lemma ShiftZero(r: Result<seq<Token>, LexError>)
    ensures ShiftResult(r, 0) == r
  {
    match r
    case Ok(ts) =>
      assert ShiftTokens(ts, 0) == ts;
    case Err(e) =>
      assert ShiftError(e, 0) == e;
  }

  lemma ShiftPrepend(a: seq<Token>, r: Result<seq<Token>, LexError>, d: nat)
    ensures ShiftResult(Prepend(a, r), d) == Prepend(ShiftTokens(a, d), ShiftResult(r, d))
  {
    if r.Ok? {
      ShiftTokensAppend(a, r.value, d);
    }
  }

  lemma ShiftTokensAppend(a: seq<Token>, b: seq<Token>, d: nat)
    ensures ShiftTokens(a + b, d) == ShiftTokens(a, d) + ShiftTokens(b, d)
  {
    var x := ShiftTokens(a + b, d);
    var y := ShiftTokens(a, d) + ShiftTokens(b, d);
    forall k | 0 <= k < |x|
      ensures x[k] == y[k]
    {
      if k < |a| {
        assert (a + b)[k] == a[k];
      } else {
        assert (a + b)[k] == b[k - |a|];
      }
    }
  }

  lemma {:induction false} RenderedShift(ls: seq<Lexeme>, off: nat, d: nat)
    ensures ShiftTokens(RenderedTokens(ls, off), d) == RenderedTokens(ls, off + d)
  {
    if ls != [] {
      var next := off + |LexemeText(ls[0])| + 1;
      var t := Token(ls[0].0, ls[0].1, off);
      var rest := RenderedTokens(ls[1..], next);
      calc {
        ShiftTokens(RenderedTokens(ls, off), d);
      == { RenderedCons(ls, off, next); }
        ShiftTokens([t] + rest, d);
      == { ShiftCons(t, rest, d); }
        [ShiftToken(t, d)] + ShiftTokens(rest, d);
      == { RenderedShift(ls[1..], next, d); }
        [Token(ls[0].0, ls[0].1, off + d)] + RenderedTokens(ls[1..], next + d);
      == { RenderedCons(ls, off + d, next + d); }
        RenderedTokens(ls, off + d);
      }
    }
  }

  lemma RenderedCons(ls: seq<Lexeme>, off: nat, next: nat)
    requires ls != [] && next == off + |LexemeText(ls[0])| + 1
    ensures RenderedTokens(ls, off) == [Token(ls[0].0, ls[0].1, off)] + RenderedTokens(ls[1..], next)
  {
  }

  lemma ShiftCons(t: Token, ts: seq<Token>, d: nat)
    ensures ShiftTokens([t] + ts, d) == [ShiftToken(t, d)] + ShiftTokens(ts, d)
  {
    assert ([t] + ts)[1..] == ts;
  }

  /** One successful non-EOF step of the tokenizer, then the rest. */
  lemma TokenizeStep(s: Bytes, tok: Token, n: nat)
    requires NextToken(s, 0) == Ok((tok, n)) && tok.kind != EOF
    ensures Tokenize(s) == Prepend([tok], TokenizeFrom(s, n))
  {
  }

  /** The rendered tokens carry the lexemes written, in order. */
  lemma {:induction false} RenderedAt(ls: seq<Lexeme>, off: nat)
    ensures forall k :: 0 <= k < |ls| ==>
      RenderedTokens(ls, off)[k].kind == ls[k].0 && RenderedTokens(ls, off)[k].value == ls[k].1
  {
    if ls != [] {
      var next := off + |LexemeText(ls[0])| + 1;
      var ts := RenderedTokens(ls, off);
      assert ts[1..] == RenderedTokens(ls[1..], next);
      RenderedAt(ls[1..], next);
      forall k | 1 <= k < |ls|
        ensures ts[k].kind == ls[k].0 && ts[k].value == ls[k].1
      {
        assert ts[k] == ts[1..][k - 1];
        assert ls[k] == ls[1..][k - 1];
      }
    }
  }

  /** Rendered tokens followed by anything spell the lexemes written. */
  lemma RenderedSpells(ls: seq<Lexeme>, rest: seq<Token>)
    ensures Spells(RenderedTokens(ls, 0) + rest, 0, ls)
  {
    var toks := RenderedTokens(ls, 0) + rest;
    RenderedAt(ls, 0);
    forall k | 0 <= k < |ls|
      ensures (toks[k].kind, toks[k].value) == ls[k]
    {
      assert toks[k] == RenderedTokens(ls, 0)[k];
    }
  }

  lemma {:induction false} AllWritableAppend(a: seq<Lexeme>, b: seq<Lexeme>)
    requires AllWritable(a) && AllWritable(b)
    ensures AllWritable(a + b)
  {
    forall k | 0 <= k < |a + b|
      ensures Writable((a + b)[k])
    {
      if k < |a| {
        assert (a + b)[k] == a[k];
      } else {
        assert (a + b)[k] == b[k - |a|];
      }
    }
  }

  /** A document whose record names and field keys are identifiers. */
  predicate WellNamed(d: Doc)
    decreases d, 1
  {
    match d
    case DStr(_) => true
    case DArr(es, _) => ElemsNamed(es)
    case DRec(n, fs, _) => IsIdentifier(n) && FieldsNamed(fs)
  }

  predicate ElemsNamed(es: seq<Doc>)
    decreases es, 0
  {
    es == [] || (WellNamed(es[0]) && ElemsNamed(es[1..]))
  }

  predicate FieldsNamed(fs: seq<Field>)
    decreases fs, 0
  {
    fs == [] || (IsIdentifier(fs[0].key) && WellNamed(fs[0].doc) && FieldsNamed(fs[1..]))
  }

  lemma SeparatorWritable(last: bool, trail: bool)
    ensures AllWritable(Separator(last, trail))
  {
  }

  /** Every lexeme of a well-named document is written so that it reads back. */
  lemma {:induction false} EmitWritable(d: Doc)
    requires WellNamed(d)
    ensures AllWritable(Emit(d))
    decreases d, 1
  {
    match d
    case DStr(_) =>
    case DArr(es, t) =>
      ElemsWritable(es, t);
      AllWritableAppend([(LBrack, "[")], EmitElems(es, t));
      AllWritableAppend([(LBrack, "[")] + EmitElems(es, t), [(RBrack, "]")]);
    case DRec(n, fs, t) =>
      FieldsWritable(fs, t);
      AllWritableAppend([(Ident, n), (LParen, "(")], EmitFields(fs, t));
      AllWritableAppend([(Ident, n), (LParen, "(")] + EmitFields(fs, t), [(RParen, ")")]);
  }

  lemma {:induction false} ElemsWritable(es: seq<Doc>, t: bool)
    requires ElemsNamed(es)
    ensures AllWritable(EmitElems(es, t))
    decreases es, 0
  {
    if es != [] {
      EmitWritable(es[0]);
      SeparatorWritable(|es| == 1, t);
      ElemsWritable(es[1..], t);
      AllWritableAppend(Emit(es[0]), Separator(|es| == 1, t));
      AllWritableAppend(Emit(es[0]) + Separator(|es| == 1, t), EmitElems(es[1..], t));
    }
  }

  lemma {:induction false} FieldsWritable(fs: seq<Field>, t: bool)
    requires FieldsNamed(fs)
    ensures AllWritable(EmitFields(fs, t))
    decreases fs, 0
  {
    if fs != [] {
      var head: seq<Lexeme> := [(Ident, fs[0].key), (Colon, ":")];
      EmitWritable(fs[0].doc);
      SeparatorWritable(|fs| == 1, t);
      FieldsWritable(fs[1..], t);
      AllWritableAppend(head, Emit(fs[0].doc));
      AllWritableAppend(head + Emit(fs[0].doc), Separator(|fs| == 1, t));
      AllWritableAppend(head + Emit(fs[0].doc) + Separator(|fs| == 1, t), EmitFields(fs[1..], t));
    }
  }

  /** Identifier bytes from offset `i` on, one at a time, so that a literal
      unfolds. */
  predicate IdentPartsFrom(s: Bytes, i: nat)
    decreases |s| - i
  {
    i >= |s| || (IsIdentPart(s[i]) && IdentPartsFrom(s, i + 1))
  }

  lemma {:induction false} IdentPartsAll(s: Bytes, i: nat)
    requires IdentPartsFrom(s, i)
    ensures forall k :: i <= k < |s| ==> IsIdentPart(s[k])
    decreases |s| - i
  {
    if i < |s| {
      IdentPartsAll(s, i + 1);
    }
  }

  lemma LiteralIdentifier(s: Bytes)
    requires |s| > 0 && IsIdentStart(s[0]) && IdentPartsFrom(s, 0)
    ensures IsIdentifier(s)
  {
    IdentPartsAll(s, 0);
  }

  /** The six field names of a lesson are identifiers. */
  lemma KeyNamesIdentifiers()
    ensures IsIdentifier("time") && IsIdentifier("subject") && IsIdentifier("teacher")
    ensures IsIdentifier("room") && IsIdentifier("building") && IsIdentifier("type")
  {
    assert IsIdentifier("time") by { LiteralIdentifier("time"); }
    assert IsIdentifier("subject") by { LiteralIdentifier("subject"); }
    assert IsIdentifier("teacher") by { LiteralIdentifier("teacher"); }
    assert IsIdentifier("room") by { LiteralIdentifier("room"); }
    assert IsIdentifier("building") by { LiteralIdentifier("building"); }
    assert IsIdentifier("type") by { LiteralIdentifier("type"); }
  }

  lemma LessonKeys(l: Lesson)
    ensures forall k :: 0 <= k < |LessonFields(l)| ==> IsIdentifier(LessonFields(l)[k].0)
  {
    var kvs := LessonFields(l);
    KeyNamesIdentifiers();
    forall k | 0 <= k < |kvs|
      ensures IsIdentifier(kvs[k].0)
    {
      if k == 0 {
        assert kvs[k].0 == "time";
      } else if k == 1 {
        assert kvs[k].0 == "subject";
      } else if k == 2 {
        assert kvs[k].0 == "teacher";
      } else if k == 3 {
        assert kvs[k].0 == "room";
      } else if k == 4 {
        assert kvs[k].0 == "building";
      } else {
        assert kvs[k].0 == "type";
      }
    }
  }

  lemma {:induction false} StringFieldsNamed(kvs: seq<(Bytes, Bytes)>)
    requires forall k :: 0 <= k < |kvs| ==> IsIdentifier(kvs[k].0)
    ensures FieldsNamed(StringFieldDocs(kvs))
  {
    if kvs != [] {
      var fs := StringFieldDocs(kvs);
      assert fs[1..] == StringFieldDocs(kvs[1..]);
      assert forall k :: 1 <= k < |kvs| ==> kvs[k] == kvs[1..][k - 1];
      StringFieldsNamed(kvs[1..]);
    }
  }

  lemma LessonNamed(l: Lesson, t: bool)
    ensures WellNamed(LessonDoc(l, t))
  {
    assert IsIdentifier("Lesson") by { LiteralIdentifier("Lesson"); }
    LessonKeys(l);
    StringFieldsNamed(LessonFields(l));
  }

  lemma {:induction false} LessonsNamed(ls: seq<Lesson>, t: bool)
    ensures ElemsNamed(LessonDocs(ls, t))
  {
    if ls != [] {
      var ds := LessonDocs(ls, t);
      assert ds[1..] == LessonDocs(ls[1..], t);
      LessonNamed(ls[0], t);
      LessonsNamed(ls[1..], t);
    }
  }

  lemma DayNamed(d: Day, t: bool)
    ensures WellNamed(DayDoc(d, t))
  {
    assert IsIdentifier("Day") by { LiteralIdentifier("Day"); }
    assert IsIdentifier("name") by { LiteralIdentifier("name"); }
    assert IsIdentifier("lessons") by { LiteralIdentifier("lessons"); }
    LessonsNamed(d.lessons, t);
    var fs := [Field("name", DStr(d.name)), Field("lessons", DArr(LessonDocs(d.lessons, t), t))];
    assert fs[1..][1..] == [];
    assert FieldsNamed(fs[1..]);
  }

  lemma {:induction false} DaysNamed(days: seq<Day>, t: bool)
    ensures ElemsNamed(DayDocs(days, t))
  {
    if days != [] {
      var ds := DayDocs(days, t);
      assert ds[1..] == DayDocs(days[1..], t);
      DayNamed(days[0], t);
      DaysNamed(days[1..], t);
    }
  }

  lemma ScheduleNamed(sch: Schedule, t: bool)
    ensures WellNamed(ScheduleDoc(sch, t))
  {
    assert IsIdentifier("Schedule") by { LiteralIdentifier("Schedule"); }
    assert IsIdentifier("days") by { LiteralIdentifier("days"); }
    DaysNamed(sch.days, t);
    var fs := [Field("days", DArr(DayDocs(sch.days, t), t))];
    assert fs[1..] == [];
  }

  /** A schedule written in the notation, every lexeme followed by a space;
      with `trail` every list carries a trailing comma. */
  function RonText(sch: Schedule, trail: bool): Bytes
  {
    Render(Emit(ScheduleDoc(sch, trail)))
  }

  /** Round trip: the text of a schedule, followed by any text the tokenizer
      accepts, reads back as that schedule. */
  lemma ParseRonTextThen(sch: Schedule, trail: bool, tail: Bytes)
    requires Tokenize(tail).Ok?
    ensures ParseRon(RonText(sch, trail) + tail) == Ok(sch)
  {
    var ls := Emit(ScheduleDoc(sch, trail));
    ScheduleNamed(sch, trail);
    EmitWritable(ScheduleDoc(sch, trail));
    TokenizeRender(ls, tail);
    var rest := ShiftTokens(Tokenize(tail).value, |Render(ls)|);
    assert Tokenize(RonText(sch, trail) + tail) == Ok(RenderedTokens(ls, 0) + rest);
    RenderedSpells(ls, rest);
    ParseScheduleTokens(RenderedTokens(ls, 0) + rest, sch, trail);
  }

  /** Round trip: the text of a schedule reads back as that schedule. */
  lemma ParseRonText(sch: Schedule, trail: bool)
    ensures ParseRon(RonText(sch, trail)) == Ok(sch)
  {
    assert Tokenize([]) == Ok([]);
    ParseRonTextThen(sch, trail, []);
    assert RonText(sch, trail) + [] == RonText(sch, trail);
  }
}
