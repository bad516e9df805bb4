/** Locality of the tokenizer: lexing the tail of an input at some offset is
    lexing that tail on its own, with every reported offset moved by where
    the tail starts. */
module LexShift {
  import opened Bytes
  import opened Results
  import opened Lexer

  /** `s` ends with `suf`, which starts at offset `d`. */
  predicate ShiftedBy(s: Bytes, suf: Bytes, d: nat) {
    |s| == d + |suf| && forall k {:trigger suf[k]} :: 0 <= k < |suf| ==> s[d + k] == suf[k]
  }

  function ShiftToken(t: Token, d: nat): Token {
    t.(pos := t.pos + d)
  }

  function ShiftTokens(ts: seq<Token>, d: nat): (r: seq<Token>)
    ensures |r| == |ts|
    ensures forall k :: 0 <= k < |ts| ==> r[k] == ShiftToken(ts[k], d)
  {
    if ts == [] then [] else [ShiftToken(ts[0], d)] + ShiftTokens(ts[1..], d)
  }

  function ShiftError(e: LexError, d: nat): LexError {
    match e
    case ExpectedQuote(p) => ExpectedQuote(p + d)
    case EndAfterBackslash => EndAfterBackslash
    case UnclosedString(p) => UnclosedString(p + d)
    case UnexpectedChar(c, p) => UnexpectedChar(c, p + d)
  }

  function ShiftString(r: Result<(Bytes, nat), LexError>, d: nat): Result<(Bytes, nat), LexError> {
    match r
    case Ok((s, n)) => Ok((s, n + d))
    case Err(e) => Err(ShiftError(e, d))
  }

  function ShiftStep(r: Result<(Token, nat), LexError>, d: nat): Result<(Token, nat), LexError> {
    match r
    case Ok((t, n)) => Ok((ShiftToken(t, d), n + d))
    case Err(e) => Err(ShiftError(e, d))
  }

  function ShiftResult(r: Result<seq<Token>, LexError>, d: nat): Result<seq<Token>, LexError> {
    match r
    case Ok(ts) => Ok(ShiftTokens(ts, d))
    case Err(e) => Err(ShiftError(e, d))
  }

  /** The tokens `ts`, then those of `r`; or the error of `r`. */
  function Prepend(ts: seq<Token>, r: Result<seq<Token>, LexError>): Result<seq<Token>, LexError> {
    match r
    case Ok(rest) => Ok(ts + rest)
    case Err(e) => Err(e)
  }

  lemma {:induction false} SkipWhitespaceShift(s: Bytes, suf: Bytes, d: nat, q: nat)
    requires ShiftedBy(s, suf, d) && q <= |suf|
    ensures SkipWhitespace(s, d + q) == d + SkipWhitespace(suf, q)
    decreases |suf| - q
  {
    if q < |suf| {
      assert s[d + q] == suf[q];
      if IsSpace(suf[q]) {
        SkipWhitespaceShift(s, suf, d, q + 1);
      }
    }
  }

  lemma {:induction false} SkipLineCommentShift(s: Bytes, suf: Bytes, d: nat, q: nat)
    requires ShiftedBy(s, suf, d) && q <= |suf|
    ensures SkipLineComment(s, d + q) == d + SkipLineComment(suf, q)
    decreases |suf| - q
  {
    if q < |suf| {
      assert s[d + q] == suf[q];
      if suf[q] != '\n' {
        SkipLineCommentShift(s, suf, d, q + 1);
      }
    }
  }

  lemma {:induction false} SkipBlockBodyShift(s: Bytes, suf: Bytes, d: nat, q: nat)
    requires ShiftedBy(s, suf, d) && q <= |suf|
    ensures SkipBlockBody(s, d + q) == d + SkipBlockBody(suf, q)
    decreases |suf| - q
  {
    if q + 1 < |suf| {
      assert s[d + q] == suf[q] && s[d + q + 1] == suf[q + 1];
      assert ClosesBlock(s, d + q) == ClosesBlock(suf, q);
      if !ClosesBlock(suf, q) {
        SkipBlockBodyShift(s, suf, d, q + 1);
      }
    }
  }

  lemma CommentEndShift(s: Bytes, suf: Bytes, d: nat, p: nat)
    requires ShiftedBy(s, suf, d) && p <= |suf|
    ensures CommentEnd(s, d + p) == d + CommentEnd(suf, p)
  {
    if p + 1 < |suf| {
      assert s[d + p] == suf[p] && s[d + p + 1] == suf[p + 1];
      if suf[p] == '/' && suf[p + 1] == '/' {
        SkipLineCommentShift(s, suf, d, p);
      } else if suf[p] == '/' && suf[p + 1] == '*' {
        SkipBlockBodyShift(s, suf, d, p + 2);
      }
    }
  }

  lemma {:induction false} SkipTriviaShift(s: Bytes, suf: Bytes, d: nat, q: nat)
    requires ShiftedBy(s, suf, d) && q <= |suf|
    ensures SkipTrivia(s, d + q) == d + SkipTrivia(suf, q)
    decreases |suf| - q
  {
    SkipWhitespaceShift(s, suf, d, q);
    var p := SkipWhitespace(suf, q);
    CommentEndShift(s, suf, d, p);
    var n := CommentEnd(suf, p);
    TriviaUnfold(suf, q, p, n);
    TriviaUnfold(s, d + q, d + p, d + n);
    if n != p {
      SkipTriviaShift(s, suf, d, n);
    }
  }

  /** One round of whitespace and one comment, then the rest. */
  lemma TriviaUnfold(input: Bytes, q: nat, p: nat, n: nat)
    requires q <= |input| && SkipWhitespace(input, q) == p && CommentEnd(input, p) == n
    ensures SkipTrivia(input, q) == if n == p then p else SkipTrivia(input, n)
  {
  }

  lemma {:induction false} ReadStringBodyShift(s: Bytes, suf: Bytes, d: nat, q: nat)
    requires ShiftedBy(s, suf, d) && q <= |suf|
    ensures ReadStringBody(s, d + q) == ShiftString(ReadStringBody(suf, q), d)
    decreases |suf| - q
  {
    if q < |suf| {
      assert s[d + q] == suf[q];
      if suf[q] == '\\' {
        if q + 1 < |suf| {
          assert s[d + q + 1] == suf[q + 1];
          ReadStringBodyShift(s, suf, d, q + 2);
        }
      } else if suf[q] != '"' {
        ReadStringBodyShift(s, suf, d, q + 1);
      }
    }
  }

  lemma {:induction false} ReadIdentShift(s: Bytes, suf: Bytes, d: nat, q: nat)
    requires ShiftedBy(s, suf, d) && q <= |suf|
    ensures ReadIdent(s, d + q) == d + ReadIdent(suf, q)
    decreases |suf| - q
  {
    if q < |suf| {
      assert s[d + q] == suf[q];
      if IsIdentPart(suf[q]) {
        ReadIdentShift(s, suf, d, q + 1);
      }
    }
  }

  lemma ReadStringShift(s: Bytes, suf: Bytes, d: nat, q: nat)
    requires ShiftedBy(s, suf, d) && q <= |suf|
    ensures ReadString(s, d + q) == ShiftString(ReadString(suf, q), d)
  {
    if q < |suf| {
      assert s[d + q] == suf[q];
      ReadStringBodyShift(s, suf, d, q + 1);
    }
  }

  lemma NextTokenShift(s: Bytes, suf: Bytes, d: nat, q: nat)
    requires ShiftedBy(s, suf, d) && q <= |suf|
    ensures NextToken(s, d + q) == ShiftStep(NextToken(suf, q), d)
  {
    SkipTriviaShift(s, suf, d, q);
    var p := SkipTrivia(suf, q);
    if p < |suf| {
      var c := suf[p];
      assert s[d + p] == c;
      if c == '"' {
        StringShift(s, suf, d, q);
      } else if IsIdentStart(c) {
        IdentShift(s, suf, d, q);
      } else {
        OtherShift(s, suf, d, q);
      }
    } else {
      EndStep(suf, q);
      EndStep(s, d + q);
    }
  }

  lemma StringShift(s: Bytes, suf: Bytes, d: nat, q: nat)
    requires ShiftedBy(s, suf, d) && q <= |suf|
    requires SkipTrivia(s, d + q) == d + SkipTrivia(suf, q)
    requires var p := SkipTrivia(suf, q); p < |suf| && suf[p] == '"' && s[d + p] == '"'
    ensures NextToken(s, d + q) == ShiftStep(NextToken(suf, q), d)
  {
    var p := SkipTrivia(suf, q);
    ReadStringShift(s, suf, d, p);
    StringStepShift(s, suf, d, q, p);
  }

  /** The string step at both offsets alike, given that the string reads
      alike. */
  lemma StringStepShift(s: Bytes, suf: Bytes, d: nat, q: nat, p: nat)
    requires q <= |suf| && d + q <= |s|
    requires SkipTrivia(suf, q) == p && SkipTrivia(s, d + q) == d + p
    requires p < |suf| && d + p < |s| && suf[p] == '"' && s[d + p] == '"'
    requires ReadString(s, d + p) == ShiftString(ReadString(suf, p), d)
    ensures NextToken(s, d + q) == ShiftStep(NextToken(suf, q), d)
  {
    StringStep(suf, q);
    StringStep(s, d + q);
  }

  lemma IdentShift(s: Bytes, suf: Bytes, d: nat, q: nat)
    requires ShiftedBy(s, suf, d) && q <= |suf|
    requires SkipTrivia(s, d + q) == d + SkipTrivia(suf, q)
    requires var p := SkipTrivia(suf, q); p < |suf| && IsIdentStart(suf[p]) && s[d + p] == suf[p]
    ensures NextToken(s, d + q) == ShiftStep(NextToken(suf, q), d)
  {
    var p := SkipTrivia(suf, q);
    var n := ReadIdent(suf, p);
    ReadIdentShift(s, suf, d, p);
    SliceShift(s, suf, d, p, n);
    IdentStepShift(s, suf, d, q, p, n, suf[p]);
  }

  /** The identifier step at both offsets alike, given where it starts and
      ends in each. */
  lemma IdentStepShift(s: Bytes, suf: Bytes, d: nat, q: nat, p: nat, n: nat, c: Byte)
    requires q <= |suf| && d + q <= |s|
    requires SkipTrivia(suf, q) == p && SkipTrivia(s, d + q) == d + p
    requires p < |suf| && d + p < |s| && suf[p] == c && s[d + p] == c && IsIdentStart(c)
    requires ReadIdent(suf, p) == n && ReadIdent(s, d + p) == d + n
    requires s[d + p..d + n] == suf[p..n]
    ensures NextToken(s, d + q) == ShiftStep(NextToken(suf, q), d)
  {
    IdentStep(suf, q);
    IdentStep(s, d + q);
  }

  /** A slice of the tail is the same slice of the whole, moved by `d`. */
  lemma SliceShift(s: Bytes, suf: Bytes, d: nat, p: nat, n: nat)
    requires ShiftedBy(s, suf, d) && p <= n <= |suf|
    ensures s[d + p..d + n] == suf[p..n]
  {
    forall k | 0 <= k < n - p
      ensures s[d + p..d + n][k] == suf[p..n][k]
    {
      assert s[d + p + k] == suf[p + k];
    }
  }

  lemma OtherShift(s: Bytes, suf: Bytes, d: nat, q: nat)
    requires ShiftedBy(s, suf, d) && q <= |suf|
    requires SkipTrivia(s, d + q) == d + SkipTrivia(suf, q)
    requires var p := SkipTrivia(suf, q);
      p < |suf| && suf[p] != '"' && !IsIdentStart(suf[p]) && s[d + p] == suf[p]
    ensures NextToken(s, d + q) == ShiftStep(NextToken(suf, q), d)
  {
    var p := SkipTrivia(suf, q);
    OtherStepShift(s, suf, d, q, p, suf[p]);
  }

  /** The punctuation step at both offsets alike, on the same byte `c`. */
  lemma OtherStepShift(s: Bytes, suf: Bytes, d: nat, q: nat, p: nat, c: Byte)
    requires q <= |suf| && d + q <= |s|
    requires SkipTrivia(suf, q) == p && SkipTrivia(s, d + q) == d + p
    requires p < |suf| && d + p < |s| && suf[p] == c && s[d + p] == c
    requires c != '"' && !IsIdentStart(c)
    ensures NextToken(s, d + q) == ShiftStep(NextToken(suf, q), d)
  {
    OtherStep(suf, q);
    OtherStep(s, d + q);
  }

  /** The step of the tokenizer at the end of input. */
  lemma EndStep(input: Bytes, pos: nat)
    requires pos <= |input|
    requires SkipTrivia(input, pos) == |input|
    ensures NextToken(input, pos) == Ok((Token(EOF, [], |input|), |input|))
  {
  }

  /** The step of the tokenizer when a string literal starts. */
  lemma StringStep(input: Bytes, pos: nat)
    requires pos <= |input|
    requires var p := SkipTrivia(input, pos); p < |input| && input[p] == '"'
    ensures var p := SkipTrivia(input, pos);
      NextToken(input, pos)
        == match ReadString(input, p)
           case Err(e) => Err(e)
           case Ok((str, next)) => Ok((Token(Str, str, p), next))
  {
  }

  /** The step of the tokenizer when an identifier starts. */
  lemma IdentStep(input: Bytes, pos: nat)
    requires pos <= |input|
    requires var p := SkipTrivia(input, pos); p < |input| && IsIdentStart(input[p])
    ensures var p := SkipTrivia(input, pos);
      var next := ReadIdent(input, p);
      NextToken(input, pos) == Ok((Token(Ident, input[p..next], p), next))
  {
  }

  /** The step of the tokenizer on any other byte. */
  lemma OtherStep(input: Bytes, pos: nat)
    requires pos <= |input|
    requires var p := SkipTrivia(input, pos);
      p < |input| && input[p] != '"' && !IsIdentStart(input[p])
    ensures var p := SkipTrivia(input, pos);
      var c := input[p];
      NextToken(input, pos)
        == match PunctKind(c)
           case Some(k) => Ok((Token(k, [c], p), p + 1))
           case None => Err(UnexpectedChar(c, p))
  {
  }

  /** Tokenizing a tail at its offset gives the tail's own tokens, or its
      own error, with every offset moved by `d`. */
  lemma {:induction false} TokenizeFromShift(s: Bytes, suf: Bytes, d: nat, q: nat)
    requires ShiftedBy(s, suf, d) && q <= |suf|
    ensures TokenizeFrom(s, d + q) == ShiftResult(TokenizeFrom(suf, q), d)
    decreases |suf| - q
  {
    NextTokenShift(s, suf, d, q);
    match NextToken(suf, q)
    case Err(e) =>
      ErrorStep(suf, q, e);
      ErrorStep(s, d + q, ShiftError(e, d));
    case Ok((t, n)) =>
      ShiftStepOk(NextToken(suf, q), t, n, d);
      if t.kind == EOF {
        EofStep(suf, q, t, n);
        EofStep(s, d + q, ShiftToken(t, d), n + d);
      } else {
        TokenStep(suf, q, t, n);
        TokenStep(s, d + q, ShiftToken(t, d), n + d);
        TokenizeFromShift(s, suf, d, n);
        ShiftPrependOne(t, TokenizeFrom(suf, n), d);
      }
  }

  // The three outcomes of one step of `TokenizeFrom`.

  lemma ErrorStep(input: Bytes, pos: nat, e: LexError)
    requires pos <= |input| && NextToken(input, pos) == Err(e)
    ensures TokenizeFrom(input, pos) == Err(e)
  {
  }

  lemma EofStep(input: Bytes, pos: nat, t: Token, n: nat)
    requires pos <= |input| && NextToken(input, pos) == Ok((t, n)) && t.kind == EOF
    ensures TokenizeFrom(input, pos) == Ok([])
  {
  }

  lemma TokenStep(input: Bytes, pos: nat, t: Token, n: nat)
    requires pos <= |input| && NextToken(input, pos) == Ok((t, n)) && t.kind != EOF
    ensures n <= |input|
    ensures TokenizeFrom(input, pos) == Prepend([t], TokenizeFrom(input, n))
  {
  }

  lemma ShiftStepOk(r: Result<(Token, nat), LexError>, t: Token, n: nat, d: nat)
    requires r == Ok((t, n))
    ensures ShiftStep(r, d) == Ok((ShiftToken(t, d), n + d)) && ShiftToken(t, d).kind == t.kind
  {
  }

  lemma ShiftPrependOne(t: Token, r: Result<seq<Token>, LexError>, d: nat)
    ensures ShiftResult(Prepend([t], r), d) == Prepend([ShiftToken(t, d)], ShiftResult(r, d))
  {
    if r.Ok? {
      assert ([t] + r.value)[1..] == r.value;
    }
  }
}
