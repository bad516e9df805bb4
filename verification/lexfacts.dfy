/** The tokenizer's error cases and its edge case at an unterminated block
    comment, stated over all inputs. */
module LexFacts {
  import opened Bytes
  import opened Results
  import opened Lexer
  import opened LexShift

  /** An unclosed string is reported at the end of the input, not at its
      opening quote, wherever in the input it occurs. */
  lemma {:induction false} UnclosedAtEnd(input: Bytes, pos: nat)
    requires pos <= |input|
    ensures var r := TokenizeFrom(input, pos);
      r.Err? && r.error.UnclosedString? ==> r.error.pos == |input|
    decreases |input| - pos
  {
    match NextToken(input, pos)
    case Err(e) =>
      var p := SkipTrivia(input, pos);
      if e.UnclosedString? {
        assert p < |input| && input[p] == '"';
        StringStep(input, pos);
      }
    case Ok((tok, next)) =>
      if tok.kind != EOF {
        UnclosedAtEnd(input, next);
      }
  }

  /** A string body with neither a quote nor a backslash runs into the end
      of input. */
  lemma {:induction false} Unclosed(input: Bytes, pos: nat)
    requires pos <= |input|
    requires forall k :: pos <= k < |input| ==> input[k] != '"' && input[k] != '\\'
    ensures ReadStringBody(input, pos) == Err(UnclosedString(|input|))
    decreases |input| - pos
  {
    if pos < |input| {
      Unclosed(input, pos + 1);
    }
  }

  /** "Input ended after a backslash" is reported only when the input's last
      byte is a backslash. */
  lemma {:induction false} BackslashAtEnd(input: Bytes, pos: nat)
    requires pos <= |input|
    ensures ReadStringBody(input, pos) == Err(EndAfterBackslash) ==> 0 < |input| && input[|input| - 1] == '\\'
    decreases |input| - pos
  {
    if pos < |input| {
      if input[pos] == '\\' {
        if pos + 1 < |input| {
          BackslashAtEnd(input, pos + 2);
        }
      } else if input[pos] != '"' {
        BackslashAtEnd(input, pos + 1);
      }
    }
  }

  /** A body of plain bytes followed by a final backslash: the backslash has
      nothing to escape. */
  lemma {:induction false} EndsInBackslash(input: Bytes, pos: nat)
    requires pos < |input| && input[|input| - 1] == '\\'
    requires forall k :: pos <= k < |input| - 1 ==> input[k] != '"' && input[k] != '\\'
    ensures ReadStringBody(input, pos) == Err(EndAfterBackslash)
    decreases |input| - pos
  {
    if pos < |input| - 1 {
      EndsInBackslash(input, pos + 1);
    }
  }

  /** A byte that starts no token is an "unexpected character" error at its
      offset; with the tokenizer's own contract this is an if-and-only-if. */
  lemma Unexpected(input: Bytes, pos: nat)
    requires pos <= |input|
    requires var p := SkipTrivia(input, pos);
      p < |input| && input[p] != '"' && !IsIdentStart(input[p]) && PunctKind(input[p]).None?
    ensures var p := SkipTrivia(input, pos);
      NextToken(input, pos) == Err(UnexpectedChar(input[p], p))
  {
    OtherStep(input, pos);
  }

  /** A digit cannot start a token: numbers are not part of the notation. */
  lemma DigitStart(input: Bytes, pos: nat)
    requires pos <= |input|
    requires var p := SkipTrivia(input, pos); p < |input| && IsDigit(input[p])
    ensures var p := SkipTrivia(input, pos);
      NextToken(input, pos) == Err(UnexpectedChar(input[p], p))
  {
    Unexpected(input, pos);
  }

  /** Every "unexpected character" error of a whole tokenization names a
      byte that starts no token, at its own offset. */
  lemma {:induction false} UnexpectedCharAt(input: Bytes, pos: nat)
    requires pos <= |input|
    ensures var r := TokenizeFrom(input, pos);
      r.Err? && r.error.UnexpectedChar? ==>
        var c := r.error.ch;
        && pos <= r.error.pos < |input| && input[r.error.pos] == c
        && !IsSpace(c) && !IsIdentStart(c) && c != '"' && PunctKind(c).None?
    decreases |input| - pos
  {
    match NextToken(input, pos)
    case Err(e) =>
      if e.UnexpectedChar? {
        var p := SkipTrivia(input, pos);
        assert p < |input| && input[p] != '"' && !IsIdentStart(input[p]);
        OtherStep(input, pos);
      }
    case Ok((tok, next)) =>
      if tok.kind != EOF {
        UnexpectedCharAt(input, next);
      }
  }

  /** A block comment with no terminator and at least one byte after its
      opener stops one byte before the end of input, so that byte is read as
      a token: when it can start an identifier, the whole input is that
      one-byte identifier. */
  lemma UnterminatedComment(input: Bytes)
    requires 3 <= |input| && input[0] == '/' && input[1] == '*'
    requires forall k :: 2 <= k < |input| ==> !ClosesBlock(input, k)
    requires IsIdentStart(input[|input| - 1])
    ensures Tokenize(input) == Ok([Token(Ident, [input[|input| - 1]], |input| - 1)])
  {
    var last := |input| - 1;
    assert SkipWhitespace(input, 0) == 0;
    assert CommentEnd(input, 0) == SkipBlockBody(input, 2) == last;
    assert SkipWhitespace(input, last) == last;
    assert CommentEnd(input, last) == last;
    assert SkipTrivia(input, last) == last;
    assert SkipTrivia(input, 0) == last;
    IdentStep(input, 0);
    assert ReadIdent(input, last) == |input|;
    var tok := Token(Ident, [input[last]], last);
    assert input[last..|input|] == [input[last]];
    assert NextToken(input, 0) == Ok((tok, |input|));
    EndStep(input, |input|);
    assert TokenizeFrom(input, |input|) == Ok([]);
    assert TokenizeFrom(input, 0) == Ok([tok] + []);
    assert [tok] + [] == [tok];
  }

  /** The smallest instance: slash, star, space, `x` is the identifier `x`
      at offset 3. */
  lemma CommentThenX()
    ensures Tokenize("/* x") == Ok([Token(Ident, "x", 3)])
  {
    var input := "/* x";
    assert !ClosesBlock(input, 2) && !ClosesBlock(input, 3);
    UnterminatedComment(input);
  }
}
