/** The byte-level tokenizer of the RON-like notation: skips whitespace and
    comments, reads double-quoted strings with backslash escapes,
    identifiers and the six punctuation tokens. Every function works on the
    whole input and an offset into it, as the Go tokenizer's cursor does. */
module Lexer {
  import opened Bytes
  import opened Results

  datatype Kind = EOF | Ident | Str | LParen | RParen | LBrack | RBrack | Colon | Comma

  /** A token with its decoded text and the offset of its first byte. */
  datatype Token = Token(kind: Kind, value: Bytes, pos: nat)

  /** One variant per error the tokenizer reports, with the data its message
      carries. `EndAfterBackslash` has no offset because the Go tokenizer's message
      prints none. */
  datatype LexError =
    | ExpectedQuote(pos: nat)
    | EndAfterBackslash
    | UnclosedString(pos: nat)
    | UnexpectedChar(ch: Byte, pos: nat)

  // True when a line comment or a block comment opens at `p`.
  predicate StartsComment(input: Bytes, p: nat) {
    p + 1 < |input| && input[p] == '/' && (input[p + 1] == '/' || input[p + 1] == '*')
  }

  // True when the two-byte block-comment terminator starts at `p`.
  predicate ClosesBlock(input: Bytes, p: nat) {
    p + 1 < |input| && input[p] == '*' && input[p + 1] == '/'
  }

  /** The punctuation token a byte stands for, if any. */
  function PunctKind(c: Byte): (r: Option<Kind>)
    ensures r.Some? ==> r.value !in {EOF, Ident, Str}
    ensures r.None? <==> c !in {'(', ')', '[', ']', ':', ','}
    ensures c == '(' ==> r == Some(LParen)
    ensures c == ')' ==> r == Some(RParen)
    ensures c == '[' ==> r == Some(LBrack)
    ensures c == ']' ==> r == Some(RBrack)
    ensures c == ':' ==> r == Some(Colon)
    ensures c == ',' ==> r == Some(Comma)
  {
    match c
    case '(' => Some(LParen)
    case ')' => Some(RParen)
    case '[' => Some(LBrack)
    case ']' => Some(RBrack)
    case ':' => Some(Colon)
    case ',' => Some(Comma)
    case _ => None
  }

  /** Skips a run of spaces, tabs, newlines and carriage returns. */
  function SkipWhitespace(input: Bytes, pos: nat): (r: nat)
    requires pos <= |input|
    ensures pos <= r <= |input|
    ensures forall k :: pos <= k < r ==> IsSpace(input[k])
    ensures r == |input| || !IsSpace(input[r])
    decreases |input| - pos
  {
    if pos < |input| && IsSpace(input[pos]) then SkipWhitespace(input, pos + 1) else pos
  }

  /** The body of a `//` comment: everything up to, not including, the next
      newline. */
  function SkipLineComment(input: Bytes, pos: nat): (r: nat)
    requires pos <= |input|
    ensures pos <= r <= |input|
    ensures forall k :: pos <= k < r ==> input[k] != '\n'
    ensures r == |input| || input[r] == '\n'
    decreases |input| - pos
  {
    if pos < |input| && input[pos] != '\n' then SkipLineComment(input, pos + 1) else pos
  }

  // The body of a block comment, from just after its opener: stops just
  // after the first terminator, or, when there is none, one byte before the
  // end of input (the Go tokenizer's loop runs only while two bytes remain),
  // or at the end when the opener is the input's last two bytes.
  function SkipBlockBody(input: Bytes, pos: nat): (r: nat)
    requires pos <= |input|
    ensures pos <= r <= |input|
    ensures forall k :: pos <= k < r - 2 ==> !ClosesBlock(input, k)
    ensures (r >= pos + 2 && ClosesBlock(input, r - 2))
         || (r == (if pos + 1 < |input| then |input| - 1 else pos)
             && forall k :: pos <= k < |input| ==> !ClosesBlock(input, k))
    decreases |input| - pos
  {
    if pos + 1 < |input| then
      if ClosesBlock(input, pos) then pos + 2 else SkipBlockBody(input, pos + 1)
    else pos
  }

  /** One comment at `p`, if one opens there: the offset just past it (for a
      line comment, the offset of its newline). `p` itself when no comment
      opens at `p`. */
  function CommentEnd(input: Bytes, p: nat): (r: nat)
    requires p <= |input|
    ensures StartsComment(input, p) <==> r > p
    ensures !StartsComment(input, p) ==> r == p
    ensures r <= |input|
  {
    if p + 1 < |input| && input[p] == '/' && input[p + 1] == '/' then SkipLineComment(input, p)
    else if p + 1 < |input| && input[p] == '/' && input[p + 1] == '*' then SkipBlockBody(input, p + 2)
    else p
  }

  /** Skips whitespace and comments, alternating as often as they occur, and
      stops at the first byte that can start a token (or at the end). */
  function SkipTrivia(input: Bytes, pos: nat): (r: nat)
    requires pos <= |input|
    ensures pos <= r <= |input|
    ensures r < |input| ==> !IsSpace(input[r]) && !StartsComment(input, r)
    decreases |input| - pos
  {
    var p := SkipWhitespace(input, pos);
    var n := CommentEnd(input, p);
    if n == p then p else SkipTrivia(input, n)
  }

  /** What a backslash followed by `c` stands for inside a string literal:
      `n`, `t` and `r` name the three control bytes, and every other byte,
      the quote and the backslash among them, stands for itself. */
  function UnescapeByte(c: Byte): (r: Byte)
    ensures c == 'n' ==> r == '\n'
    ensures c == 't' ==> r == '\t'
    ensures c == 'r' ==> r == '\r'
    ensures c != 'n' && c != 't' && c != 'r' ==> r == c
  {
    match c
    case 'n' => '\n'
    case 't' => '\t'
    case 'r' => '\r'
    case _ => c
  }

  /** The bytes of a string literal after its opening quote: the decoded text
      and the offset just past the closing quote. */
  function ReadStringBody(input: Bytes, pos: nat): (r: Result<(Bytes, nat), LexError>)
    requires pos <= |input|
    ensures r.Ok? ==> pos < r.value.1 <= |input| && input[r.value.1 - 1] == '"'
    ensures r.Ok? ==> |r.value.0| < r.value.1 - pos
    ensures r.Err? ==> r.error == EndAfterBackslash || r.error == UnclosedString(|input|)
    decreases |input| - pos
  {
    if pos >= |input| then Err(UnclosedString(pos))
    else if input[pos] == '\\' then
      if pos + 1 >= |input| then Err(EndAfterBackslash)
      else
        match ReadStringBody(input, pos + 2)
        case Err(e) => Err(e)
        case Ok((s, next)) => Ok(([UnescapeByte(input[pos + 1])] + s, next))
    else if input[pos] == '"' then Ok(([], pos + 1))
    else
      match ReadStringBody(input, pos + 1)
      case Err(e) => Err(e)
      case Ok((s, next)) => Ok(([input[pos]] + s, next))
  }

  /** A string literal starting at `pos`. */
  function ReadString(input: Bytes, pos: nat): (r: Result<(Bytes, nat), LexError>)
    requires pos <= |input|
    ensures r.Ok? ==> pos + 2 <= r.value.1 <= |input| && input[pos] == '"' && input[r.value.1 - 1] == '"'
    ensures r.Err? && r.error.UnclosedString? ==> r.error.pos == |input|
    ensures (pos == |input| || input[pos] != '"') <==> r == Err(ExpectedQuote(pos))
  {
    if pos >= |input| || input[pos] != '"' then Err(ExpectedQuote(pos))
    else ReadStringBody(input, pos + 1)
  }

  /** The maximal run of identifier bytes starting at `pos`; returns its end. */
  function ReadIdent(input: Bytes, pos: nat): (r: nat)
    requires pos <= |input|
    ensures pos <= r <= |input|
    ensures forall k :: pos <= k < r ==> IsIdentPart(input[k])
    ensures r == |input| || !IsIdentPart(input[r])
    decreases |input| - pos
  {
    if pos < |input| && IsIdentPart(input[pos]) then ReadIdent(input, pos + 1) else pos
  }

  /** The token that starts at `p`, where no trivia is left to skip, and
      the offset just past it. At the end of input the token is EOF,
      positioned at the end. */
  function TokenAt(input: Bytes, p: nat): (r: Result<(Token, nat), LexError>)
    requires p <= |input|
    ensures r.Ok? && r.value.0.kind == EOF ==> r.value.1 == r.value.0.pos == |input|
    ensures r.Ok? && r.value.0.kind != EOF ==>
      var (tok, next) := r.value;
      && tok.pos == p < next <= |input|
      && (tok.kind != Str ==> tok.value == input[tok.pos..next])
      && (tok.kind == Ident ==> IsIdentifier(tok.value) && (next == |input| || !IsIdentPart(input[next])))
    ensures r.Err? && r.error.UnexpectedChar? ==>
      var c := r.error.ch;
      && p == r.error.pos < |input|
      && input[r.error.pos] == c
      && !IsIdentStart(c) && c != '"' && PunctKind(c).None?
  {
    if p >= |input| then Ok((Token(EOF, [], p), p))
    else
      var c := input[p];
      if c == '"' then
        match ReadString(input, p)
        case Err(e) => Err(e)
        case Ok((s, next)) => Ok((Token(Str, s, p), next))
      else if IsIdentStart(c) then
        var next := ReadIdent(input, p);
        Ok((Token(Ident, input[p..next], p), next))
      else
        match PunctKind(c)
        case Some(k) => Ok((Token(k, [c], p), p + 1))
        case None => Err(UnexpectedChar(c, p))
  }

  /** What the token at `p` is. At the end of input, and only there, it is
      EOF. Otherwise the byte at `p` decides the kind: a quote starts a
      string, whose value is the decoded body; a letter or `_` starts an
      identifier; each punctuation byte gives its own one-byte token. An
      error is either a byte that starts no token or the string reader's
      own error. */
  lemma TokenAtMeaning(input: Bytes, p: nat)
    requires p <= |input|
    ensures var r := TokenAt(input, p);
      && (p == |input| <==> r == Ok((Token(EOF, [], p), p)))
      && (r.Ok? && r.value.0.kind != EOF ==>
            var (tok, next) := r.value;
            && (tok.kind == Str <==> input[p] == '"')
            && (tok.kind == Ident <==> IsIdentStart(input[p]))
            && (tok.kind != Str && tok.kind != Ident ==> PunctKind(input[p]) == Some(tok.kind) && next == p + 1)
            && (tok.kind == Str ==> ReadStringBody(input, p + 1) == Ok((tok.value, next))))
      && (r.Err? ==>
            && p < |input|
            && (r.error.UnexpectedChar? || (input[p] == '"' && ReadStringBody(input, p + 1) == Err(r.error))))
  {
  }

  /** The next token at or after `pos`, and the offset just past it: the
      token at the first offset that is not whitespace or a comment. */
  function NextToken(input: Bytes, pos: nat): (r: Result<(Token, nat), LexError>)
    requires pos <= |input|
    ensures r.Ok? && r.value.0.kind == EOF ==> r.value.1 == r.value.0.pos == |input|
    ensures r.Ok? && r.value.0.kind != EOF ==>
      var (tok, next) := r.value;
      && pos <= tok.pos < next <= |input|
      && (tok.kind != Str ==> tok.value == input[tok.pos..next])
      && (tok.kind == Ident ==> IsIdentifier(tok.value) && (next == |input| || !IsIdentPart(input[next])))
    ensures r.Err? && r.error.UnexpectedChar? ==>
      var c := r.error.ch;
      && pos <= r.error.pos < |input|
      && input[r.error.pos] == c
      && !IsIdentStart(c) && c != '"' && PunctKind(c).None?
  {
    TokenAt(input, SkipTrivia(input, pos))
  }

  /** What the next token is: EOF exactly when only trivia is left, and
      otherwise the token at the first offset after the trivia, of the kind
      its first byte decides, as `TokenAtMeaning` states. */
  lemma NextTokenMeaning(input: Bytes, pos: nat)
    requires pos <= |input|
    ensures var r := NextToken(input, pos);
      var p := SkipTrivia(input, pos);
      && (p == |input| <==> r == Ok((Token(EOF, [], |input|), |input|)))
      && (r.Ok? && r.value.0.kind != EOF ==>
            var (tok, next) := r.value;
            && tok.pos == p
            && (tok.kind == Str <==> input[p] == '"')
            && (tok.kind == Ident <==> IsIdentStart(input[p]))
            && (tok.kind != Str && tok.kind != Ident ==> PunctKind(input[p]) == Some(tok.kind) && next == p + 1)
            && (tok.kind == Str ==> ReadStringBody(input, p + 1) == Ok((tok.value, next))))
      && (r.Err? ==>
            && p < |input|
            && (r.error.UnexpectedChar? || (input[p] == '"' && ReadStringBody(input, p + 1) == Err(r.error))))
  {
    TokenAtMeaning(input, SkipTrivia(input, pos));
  }

  /** Token offsets strictly increase along the sequence. */
  predicate Ascending(ts: seq<Token>) {
    forall a, b :: 0 <= a < b < |ts| ==> ts[a].pos < ts[b].pos
  }

  /** What every successful tokenization from `pos` satisfies. */
  predicate WellLexed(input: Bytes, pos: nat, ts: seq<Token>) {
    && Ascending(ts)
    && forall k :: 0 <= k < |ts| ==>
         && ts[k].kind != EOF
         && pos <= ts[k].pos < |input|
         && (ts[k].kind != Str ==>
               && ts[k].pos + |ts[k].value| <= |input|
               && ts[k].value == input[ts[k].pos..ts[k].pos + |ts[k].value|])
  }

  /** All tokens from `pos` to the end; the EOF token is not stored, and the
      first error discards everything read so far. */
  function TokenizeFrom(input: Bytes, pos: nat): Result<seq<Token>, LexError>
    requires pos <= |input|
    decreases |input| - pos
  {
    match NextToken(input, pos)
    case Err(e) => Err(e)
    case Ok((tok, next)) =>
      if tok.kind == EOF then Ok([])
      else
        match TokenizeFrom(input, next)
        case Err(e) => Err(e)
        case Ok(rest) => Ok([tok] + rest)
  }

  /** The tokenizer's entry point. */
  function Tokenize(input: Bytes): Result<seq<Token>, LexError> {
    TokenizeFrom(input, 0)
  }

  /** A successful tokenization of the whole input is well lexed. */
  lemma TokenizeIsWellLexed(input: Bytes)
    ensures Tokenize(input).Ok? ==> WellLexed(input, 0, Tokenize(input).value)
  {
    TokenizeWellLexed(input, 0);
  }

  /** Every successful tokenization is well lexed: no EOF token, strictly
      increasing offsets inside the input, and the text of every identifier
      and punctuation token found at its offset. */
  lemma {:induction false} TokenizeWellLexed(input: Bytes, pos: nat)
    requires pos <= |input|
    ensures TokenizeFrom(input, pos).Ok? ==> WellLexed(input, pos, TokenizeFrom(input, pos).value)
    decreases |input| - pos
  {
    match NextToken(input, pos)
    case Err(_) =>
    case Ok((tok, next)) =>
      if tok.kind != EOF {
        TokenizeWellLexed(input, next);
        match TokenizeFrom(input, next)
        case Err(_) =>
        case Ok(rest) =>
          assert TokenizeFrom(input, pos) == Ok([tok] + rest);
          WellLexedCons(input, pos, tok, next, rest);
      }
  }

  lemma WellLexedCons(input: Bytes, pos: nat, tok: Token, next: nat, rest: seq<Token>)
    requires tok.kind != EOF && pos <= tok.pos < next <= |input|
    requires tok.kind != Str ==> tok.value == input[tok.pos..next]
    requires WellLexed(input, next, rest)
    ensures WellLexed(input, pos, [tok] + rest)
  {
    var ts := [tok] + rest;
    forall k | 0 <= k < |ts|
      ensures ts[k].kind != EOF && pos <= ts[k].pos < |input|
      ensures ts[k].kind != Str ==>
        && ts[k].pos + |ts[k].value| <= |input|
        && ts[k].value == input[ts[k].pos..ts[k].pos + |ts[k].value|]
    {
      if k > 0 {
        assert ts[k] == rest[k - 1];
      }
    }
    forall a, b | 0 <= a < b < |ts| ensures ts[a].pos < ts[b].pos {
      if a > 0 {
        assert ts[a] == rest[a - 1] && ts[b] == rest[b - 1];
      } else {
        assert ts[b] == rest[b - 1];
      }
    }
  }
}
