/** Reference definitions of what the tokenizer decodes inside a string
    literal and what it skips between tokens, written as the shape of the
    text rather than as the tokenizer's loops, with the proofs that the
    tokenizer agrees with them. */
module LexSpec {
  import opened Bytes
  import opened Results
  import opened Lexer
  import opened Text

  /** One unit of a string literal's body: a byte copied as it stands, or a
      backslash together with the byte after it. */
  datatype Piece = Raw(b: Byte) | Escaped(b: Byte)

  /** How a piece is written inside the literal. */
  function PieceText(p: Piece): Bytes {
    match p
    case Raw(c) => [c]
    case Escaped(c) => ['\\', c]
  }

  /** The byte a piece stands for in the decoded text. */
  function PieceByte(p: Piece): Byte {
    match p
    case Raw(c) => c
    case Escaped(c) => UnescapeByte(c)
  }

  /** No raw piece is a quote, which would close the literal, or a
      backslash, which would start an escape. */
  predicate Plain(ps: seq<Piece>) {
    ps == [] || ((ps[0].Raw? ==> ps[0].b != '"' && ps[0].b != '\\') && Plain(ps[1..]))
  }

  /** The pieces written one after another. */
  function Spell(ps: seq<Piece>): Bytes {
    if ps == [] then [] else PieceText(ps[0]) + Spell(ps[1..])
  }

  /** The decoded text: one byte per piece. */
  function Decoded(ps: seq<Piece>): Bytes {
    if ps == [] then [] else [PieceByte(ps[0])] + Decoded(ps[1..])
  }

  /** The first piece, and the rest of the body after it. */
  lemma PieceSplit(input: Bytes, pos: nat, ps: seq<Piece>)
    requires ps != [] && pos + |Spell(ps)| <= |input|
    requires input[pos..pos + |Spell(ps)|] == Spell(ps)
    ensures var q := pos + |PieceText(ps[0])|;
      && q + |Spell(ps[1..])| == pos + |Spell(ps)|
      && input[pos..q] == PieceText(ps[0])
      && input[q..q + |Spell(ps[1..])|] == Spell(ps[1..])
  {
    SpellCons(ps);
    SliceSplit(input, pos, Spell(ps), PieceText(ps[0]), Spell(ps[1..]));
  }

  lemma SpellCons(ps: seq<Piece>)
    requires ps != []
    ensures Spell(ps) == PieceText(ps[0]) + Spell(ps[1..])
  {
  }

  /** A body spelled by plain pieces and closed by a quote is read as the
      pieces' decoded bytes, and reading stops just past the quote. */
  lemma {:induction false} ReadPieces(input: Bytes, pos: nat, ps: seq<Piece>)
    requires Plain(ps)
    requires pos + |Spell(ps)| < |input|
    requires input[pos..pos + |Spell(ps)|] == Spell(ps) && input[pos + |Spell(ps)|] == '"'
    ensures ReadStringBody(input, pos) == Ok((Decoded(ps), pos + |Spell(ps)| + 1))
    decreases ps
  {
    if ps != [] {
      var q := pos + |PieceText(ps[0])|;
      PieceSplit(input, pos, ps);
      ReadPieces(input, q, ps[1..]);
      ReadPieceStep(input, pos, ps[0], Decoded(ps[1..]), pos + |Spell(ps)| + 1);
    }
  }

  /** Reading one piece, then the rest of the body. */
  lemma ReadPieceStep(input: Bytes, pos: nat, p: Piece, t: Bytes, next: nat)
    requires p.Raw? ==> p.b != '"' && p.b != '\\'
    requires pos + |PieceText(p)| <= |input| && input[pos..pos + |PieceText(p)|] == PieceText(p)
    requires ReadStringBody(input, pos + |PieceText(p)|) == Ok((t, next))
    ensures ReadStringBody(input, pos) == Ok(([PieceByte(p)] + t, next))
  {
    assert input[pos] == PieceText(p)[0];
    if p.Escaped? {
      assert input[pos + 1] == PieceText(p)[1];
    }
  }

  /** The pieces of `input[pos..end]`, read left to right: a backslash
      with a byte after it is one escaped piece, any other byte a raw one. */
  function BodyPieces(input: Bytes, pos: nat, end: nat): seq<Piece>
    requires pos <= end <= |input|
    decreases end - pos
  {
    if pos == end then []
    else if input[pos] == '\\' && pos + 1 < end then [Escaped(input[pos + 1])] + BodyPieces(input, pos + 2, end)
    else [Raw(input[pos])] + BodyPieces(input, pos + 1, end)
  }

  /** `input[pos..next - 1]` is spelled by plain pieces whose decoding is `s`. */
  predicate PiecesFit(input: Bytes, pos: nat, next: nat, s: Bytes) {
    && pos < next <= |input|
    && var ps := BodyPieces(input, pos, next - 1);
    && Plain(ps) && Spell(ps) == input[pos..next - 1] && Decoded(ps) == s
  }

  /** Every body the tokenizer reads is spelled by plain pieces, followed by
      the closing quote, and the text it returns is their decoding. */
  lemma {:induction false} PiecesOfRead(input: Bytes, pos: nat)
    requires pos <= |input|
    ensures ReadStringBody(input, pos).Ok? ==>
      PiecesFit(input, pos, ReadStringBody(input, pos).value.1, ReadStringBody(input, pos).value.0)
    decreases |input| - pos
  {
    if pos < |input| && ReadStringBody(input, pos).Ok? {
      var s := ReadStringBody(input, pos).value.0;
      var next := ReadStringBody(input, pos).value.1;
      if input[pos] == '"' {
        QuoteFit(input, pos);
      } else {
        var p := if input[pos] == '\\' then Escaped(input[pos + 1]) else Raw(input[pos]);
        var q := pos + |PieceText(p)|;
        ReadFirstPiece(input, pos, p, s, next);
        PiecesOfRead(input, q);
        PiecesCons(input, pos, q, next, p, ReadStringBody(input, q).value.0, s);
      }
    }
  }

  /** A body that is only the closing quote is spelled by no pieces. */
  lemma QuoteFit(input: Bytes, pos: nat)
    requires pos < |input| && input[pos] == '"'
    ensures ReadStringBody(input, pos) == Ok(([], pos + 1))
    ensures PiecesFit(input, pos, pos + 1, [])
  {
    assert BodyPieces(input, pos, pos) == [];
    assert input[pos..pos] == [];
  }

  /** Reading a body that does not start with the quote reads its first
      piece, then the rest of the body up to the same closing quote. */
  lemma ReadFirstPiece(input: Bytes, pos: nat, p: Piece, s: Bytes, next: nat)
    requires pos < |input| && input[pos] != '"' && ReadStringBody(input, pos) == Ok((s, next))
    requires p == if input[pos] == '\\' then Escaped(input[pos + 1]) else Raw(input[pos])
    ensures var q := pos + |PieceText(p)|;
      && q < next && input[pos..q] == PieceText(p) && (p.Raw? ==> p.b != '"' && p.b != '\\')
      && ReadStringBody(input, q).Ok? && ReadStringBody(input, q).value.1 == next
      && s == [PieceByte(p)] + ReadStringBody(input, q).value.0
      && BodyPieces(input, pos, next - 1) == [p] + BodyPieces(input, q, next - 1)
  {
    var q := pos + |PieceText(p)|;
    assert ReadStringBody(input, q).Ok?;
    assert input[pos..q] == PieceText(p);
  }

  /** One more piece in front of a spelled body. */
  lemma PiecesCons(input: Bytes, pos: nat, q: nat, next: nat, p: Piece, t: Bytes, s: Bytes)
    requires pos <= q < next <= |input| && q == pos + |PieceText(p)|
    requires input[pos..q] == PieceText(p) && (p.Raw? ==> p.b != '"' && p.b != '\\')
    requires PiecesFit(input, q, next, t) && s == [PieceByte(p)] + t
    requires BodyPieces(input, pos, next - 1) == [p] + BodyPieces(input, q, next - 1)
    ensures PiecesFit(input, pos, next, s)
  {
    var ps := BodyPieces(input, pos, next - 1);
    assert ps[0] == p && ps[1..] == BodyPieces(input, q, next - 1);
    assert input[pos..next - 1] == input[pos..q] + input[q..next - 1];
  }

  /** Reading a string body from `pos` returns `s` and stops at `next`
      exactly when the bytes before `next` are a quote-free spelling of `s`
      by pieces and the byte before `next` is the closing quote. */
  lemma ReadBodyMeaning(input: Bytes, pos: nat, s: Bytes, next: nat)
    requires pos < next <= |input|
    ensures ReadStringBody(input, pos) == Ok((s, next)) <==>
      && input[next - 1] == '"'
      && exists ps :: Plain(ps) && Spell(ps) == input[pos..next - 1] && Decoded(ps) == s
  {
    if ReadStringBody(input, pos) == Ok((s, next)) {
      ReadIsSpelled(input, pos, s, next);
    }
    if input[next - 1] == '"' && exists ps :: Plain(ps) && Spell(ps) == input[pos..next - 1] && Decoded(ps) == s {
      SpelledIsRead(input, pos, s, next);
    }
  }

  lemma ReadIsSpelled(input: Bytes, pos: nat, s: Bytes, next: nat)
    requires pos < next <= |input| && ReadStringBody(input, pos) == Ok((s, next))
    ensures exists ps :: Plain(ps) && Spell(ps) == input[pos..next - 1] && Decoded(ps) == s
  {
    PiecesOfRead(input, pos);
    var ps := BodyPieces(input, pos, next - 1);
    assert PiecesFit(input, pos, next, s);
    assert Plain(ps) && Spell(ps) == input[pos..next - 1] && Decoded(ps) == s;
  }

  lemma SpelledIsRead(input: Bytes, pos: nat, s: Bytes, next: nat)
    requires pos < next <= |input| && input[next - 1] == '"'
    requires exists ps :: Plain(ps) && Spell(ps) == input[pos..next - 1] && Decoded(ps) == s
    ensures ReadStringBody(input, pos) == Ok((s, next))
  {
    var ps :| Plain(ps) && Spell(ps) == input[pos..next - 1] && Decoded(ps) == s;
    assert pos + |Spell(ps)| == next - 1;
    ReadPieces(input, pos, ps);
  }

  /** A comment that opens at `a` and ends at `e`. A line comment runs up
      to, not including, the next newline or the end of input. A block
      comment ends just after the first terminator past its opener; with
      none, it ends one byte before the end of input, or at the end when
      the opener is the input's last two bytes. */
  predicate CommentSpan(input: Bytes, a: nat, e: nat) {
    && a + 2 <= e <= |input| && input[a] == '/'
    && (|| (&& input[a + 1] == '/'
            && (forall k :: a <= k < e ==> input[k] != '\n')
            && (e == |input| || input[e] == '\n'))
        || (&& input[a + 1] == '*' && a + 4 <= e && ClosesBlock(input, e - 2)
            && forall k :: a + 2 <= k < e - 2 ==> !ClosesBlock(input, k))
        || (&& input[a + 1] == '*' && e == (if a + 2 < |input| then |input| - 1 else |input|)
            && forall k :: a + 2 <= k < |input| ==> !ClosesBlock(input, k)))
  }

  /** `input[a..b]` is whitespace bytes and whole comments, one after
      another, in any order. */
  predicate TriviaSpan(input: Bytes, a: nat, b: nat)
    decreases b - a
  {
    || a == b
    || (a < b <= |input| && IsSpace(input[a]) && TriviaSpan(input, a + 1, b))
    || (a < b <= |input| && exists e :: a < e <= b && CommentSpan(input, a, e) && TriviaSpan(input, e, b))
  }

  lemma CommentEndSpan(input: Bytes, p: nat)
    requires p <= |input| && StartsComment(input, p)
    ensures CommentSpan(input, p, CommentEnd(input, p))
  {
    if input[p + 1] == '/' {
      var e := SkipLineComment(input, p);
      assert e != p && e != p + 1;
    }
  }

  lemma {:induction false} SpacesThen(input: Bytes, a: nat, p: nat, r: nat)
    requires a <= p <= r <= |input| && TriviaSpan(input, p, r)
    requires forall k :: a <= k < p ==> IsSpace(input[k])
    ensures TriviaSpan(input, a, r)
    decreases p - a
  {
    if a < p {
      SpacesThen(input, a + 1, p, r);
    }
  }

  /** What the tokenizer skips before a token is whitespace and whole
      comments, and where it stops neither whitespace nor a comment
      starts. */
  lemma {:induction false} SkipTriviaSpan(input: Bytes, pos: nat)
    requires pos <= |input|
    ensures var r := SkipTrivia(input, pos);
      && pos <= r <= |input| && TriviaSpan(input, pos, r)
      && (r < |input| ==> !IsSpace(input[r]) && !StartsComment(input, r))
    decreases |input| - pos
  {
    var p := SkipWhitespace(input, pos);
    var n := CommentEnd(input, p);
    var r := SkipTrivia(input, pos);
    if n != p {
      SkipTriviaSpan(input, n);
      assert r == SkipTrivia(input, n);
      CommentEndSpan(input, p);
      assert p < n <= r && CommentSpan(input, p, n) && TriviaSpan(input, n, r);
      assert TriviaSpan(input, p, r);
    }
    SpacesThen(input, pos, p, r);
  }
}
