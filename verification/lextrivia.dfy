/** Whitespace and comments between tokens are insignificant: inserting one
    piece of trivia at a point where the tokenizer resumes changes no token
    kind or value, and moves the later offsets by the length inserted. */
module LexTrivia {
  import opened Bytes
  import opened Results
  import opened Lexer
  import opened LexShift

  /** `a` and `b` agree on their first `m` bytes. */
  predicate Agree(a: Bytes, b: Bytes, m: nat) {
    m <= |a| && m <= |b| && forall k :: 0 <= k < m ==> a[k] == b[k]
  }

  // Each scanner's result depends only on the bytes it has read.

  lemma {:induction false} SkipWhitespaceStable(a: Bytes, b: Bytes, m: nat, q: nat)
    requires Agree(a, b, m) && q <= m && SkipWhitespace(a, q) < m
    ensures SkipWhitespace(b, q) == SkipWhitespace(a, q)
    decreases m - q
  {
    assert a[q] == b[q];
    if IsSpace(a[q]) {
      SkipWhitespaceStable(a, b, m, q + 1);
    }
  }

  lemma {:induction false} SkipLineCommentStable(a: Bytes, b: Bytes, m: nat, q: nat)
    requires Agree(a, b, m) && q <= m && SkipLineComment(a, q) < m
    ensures SkipLineComment(b, q) == SkipLineComment(a, q)
    decreases m - q
  {
    assert a[q] == b[q];
    if a[q] != '\n' {
      SkipLineCommentStable(a, b, m, q + 1);
    }
  }

  lemma {:induction false} SkipBlockBodyStable(a: Bytes, b: Bytes, m: nat, q: nat)
    requires Agree(a, b, m) && q <= m
    requires var r := SkipBlockBody(a, q); q + 2 <= r <= m && ClosesBlock(a, r - 2)
    ensures SkipBlockBody(b, q) == SkipBlockBody(a, q)
    decreases m - q
  {
    assert a[q] == b[q] && a[q + 1] == b[q + 1];
    if !ClosesBlock(a, q) {
      SkipBlockBodyStable(a, b, m, q + 1);
    }
  }

  lemma CommentEndStable(a: Bytes, b: Bytes, m: nat, p: nat)
    requires Agree(a, b, m) && p < m < |a|
    requires CommentEnd(a, p) < m
    requires CommentEnd(a, p) == p ==> a[p] != '/'
    ensures CommentEnd(b, p) == CommentEnd(a, p)
  {
    assert a[p] == b[p];
    if a[p] == '/' {
      assert p + 1 < m;
      assert a[p + 1] == b[p + 1];
      if a[p + 1] == '/' {
        SkipLineCommentStable(a, b, m, p);
      } else {
        SkipBlockBodyStable(a, b, m, p + 2);
      }
    }
  }

  lemma {:induction false} SkipTriviaStable(a: Bytes, b: Bytes, m: nat, q: nat)
    requires Agree(a, b, m) && q <= m < |a|
    requires SkipTrivia(a, q) < m && a[SkipTrivia(a, q)] != '/'
    ensures SkipTrivia(b, q) == SkipTrivia(a, q)
    decreases |a| - q
  {
    var p := SkipWhitespace(a, q);
    SkipWhitespaceStable(a, b, m, q);
    var n := CommentEnd(a, p);
    CommentEndStable(a, b, m, p);
    if n != p {
      SkipTriviaStable(a, b, m, n);
    }
  }

  lemma {:induction false} ReadStringBodyStable(a: Bytes, b: Bytes, m: nat, q: nat)
    requires Agree(a, b, m) && q <= m
    requires ReadStringBody(a, q).Ok? && ReadStringBody(a, q).value.1 <= m
    ensures ReadStringBody(b, q) == ReadStringBody(a, q)
    decreases m - q
  {
    assert a[q] == b[q];
    if a[q] == '\\' {
      assert a[q + 1] == b[q + 1];
      ReadStringBodyStable(a, b, m, q + 2);
    } else if a[q] != '"' {
      ReadStringBodyStable(a, b, m, q + 1);
    }
  }

  lemma {:induction false} ReadIdentStable(a: Bytes, b: Bytes, m: nat, q: nat)
    requires Agree(a, b, m) && q <= m
    requires var r := ReadIdent(a, q);
      r < m || (r == m && (m == |b| || !IsIdentPart(b[m])))
    ensures ReadIdent(b, q) == ReadIdent(a, q)
    decreases m - q
  {
    if q < m {
      assert a[q] == b[q];
      if IsIdentPart(a[q]) {
        ReadIdentStable(a, b, m, q + 1);
      }
    }
  }

  /** A successful step that ends by offset `m` gives the same token on any
      input with the same first `m` bytes, as long as an identifier ending
      at `m` cannot run on. */
  lemma NextTokenStable(a: Bytes, b: Bytes, m: nat, q: nat)
    requires Agree(a, b, m) && q <= m < |a|
    requires m == |b| || !IsIdentPart(b[m])
    requires NextToken(a, q).Ok? && NextToken(a, q).value.0.kind != EOF
    requires NextToken(a, q).value.1 <= m
    ensures NextToken(b, q) == NextToken(a, q)
  {
    var p := SkipTrivia(a, q);
    var c := a[p];
    if c == '"' {
      StringStep(a, q);
      SkipTriviaStable(a, b, m, q);
      assert b[p] == c;
      ReadStringBodyStable(a, b, m, p + 1);
      StringStep(b, q);
    } else if IsIdentStart(c) {
      IdentStep(a, q);
      SkipTriviaStable(a, b, m, q);
      assert b[p] == c;
      ReadIdentStable(a, b, m, p);
      var n := ReadIdent(a, p);
      assert a[p..n] == b[p..n];
      IdentStep(b, q);
    } else {
      OtherStep(a, q);
      SkipTriviaStable(a, b, m, q);
      assert b[p] == c;
      OtherStep(b, q);
    }
  }

  /** `p` is reached from `q` by successful tokenizer steps. */
  predicate Reaches(input: Bytes, q: nat, p: nat)
    decreases |input| - q
  {
    q <= |input|
    && (q == p
        || (q < p
            && NextToken(input, q).Ok?
            && NextToken(input, q).value.0.kind != EOF
            && Reaches(input, NextToken(input, q).value.1, p)))
  }

  /** The tokens read on the way from `q` to `p`. */
  function TokensBetween(input: Bytes, q: nat, p: nat): seq<Token>
    requires Reaches(input, q, p)
    decreases |input| - q
  {
    if q == p then [] else [NextToken(input, q).value.0] + TokensBetween(input, NextToken(input, q).value.1, p)
  }

  /** Tokenizing from `q` is the tokens up to a reached offset `p`, then
      tokenizing from `p`. */
  lemma {:induction false} TokenizeSplit(input: Bytes, q: nat, p: nat)
    requires Reaches(input, q, p)
    ensures p <= |input|
    ensures TokenizeFrom(input, q) == Prepend(TokensBetween(input, q, p), TokenizeFrom(input, p))
    decreases |input| - q
  {
    if q != p {
      var (t, n) := NextToken(input, q).value;
      TokenizeSplit(input, n, p);
      assert TokenizeFrom(input, q) == Prepend([t], TokenizeFrom(input, n));
      PrependTwice([t], TokensBetween(input, n, p), TokenizeFrom(input, p));
    } else {
      PrependTwice([], [], TokenizeFrom(input, p));
    }
  }

  lemma PrependTwice(a: seq<Token>, b: seq<Token>, r: Result<seq<Token>, LexError>)
    ensures Prepend(a, Prepend(b, r)) == Prepend(a + b, r)
    ensures Prepend([], r) == r
  {
    if r.Ok? {
      assert a + (b + r.value) == (a + b) + r.value;
      assert [] + r.value == r.value;
    }
  }

  /** The steps before a reached offset `p` are unchanged by anything written
      at and after `p` that cannot extend an identifier. */
  lemma {:induction false} ReachesStable(a: Bytes, b: Bytes, q: nat, p: nat)
    requires Reaches(a, q, p) && p < |a| && Agree(a, b, p)
    requires p == |b| || !IsIdentPart(b[p])
    ensures Reaches(b, q, p) && TokensBetween(b, q, p) == TokensBetween(a, q, p)
    decreases |a| - q
  {
    if q != p {
      var n := NextToken(a, q).value.1;
      assert Reaches(a, n, p);
      ReachesBound(a, n, p);
      NextTokenStable(a, b, p, q);
      ReachesStable(a, b, n, p);
    }
  }

  lemma {:induction false} ReachesBound(input: Bytes, q: nat, p: nat)
    requires Reaches(input, q, p)
    ensures q <= p <= |input|
    decreases |input| - q
  {
    if q != p {
      ReachesBound(input, NextToken(input, q).value.1, p);
    }
  }

  // The three kinds of trivia, each a closed piece of text.

  predicate IsWhitespaceRun(w: Bytes) {
    |w| > 0 && forall k :: 0 <= k < |w| ==> IsSpace(w[k])
  }

  /** `//`, then anything but a newline, then the newline that ends it. */
  predicate IsLineComment(w: Bytes) {
    && |w| >= 3 && w[0] == '/' && w[1] == '/' && w[|w| - 1] == '\n'
    && forall k :: 0 <= k < |w| - 1 ==> w[k] != '\n'
  }

  /** `/` and `*`, then a body, then the first terminator after the opener. */
  predicate IsBlockComment(w: Bytes) {
    && |w| >= 4 && w[0] == '/' && w[1] == '*' && ClosesBlock(w, |w| - 2)
    && forall k :: 2 <= k < |w| - 2 ==> !ClosesBlock(w, k)
  }

  predicate IsTrivia(w: Bytes) {
    IsWhitespaceRun(w) || IsLineComment(w) || IsBlockComment(w)
  }

  /** `s` holds `w` at offset `p`. */
  predicate HoldsAt(s: Bytes, p: nat, w: Bytes) {
    p + |w| <= |s| && forall k :: 0 <= k < |w| ==> s[p + k] == w[k]
  }

  lemma {:induction false} WhitespaceOver(s: Bytes, p: nat, e: nat)
    requires p <= e <= |s| && forall k :: p <= k < e ==> IsSpace(s[k])
    ensures SkipWhitespace(s, p) == SkipWhitespace(s, e)
    decreases e - p
  {
    if p < e {
      WhitespaceOver(s, p + 1, e);
    }
  }

  lemma SameWhitespaceSameTrivia(s: Bytes, x: nat, y: nat)
    requires x <= |s| && y <= |s| && SkipWhitespace(s, x) == SkipWhitespace(s, y)
    ensures SkipTrivia(s, x) == SkipTrivia(s, y)
  {
  }

  lemma {:induction false} LineCommentTo(s: Bytes, p: nat, e: nat)
    requires p <= e < |s| && s[e] == '\n' && forall k :: p <= k < e ==> s[k] != '\n'
    ensures SkipLineComment(s, p) == e
    decreases e - p
  {
    if p < e {
      LineCommentTo(s, p + 1, e);
    }
  }

  lemma {:induction false} BlockBodyTo(s: Bytes, q: nat, e: nat)
    requires q + 2 <= e <= |s| && ClosesBlock(s, e - 2)
    requires forall k :: q <= k < e - 2 ==> !ClosesBlock(s, k)
    ensures SkipBlockBody(s, q) == e
    decreases e - q
  {
    if q + 2 < e {
      BlockBodyTo(s, q + 1, e);
    }
  }

  /** Skipping from the start of a piece of trivia lands where skipping from
      its end does. */
  lemma SkipTriviaOver(s: Bytes, p: nat, w: Bytes)
    requires HoldsAt(s, p, w) && IsTrivia(w)
    ensures SkipTrivia(s, p) == SkipTrivia(s, p + |w|)
  {
    if IsWhitespaceRun(w) {
      SkipSpacesOver(s, p, w);
    } else if IsLineComment(w) {
      SkipLineCommentOver(s, p, w);
    } else {
      SkipBlockCommentOver(s, p, w);
    }
  }

  lemma SkipSpacesOver(s: Bytes, p: nat, w: Bytes)
    requires HoldsAt(s, p, w) && IsWhitespaceRun(w)
    ensures SkipTrivia(s, p) == SkipTrivia(s, p + |w|)
  {
    var e := p + |w|;
    forall k | p <= k < e ensures IsSpace(s[k]) {
      assert s[p + (k - p)] == w[k - p];
    }
    WhitespaceOver(s, p, e);
    SameWhitespaceSameTrivia(s, p, e);
  }

  lemma SkipLineCommentOver(s: Bytes, p: nat, w: Bytes)
    requires HoldsAt(s, p, w) && IsLineComment(w)
    ensures SkipTrivia(s, p) == SkipTrivia(s, p + |w|)
  {
    var e := p + |w|;
    assert s[p] == '/' && s[p + 1] == '/';
    assert s[e - 1] == w[|w| - 1];
    forall k | p <= k < e - 1 ensures s[k] != '\n' {
      assert s[p + (k - p)] == w[k - p];
    }
    LineCommentTo(s, p, e - 1);
    assert SkipWhitespace(s, p) == p;
    assert CommentEnd(s, p) == e - 1;
    assert SkipTrivia(s, p) == SkipTrivia(s, e - 1);
    WhitespaceOver(s, e - 1, e);
    SameWhitespaceSameTrivia(s, e - 1, e);
  }

  lemma SkipBlockCommentOver(s: Bytes, p: nat, w: Bytes)
    requires HoldsAt(s, p, w) && IsBlockComment(w)
    ensures SkipTrivia(s, p) == SkipTrivia(s, p + |w|)
  {
    var e := p + |w|;
    assert s[p] == '/' && s[p + 1] == '*';
    assert s[e - 2] == w[|w| - 2] && s[e - 1] == w[|w| - 1];
    forall k | p + 2 <= k < e - 2 ensures !ClosesBlock(s, k) {
      assert s[p + (k - p)] == w[k - p] && s[p + (k + 1 - p)] == w[k + 1 - p];
      assert !ClosesBlock(w, k - p);
    }
    BlockBodyTo(s, p + 2, e);
    assert SkipWhitespace(s, p) == p;
    assert CommentEnd(s, p) == e;
  }

  /** The next token depends on the start offset only through where skipping
      trivia lands. */
  lemma NextTokenFromSkip(s: Bytes, x: nat, y: nat)
    requires x <= |s| && y <= |s| && SkipTrivia(s, x) == SkipTrivia(s, y)
    ensures NextToken(s, x) == NextToken(s, y)
  {
    var p := SkipTrivia(s, x);
    if p == |s| {
      EndStep(s, x);
      EndStep(s, y);
    } else if s[p] == '"' {
      StringStep(s, x);
      StringStep(s, y);
    } else if IsIdentStart(s[p]) {
      IdentStep(s, x);
      IdentStep(s, y);
    } else {
      OtherStep(s, x);
      OtherStep(s, y);
    }
  }

  lemma TokenizeFromSameNext(s: Bytes, x: nat, y: nat)
    requires x <= |s| && y <= |s| && NextToken(s, x) == NextToken(s, y)
    ensures TokenizeFrom(s, x) == TokenizeFrom(s, y)
  {
  }

  lemma ShiftTwice(r: Result<seq<Token>, LexError>, a: nat, b: nat)
    ensures ShiftResult(ShiftResult(r, a), b) == ShiftResult(r, a + b)
  {
    if r.Ok? {
      assert ShiftTokens(ShiftTokens(r.value, a), b) == ShiftTokens(r.value, a + b);
    }
  }

  /** Tokenizing from the start of a piece of trivia is tokenizing from its
      end. */
  lemma ResumeAfterTrivia(s: Bytes, p: nat, w: Bytes)
    requires HoldsAt(s, p, w) && IsTrivia(w)
    ensures TokenizeFrom(s, p) == TokenizeFrom(s, p + |w|)
  {
    SkipTriviaOver(s, p, w);
    TokenizeFromSkip(s, p, p + |w|);
  }

  /** Tokenizing depends on the start offset only through where skipping
      trivia lands. */
  lemma TokenizeFromSkip(s: Bytes, x: nat, y: nat)
    requires x <= |s| && y <= |s| && SkipTrivia(s, x) == SkipTrivia(s, y)
    ensures TokenizeFrom(s, x) == TokenizeFrom(s, y)
  {
    NextTokenFromSkip(s, x, y);
    TokenizeFromSameNext(s, x, y);
  }

  /** Where the pieces of `input[..p] + w + input[p..]` sit. */
  lemma InsertionLayout(input: Bytes, p: nat, w: Bytes, s: Bytes)
    requires p <= |input| && s == input[..p] + w + input[p..]
    ensures Agree(input, s, p)
    ensures HoldsAt(s, p, w)
    ensures ShiftedBy(s, input[p..], p + |w|)
    ensures ShiftedBy(input, input[p..], p)
  {
  }

  lemma TriviaStart(w: Bytes)
    requires IsTrivia(w)
    ensures !IsIdentPart(w[0])
  {
  }

  /** Inserting one piece of trivia `w` at an offset `p` where the tokenizer
      resumes, and before the end of input: the tokens before `p` are
      unchanged, and the tokens (or the error) from `p` on are the same with
      offsets moved by |w|. */
  lemma TriviaInsertion(input: Bytes, p: nat, w: Bytes)
    requires Reaches(input, 0, p) && p < |input| && IsTrivia(w)
    ensures var before := TokensBetween(input, 0, p);
      && Tokenize(input) == Prepend(before, TokenizeFrom(input, p))
      && Tokenize(input[..p] + w + input[p..]) == Prepend(before, ShiftResult(TokenizeFrom(input, p), |w|))
  {
    var s := input[..p] + w + input[p..];
    InsertionLayout(input, p, w, s);
    TokenizeSplit(input, 0, p);
    TriviaInsertionAt(input, s, p, w);
  }

  lemma TriviaInsertionAt(input: Bytes, s: Bytes, p: nat, w: Bytes)
    requires Reaches(input, 0, p) && p < |input| && IsTrivia(w)
    requires Agree(input, s, p) && HoldsAt(s, p, w)
    requires ShiftedBy(s, input[p..], p + |w|) && ShiftedBy(input, input[p..], p)
    ensures TokenizeFrom(s, 0) == Prepend(TokensBetween(input, 0, p), ShiftResult(TokenizeFrom(input, p), |w|))
  {
    ReachesInserted(input, s, p, w);
    TailAfterTrivia(input, s, input[p..], p, w);
    InsertedSplit(input, s, p, |w|);
  }

  /** The tokens before the insertion point are read as before. */
  lemma ReachesInserted(input: Bytes, s: Bytes, p: nat, w: Bytes)
    requires Reaches(input, 0, p) && p < |input| && IsTrivia(w)
    requires Agree(input, s, p) && HoldsAt(s, p, w)
    ensures Reaches(s, 0, p) && TokensBetween(s, 0, p) == TokensBetween(input, 0, p)
  {
    TriviaStart(w);
    assert s[p + 0] == w[0];
    ReachesStable(input, s, 0, p);
  }

  /** After the inserted trivia, the old tail `t` is read at its new
      offsets. */
  lemma TailAfterTrivia(input: Bytes, s: Bytes, t: Bytes, p: nat, w: Bytes)
    requires IsTrivia(w) && HoldsAt(s, p, w)
    requires ShiftedBy(s, t, p + |w|) && ShiftedBy(input, t, p)
    ensures TokenizeFrom(s, p) == ShiftResult(TokenizeFrom(input, p), |w|)
  {
    calc {
      TokenizeFrom(s, p);
    == { ResumeAfterTrivia(s, p, w); }
      TokenizeFrom(s, p + |w|);
    == { TailShifted(input, s, t, p, |w|); }
      ShiftResult(TokenizeFrom(input, p), |w|);
    }
  }

  /** The same steps up to `p`, then the shifted tail. */
  lemma InsertedSplit(input: Bytes, s: Bytes, p: nat, d: nat)
    requires p <= |input| && p <= |s|
    requires Reaches(input, 0, p) && Reaches(s, 0, p)
    requires TokensBetween(s, 0, p) == TokensBetween(input, 0, p)
    requires TokenizeFrom(s, p) == ShiftResult(TokenizeFrom(input, p), d)
    ensures TokenizeFrom(s, 0) == Prepend(TokensBetween(input, 0, p), ShiftResult(TokenizeFrom(input, p), d))
  {
    TokenizeSplit(s, 0, p);
  }

  /** The same tail at two offsets `p` and `p + d`. */
  lemma TailShifted(input: Bytes, s: Bytes, t: Bytes, p: nat, d: nat)
    requires ShiftedBy(s, t, p + d) && ShiftedBy(input, t, p)
    ensures TokenizeFrom(s, p + d) == ShiftResult(TokenizeFrom(input, p), d)
  {
    var x := TokenizeFrom(t, 0);
    calc {
      TokenizeFrom(s, p + d);
    == { ShiftAtStart(s, t, p + d); }
      ShiftResult(x, p + d);
    == { ShiftTwice(x, p, d); }
      ShiftResult(ShiftResult(x, p), d);
    == { ShiftAtStart(input, t, p); }
      ShiftResult(TokenizeFrom(input, p), d);
    }
  }

  /** Tokenizing a text from where a copy of `suf` starts. */
  lemma ShiftAtStart(s: Bytes, suf: Bytes, d: nat)
    requires ShiftedBy(s, suf, d)
    ensures TokenizeFrom(s, d) == ShiftResult(TokenizeFrom(suf, 0), d)
  {
    TokenizeFromShift(s, suf, d, 0);
    assert d + 0 == d;
  }

  /** The token kinds and values, without offsets. */
  function Lexemes(ts: seq<Token>): seq<(Kind, Bytes)>
  {
    if ts == [] then [] else [(ts[0].kind, ts[0].value)] + Lexemes(ts[1..])
  }

  lemma {:induction false} LexemesShift(ts: seq<Token>, d: nat)
    ensures Lexemes(ShiftTokens(ts, d)) == Lexemes(ts)
  {
    if ts != [] {
      LexemesShift(ts[1..], d);
      assert ShiftTokens(ts, d)[1..] == ShiftTokens(ts[1..], d);
    }
  }

  lemma {:induction false} LexemesAppend(a: seq<Token>, b: seq<Token>)
    ensures Lexemes(a + b) == Lexemes(a) + Lexemes(b)
  {
    if a == [] {
      assert a + b == b;
    } else {
      assert (a + b)[1..] == a[1..] + b;
      LexemesAppend(a[1..], b);
    }
  }

  /** Inserting trivia between two tokens: tokenizing succeeds exactly when
      it did before, with the same token kinds and values. */
  lemma TriviaInsertionLexemes(input: Bytes, p: nat, w: Bytes)
    requires Reaches(input, 0, p) && p < |input| && IsTrivia(w)
    ensures var s := input[..p] + w + input[p..];
      && (Tokenize(s).Ok? <==> Tokenize(input).Ok?)
      && (Tokenize(s).Ok? ==> Lexemes(Tokenize(s).value) == Lexemes(Tokenize(input).value))
  {
    TriviaInsertion(input, p, w);
    var before := TokensBetween(input, 0, p);
    match TokenizeFrom(input, p)
    case Err(_) =>
    case Ok(rest) =>
      LexemesAppend(before, rest);
      LexemesAppend(before, ShiftTokens(rest, |w|));
      LexemesShift(rest, |w|);
  }
}
