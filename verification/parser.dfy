/** The cursor-based recursive-descent parser over the token sequence:
      Value := String | Ident '(' Fields? ')' | '[' Values? ']'
    with one optional trailing comma in both lists. Each record is handed to
    the materializer as soon as its `)` is consumed. A cursor is an index
    into the tokens; reading past the end yields an EOF token at offset 0. */
module Parser {
  import opened Bytes
  import opened Results
  import opened Schedules
  import opened Lexer
  import opened Values
  import opened Materializer

  /** The token under the cursor, or EOF (offset 0) past the end. */
  function Peek(toks: seq<Token>, i: nat): (t: Token)
    ensures i < |toks| ==> t == toks[i]
    ensures i >= |toks| ==> t == Token(EOF, [], 0)
  {
    if i >= |toks| then Token(EOF, [], 0) else toks[i]
  }

  /** Consumes one token, which must be of kind `want`; returns the new
      cursor. */
  function Expect(toks: seq<Token>, i: nat, want: Kind): (r: Result<nat, ParseError>)
    requires want != EOF
    ensures r.Ok? <==> i < |toks| && toks[i].kind == want
    ensures r.Ok? ==> r.value == i + 1
    ensures r.Err? ==> r.error == Expected(want, Peek(toks, i).kind, Peek(toks, i).pos)
  {
    var t := Peek(toks, i);
    if t.kind != want then Err(Expected(want, t.kind, t.pos)) else Ok(i + 1)
  }

  /** A value at cursor `i`, and the cursor just past it. */
  function ParseValue(toks: seq<Token>, i: nat): (r: Result<(Value, nat), ParseError>)
    requires i <= |toks|
    ensures r.Ok? ==> i < r.value.1 <= |toks|
    decreases |toks| - i, 2
  {
    var t := Peek(toks, i);
    if t.kind == Str then Ok((VStr(t.value), i + 1))
    else if t.kind == Ident then
      match Expect(toks, i + 1, LParen)
      case Err(e) => Err(e)
      case Ok(j) =>
        match ParseFields(toks, j)
        case Err(e) => Err(e)
        case Ok((fields, k)) =>
          match Expect(toks, k, RParen)
          case Err(e) => Err(e)
          case Ok(m) =>
            match Materialize(t.value, fields)
            case Err(e) => Err(e)
            case Ok(v) => Ok((v, m))
    else if t.kind == LBrack then ParseArray(toks, i)
    else Err(UnexpectedToken(t.kind, t.pos))
  }

  /** An array: `[`, then nothing or elements, then `]`. */
  function ParseArray(toks: seq<Token>, i: nat): (r: Result<(Value, nat), ParseError>)
    requires i <= |toks|
    ensures r.Ok? ==> i < r.value.1 <= |toks| && r.value.0.VArr?
    decreases |toks| - i, 1
  {
    match Expect(toks, i, LBrack)
    case Err(e) => Err(e)
    case Ok(j) =>
      if Peek(toks, j).kind == RBrack then Ok((VArr([]), j + 1))
      else ParseElements(toks, j, [])
  }

  /** The element loop of an array: `acc` holds the elements read so far;
      ends by consuming the closing `]`. */
  function ParseElements(toks: seq<Token>, i: nat, acc: seq<Value>): (r: Result<(Value, nat), ParseError>)
    requires i <= |toks|
    ensures r.Ok? ==> i < r.value.1 <= |toks| && r.value.0.VArr? && |r.value.0.elems| > |acc|
    ensures r.Ok? ==> r.value.0.elems[..|acc|] == acc
    decreases |toks| - i, 3
  {
    match ParseValue(toks, i)
    case Err(e) => Err(e)
    case Ok((v, k)) =>
      var elems := acc + [v];
      var t := Peek(toks, k);
      if t.kind == Comma && Peek(toks, k + 1).kind == RBrack then
        CloseArray(toks, k + 1, elems)
      else if t.kind == Comma then
        ParseElements(toks, k + 1, elems)
      else if t.kind == RBrack then
        CloseArray(toks, k, elems)
      else Err(ExpectedSeparator(RBrack, t.kind, t.pos))
  }

  /** The final `expect(']')` of an array. */
  function CloseArray(toks: seq<Token>, i: nat, elems: seq<Value>): (r: Result<(Value, nat), ParseError>)
    requires i <= |toks|
    ensures r.Ok? <==> i < |toks| && toks[i].kind == RBrack
    ensures r.Ok? ==> r.value == (VArr(elems), i + 1)
  {
    match Expect(toks, i, RBrack)
    case Err(e) => Err(e)
    case Ok(j) => Ok((VArr(elems), j))
  }

  /** The fields of a record, after its `(`: nothing, or a field list. The
      closing `)` is left for the caller. */
  function ParseFields(toks: seq<Token>, i: nat): (r: Result<(Fields, nat), ParseError>)
    requires i <= |toks|
    ensures r.Ok? ==> i <= r.value.1 <= |toks| && Peek(toks, r.value.1).kind == RParen
    decreases |toks| - i, 4
  {
    if Peek(toks, i).kind == RParen then Ok((map[], i))
    else ParseFieldList(toks, i, map[])
  }

  /** The field loop of a record: `acc` holds the fields read so far, and a
      repeated name overwrites the earlier value. */
  function ParseFieldList(toks: seq<Token>, i: nat, acc: Fields): (r: Result<(Fields, nat), ParseError>)
    requires i <= |toks|
    ensures r.Ok? ==> i < r.value.1 <= |toks| && Peek(toks, r.value.1).kind == RParen
    ensures r.Ok? ==> acc.Keys <= r.value.0.Keys
    decreases |toks| - i, 3
  {
    var t := Peek(toks, i);
    if t.kind != Ident then Err(ExpectedFieldName(t.kind, t.pos))
    else
      match Expect(toks, i + 1, Colon)
      case Err(e) => Err(e)
      case Ok(j) =>
        match ParseValue(toks, j)
        case Err(e) => Err(e)
        case Ok((v, k)) =>
          var fields := acc[t.value := v];
          var u := Peek(toks, k);
          if u.kind == Comma && Peek(toks, k + 1).kind == RParen then Ok((fields, k + 1))
          else if u.kind == Comma then ParseFieldList(toks, k + 1, fields)
          else if u.kind == RParen then Ok((fields, k))
          else Err(ExpectedSeparator(RParen, u.kind, u.pos))
  }

  /** The parser's entry point: one value, which must be a Schedule. Tokens
      after it are not looked at. */
  function Parse(toks: seq<Token>): (r: Result<Schedule, ParseError>)
    ensures r.Ok? <==> ParseValue(toks, 0).Ok? && ParseValue(toks, 0).value.0.VSchedule?
    ensures r.Ok? ==> r.value == ParseValue(toks, 0).value.0.schedule
    ensures ParseValue(toks, 0).Err? ==> r == Err(ParseValue(toks, 0).error)
    ensures ParseValue(toks, 0).Ok? && !ParseValue(toks, 0).value.0.VSchedule? ==>
      r == Err(RootNotSchedule(TagOf(ParseValue(toks, 0).value.0)))
  {
    match ParseValue(toks, 0)
    case Err(e) => Err(e)
    case Ok((v, _)) =>
      if v.VSchedule? then Ok(v.schedule) else Err(RootNotSchedule(TagOf(v)))
  }
}
