/** The reader's entry point: tokenize, then parse; the first error wins and
    is labelled with the stage it came from. */
module Reader {
  import opened Bytes
  import opened Results
  import opened Schedules
  import opened Lexer
  import opened Values
  import opened Parser

  datatype RonError =
    | Tokenization(lex: LexError)
    | Parsing(parse: ParseError)

  function ParseRon(input: Bytes): (r: Result<Schedule, RonError>)
    ensures Tokenize(input).Err? ==> r == Err(Tokenization(Tokenize(input).error))
    ensures Tokenize(input).Ok? ==>
      var p := Parse(Tokenize(input).value);
      && (p.Ok? ==> r == Ok(p.value))
      && (p.Err? ==> r == Err(Parsing(p.error)))
  {
    match Tokenize(input)
    case Err(e) => Err(Tokenization(e))
    case Ok(toks) =>
      match Parse(toks)
      case Err(e) => Err(Parsing(e))
      case Ok(s) => Ok(s)
  }
}
