/** From the text of an expression to its tree and the names it refers to. */
module FormulaReader {
  import opened FormulaSyntax
  import opened FormulaLexer
  import opened FormulaParser
  import opened FormulaRoundTrip
  import opened Results
  import opened Strings

  datatype ReadError = Unreadable(lexical: LexError) | Ungrammatical(syntax: ParseError)

  type Reading = Result<Node, ReadError>

  /** The tree of an expression: trimmed, split into tokens and parsed. */
  function ReadFormula(expression: string): Reading
  {
    if TrimSpace(expression) == "" then Failure(Unreadable(EmptyExpression))
    else
      var tokens := Lex(TrimSpace(expression));
      if tokens.Failure? then Failure(Unreadable(tokens.error))
      else
        match ParseFormula(tokens.value)
        case Tree(root) => Success(root)
        case SyntaxError(e) => Failure(Ungrammatical(e))
  }

  /** Reads an expression; on success also returns the referenced names in expression order. */
  method ReadExpression(expression: string) returns (r: Reading, refs: seq<string>)
    ensures r == ReadFormula(expression)
    ensures r.Success? ==> refs == References(r.value)
  {
    hide TrimSpace, ParseFormula;
    refs := [];
    var tokens: Lexed := Tokenize(expression);
    if tokens.Failure? {
      return Failure(Unreadable(tokens.error)), refs;
    }
    assert EndOfInput !in tokens.value;
    var node: NodeResult;
    node, refs := ParseTypedFormula(tokens.value);
    r := match node case Success(root) => Success(root) case Failure(e) => Failure(Ungrammatical(e));
  }

  /** What is read has non-negative literals, identifiers as names and lower-case functions. */
  lemma ReadIsLexical(expression: string)
    requires ReadFormula(expression).Success?
    ensures Lexical(ReadFormula(expression).value)
  {
    hide TrimSpace, Lexical, IsLexical, Parse;
    var tokens := Lex(TrimSpace(expression)).value;
    assert LexicalTokens(tokens);
    ParsedIsLexical(1, tokens);
  }
}
