/** The canonical text itself: what the printer writes, and that it is read back. */
module FormulaText {
  import opened FormulaSyntax
  import opened FormulaLexer
  import opened FormulaLiterals
  import opened FormulaReader
  import opened FormulaRoundTrip
  import opened FormulaTyping
  import opened FormulaCanonical
  import opened Results
  import opened Strings

  function OpText(op: BinaryOp): string
  {
    match op
    case Or => "OR" case And => "AND"
    case Gt => ">" case Ge => ">=" case Lt => "<" case Le => "<=" case Eq => "=" case Ne => "!="
    case Add => "+" case Sub => "-" case Mul => "*" case Div => "/"
  }

  /** How a literal is written is left to `format`. */
  function Text(n: Node, parent: nat, format: real -> string): string
    decreases n, 1
  {
    if Precedence(n) < parent then "(" + BareText(n, format) + ")" else BareText(n, format)
  }

  function BareText(n: Node, format: real -> string): string
    decreases n, 0
  {
    match n
    case Num(v) => format(v)
    case Ref(name) => name
    case Unary(Not, v) => "NOT" + (" " + Text(v, 7, format))
    case Unary(Plus, v) => "+" + Text(v, 7, format)
    case Unary(Minus, v) => "-" + Text(v, 7, format)
    case Binary(op, l, r) =>
      Text(l, Level(op), format) + (" " + (OpText(op) + (" " + Text(r, RightPrecedence(op), format))))
    case Call(fn, args) => fn + ("(" + (ArgsText(args, format) + ")"))
  }

  function ArgsText(args: seq<Node>, format: real -> string): string
    decreases args, 0
  {
    if args == [] then ""
    else if |args| == 1 then Text(args[0], 0, format)
    else Text(args[0], 0, format) + ("," + (" " + ArgsText(args[1..], format)))
  }

  /** The format writes a literal as digits that read back as the same number. */
  predicate Writes(format: real -> string, v: real)
  {
    && format(v) != "" && (forall i :: 0 <= i < |format(v)| ==> IsNumberPart(format(v)[i]))
    && ReadNumber(format(v)) == Some(v)
  }

  predicate WritesAll(format: real -> string, n: Node)
  {
    match n
    case Num(v) => Writes(format, v)
    case Ref(_) => true
    case Unary(_, v) => WritesAll(format, v)
    case Binary(_, l, r) => WritesAll(format, l) && WritesAll(format, r)
    case Call(_, args) => forall i :: 0 <= i < |args| ==> WritesAll(format, args[i])
  }

  // ----- one lexeme -----

  /** The text cannot continue an identifier or a number. */
  predicate Stops(rest: string)
  {
    rest != "" ==> !IsIdentifierPart(rest[0]) && !IsNumberPart(rest[0])
  }

  lemma LexFirst(s: string, tokens: seq<Token>, rest: string)
    requires s != "" && First(s + rest) == Success((tokens, |s|))
    ensures Lex(s + rest) == Behind(tokens, Lex(rest))
  {
    assert (s + rest)[|s|..] == rest;
  }

  lemma {:induction false} SpanIsAll(s: string, rest: string, number: bool)
    requires Stops(rest)
    requires forall i :: 0 <= i < |s| ==> if number then IsNumberPart(s[i]) else IsIdentifierPart(s[i])
    ensures (if number then NumberSpan(s + rest) else IdentifierSpan(s + rest)) == |s|
  {
    if s == "" {
      assert s + rest == rest;
    } else {
      SpanIsAll(s[1..], rest, number);
      assert (s + rest)[1..] == s[1..] + rest;
    }
  }

  lemma LexName(name: string, rest: string)
    requires IsName(name) && Stops(rest)
    ensures Lex(name + rest) == Behind([Identifier(name)], Lex(rest))
  {
    hide WordToken;
    SpanIsAll(name, rest, false);
    assert (name + rest)[..|name|] == name && (name + rest)[0] == name[0];
    LexFirst(name, [Identifier(name)], rest);
  }

  lemma LexNumber(text: string, v: real, rest: string)
    requires text != "" && (forall i :: 0 <= i < |text| ==> IsNumberPart(text[i])) && ReadNumber(text) == Some(v)
    requires Stops(rest)
    ensures Lex(text + rest) == Behind([Literal(v)], Lex(rest))
  {
    hide ReadNumber;
    SpanIsAll(text, rest, true);
    assert (text + rest)[..|text|] == text && (text + rest)[0] == text[0];
    LexFirst(text, [Literal(v)], rest);
  }

  lemma LexBlank(rest: string)
    ensures Lex(" " + rest) == Lex(rest)
  {
    LexFirst(" ", [], rest);
    if Lex(rest).Success? { assert [] + Lex(rest).value == Lex(rest).value; }
  }

  predicate IsPlainChar(c: char) { c == '+' || c == '-' || c == '(' || c == ')' || c == ',' }

  lemma LexChar(c: char, rest: string)
    requires IsPlainChar(c)
    ensures CharToken(c).Success? && Lex([c] + rest) == Behind([CharToken(c).value], Lex(rest))
  {
    LexFirst([c], [CharToken(c).value], rest);
  }

  lemma LexOperator(op: BinaryOp, rest: string)
    requires rest != "" && rest[0] == ' '
    ensures Lex(OpText(op) + rest) == Behind([Operator(op)], Lex(rest))
  {
    var text := OpText(op);
    if op == Or || op == And {
      SpanIsAll(text, rest, false);
      assert (text + rest)[..|text|] == text;
    } else {
      assert (text + rest)[0] == text[0];
      if |text| == 1 { assert (text + rest)[1] == ' '; } else { assert (text + rest)[1] == text[1]; }
    }
    LexFirst(text, [Operator(op)], rest);
  }

  lemma LexNot(rest: string)
    requires Stops(rest)
    ensures Lex("NOT" + rest) == Behind([NotToken], Lex(rest))
  {
    SpanIsAll("NOT", rest, false);
    assert ("NOT" + rest)[..3] == "NOT";
    LexFirst("NOT", [NotToken], rest);
  }

  lemma BehindBoth(a: seq<Token>, b: seq<Token>, x: Lexed)
    ensures Behind(a, Behind(b, x)) == Behind(a + b, x)
  {
    if x.Success? { assert a + (b + x.value) == a + b + x.value; }
  }

  lemma BehindNothing(x: Lexed)
    ensures Behind([], x) == x
  {
    if x.Success? { assert [] + x.value == x.value; }
  }

  // ----- the whole text -----

  /** The printed text is split into exactly the printed tokens. */
  lemma {:induction false} TextLexes(n: Node, parent: nat, format: real -> string, rest: string)
    requires Lexical(n) && WritesAll(format, n) && Stops(rest)
    ensures Lex(Text(n, parent, format) + rest) == Behind(Print(n, parent), Lex(rest))
    decreases n, 2
  {
    hide Lex, Behind, BareText, PrintBare;
    if Precedence(n) < parent {
      var bare, tail := BareText(n, format), ")" + rest;
      BareTextLexes(n, format, tail);
      LexChar('(', bare + tail);
      LexChar(')', rest);
      assert Text(n, parent, format) + rest == "(" + (bare + tail);
      BehindBoth(PrintBare(n), [RightParen], Lex(rest));
      BehindBoth([LeftParen], PrintBare(n) + [RightParen], Lex(rest));
      assert Print(n, parent) == [LeftParen] + (PrintBare(n) + [RightParen]);
    } else {
      BareTextLexes(n, format, rest);
    }
  }

  lemma {:induction false} BareTextLexes(n: Node, format: real -> string, rest: string)
    requires Lexical(n) && WritesAll(format, n) && Stops(rest)
    ensures Lex(BareText(n, format) + rest) == Behind(PrintBare(n), Lex(rest))
    decreases n, 1
  {
    hide Lex, Behind, Text, Print, ReadNumber, IsName;
    match n
    case Num(v) => LexNumber(format(v), v, rest);
    case Ref(name) => LexName(name, rest);
    case Unary(op, v) => UnaryTextLexes(op, v, format, rest);
    case Binary(op, l, r) => BinaryTextLexes(op, l, r, format, rest);
    case Call(fn, args) => CallTextLexes(fn, args, format, rest);
  }

  lemma {:induction false} UnaryTextLexes(op: UnaryOp, v: Node, format: real -> string, rest: string)
    requires Lexical(v) && WritesAll(format, v) && Stops(rest)
    ensures Lex(BareText(Unary(op, v), format) + rest) == Behind(PrintBare(Unary(op, v)), Lex(rest))
    decreases v, 3
  {
    hide Lex, Behind, Text, Print;
    var operand, tokens := Text(v, 7, format), Print(v, 7);
    TextLexes(v, 7, format, rest);
    match op
    case Not =>
      assert BareText(Unary(op, v), format) + rest == "NOT" + (" " + (operand + rest));
      LexNot(" " + (operand + rest));
      LexBlank(operand + rest);
      BehindBoth([NotToken], tokens, Lex(rest));
    case Plus =>
      assert BareText(Unary(op, v), format) + rest == "+" + (operand + rest);
      LexChar('+', operand + rest);
      BehindBoth([Operator(Add)], tokens, Lex(rest));
    case Minus =>
      assert BareText(Unary(op, v), format) + rest == "-" + (operand + rest);
      LexChar('-', operand + rest);
      BehindBoth([Operator(Sub)], tokens, Lex(rest));
  }

  lemma {:induction false} BinaryTextLexes(op: BinaryOp, l: Node, r: Node, format: real -> string, rest: string)
    requires Lexical(l) && WritesAll(format, l) && Lexical(r) && WritesAll(format, r) && Stops(rest)
    ensures Lex(BareText(Binary(op, l, r), format) + rest) == Behind(PrintBare(Binary(op, l, r)), Lex(rest))
    decreases Binary(op, l, r), 0
  {
    hide Lex, Behind, Text, Print, OpText;
    var left, right := Text(l, Level(op), format), Text(r, RightPrecedence(op), format);
    var lt, rt := Print(l, Level(op)), Print(r, RightPrecedence(op));
    var afterOp := " " + (right + rest);
    var afterLeft := " " + (OpText(op) + afterOp);
    assert BareText(Binary(op, l, r), format) + rest == left + afterLeft;
    TextLexes(l, Level(op), format, afterLeft);
    LexBlank(OpText(op) + afterOp);
    LexOperator(op, afterOp);
    LexBlank(right + rest);
    TextLexes(r, RightPrecedence(op), format, rest);
    BehindBoth([Operator(op)], rt, Lex(rest));
    BehindBoth(lt, [Operator(op)] + rt, Lex(rest));
    assert lt + ([Operator(op)] + rt) == PrintBare(Binary(op, l, r));
  }

  lemma {:induction false} CallTextLexes(fn: string, args: seq<Node>, format: real -> string, rest: string)
    requires IsName(fn) && (forall i :: 0 <= i < |args| ==> Lexical(args[i]) && WritesAll(format, args[i])) && Stops(rest)
    ensures Lex(BareText(Call(fn, args), format) + rest) == Behind(PrintBare(Call(fn, args)), Lex(rest))
    decreases args, 1
  {
    hide Lex, Behind, ArgsText, PrintArgs, IsName;
    var list, tail := ArgsText(args, format), ")" + rest;
    assert BareText(Call(fn, args), format) + rest == fn + ("(" + (list + tail));
    LexName(fn, "(" + (list + tail));
    LexChar('(', list + tail);
    ArgsTextLexes(args, format, tail);
    LexChar(')', rest);
    BehindBoth(PrintArgs(args), [RightParen], Lex(rest));
    BehindBoth([LeftParen], PrintArgs(args) + [RightParen], Lex(rest));
    BehindBoth([Identifier(fn)], [LeftParen] + (PrintArgs(args) + [RightParen]), Lex(rest));
    assert PrintBare(Call(fn, args)) == [Identifier(fn)] + ([LeftParen] + (PrintArgs(args) + [RightParen]));
  }

  lemma {:induction false} ArgsTextLexes(args: seq<Node>, format: real -> string, rest: string)
    requires (forall i :: 0 <= i < |args| ==> Lexical(args[i]) && WritesAll(format, args[i])) && Stops(rest)
    ensures Lex(ArgsText(args, format) + rest) == Behind(PrintArgs(args), Lex(rest))
    decreases args, 0
  {
    hide Lex, Behind, Text, Print, Lexical, WritesAll;
    if args == [] {
      assert "" + rest == rest;
      BehindNothing(Lex(rest));
    } else if |args| == 1 {
      TextLexes(args[0], 0, format, rest);
    } else {
      var first, others := Text(args[0], 0, format), ArgsText(args[1..], format);
      var tail := "," + (" " + (others + rest));
      assert ArgsText(args, format) + rest == first + tail;
      TextLexes(args[0], 0, format, tail);
      LexChar(',', " " + (others + rest));
      LexBlank(others + rest);
      ArgsTextLexes(args[1..], format, rest);
      BehindBoth([Comma], PrintArgs(args[1..]), Lex(rest));
      BehindBoth(Print(args[0], 0), [Comma] + PrintArgs(args[1..]), Lex(rest));
      assert Print(args[0], 0) + ([Comma] + PrintArgs(args[1..])) == PrintArgs(args);
    }
  }

  // ----- no white space at either end -----

  predicate Bounded(s: string)
  {
    s != "" && !IsSpace(s[0]) && !IsSpace(s[|s| - 1])
  }

  lemma BoundedEnds(a: string, middle: string, b: string)
    requires Bounded(a) && Bounded(b)
    ensures Bounded(a + middle + b)
  {
    var s := a + middle + b;
    assert s[0] == a[0] && s[|s| - 1] == b[|b| - 1];
  }

  lemma NameIsBounded(name: string)
    requires IsName(name)
    ensures Bounded(name)
  {
    hide WordToken;
    assert IsIdentifierPart(name[0]) && IsIdentifierPart(name[|name| - 1]);
  }

  lemma NumberIsBounded(s: string)
    requires s != "" && forall i :: 0 <= i < |s| ==> IsNumberPart(s[i])
    ensures Bounded(s)
  {
    assert IsNumberPart(s[0]) && IsNumberPart(s[|s| - 1]);
  }

  lemma {:induction false} TextIsBounded(n: Node, parent: nat, format: real -> string)
    requires Lexical(n) && WritesAll(format, n)
    ensures Bounded(Text(n, parent, format))
    decreases n, 1
  {
    hide BareText, Lexical, WritesAll;
    BareTextIsBounded(n, format);
    if Precedence(n) < parent {
      assert Bounded("(") && Bounded(")");
      BoundedEnds("(", BareText(n, format), ")");
    }
  }

  lemma {:induction false} BareTextIsBounded(n: Node, format: real -> string)
    requires Lexical(n) && WritesAll(format, n)
    ensures Bounded(BareText(n, format))
    decreases n, 0
  {
    hide Bounded, OpText, ReadNumber, IsName, Text, ArgsText;
    match n
    case Num(v) => NumberIsBounded(format(v));
    case Ref(name) => NameIsBounded(name);
    case Unary(_, v) =>
      TextIsBounded(v, 7, format);
      SignedIsBounded(Text(v, 7, format));
    case Binary(op, l, r) =>
      TextIsBounded(l, Level(op), format);
      TextIsBounded(r, RightPrecedence(op), format);
      InfixIsBounded(Text(l, Level(op), format), OpText(op), Text(r, RightPrecedence(op), format));
    case Call(fn, args) =>
      NameIsBounded(fn);
      CallIsBounded(fn, ArgsText(args, format));
  }

  lemma SignedIsBounded(operand: string)
    requires Bounded(operand)
    ensures Bounded("NOT" + (" " + operand)) && Bounded("+" + operand) && Bounded("-" + operand)
  {
  }

  lemma InfixIsBounded(left: string, op: string, right: string)
    requires Bounded(left) && Bounded(right)
    ensures Bounded(left + (" " + (op + (" " + right))))
  {
  }

  lemma CallIsBounded(fn: string, list: string)
    requires Bounded(fn)
    ensures Bounded(fn + ("(" + (list + ")")))
  {
  }

  // ----- the text is a fixed point -----

  lemma {:induction false} TextAttach(left: Node, op: BinaryOp, r: Node, format: real -> string)
    ensures BareText(Attach(left, op, r), format) ==
            Text(left, Level(op), format) + (" " + (OpText(op) + (" " + Text(r, RightPrecedence(op), format))))
    ensures Precedence(Attach(left, op, r)) == Level(op)
    decreases r, 2
  {
    hide OpText;
    if !RaisesRight(op) && r.Binary? && Level(r.op) == Level(op) {
      TextAttach(left, op, r.left, format);
      TextAttach(Attach(left, op, r.left), r.op, r.right, format);
      var a, b, c := Text(left, Level(op), format), Text(r.left, Level(op), format), Text(r.right, RightPrecedence(r.op), format);
      SpliceText(a, OpText(op), b, OpText(r.op), c);
    } else {
      TextReassociated(r, RightPrecedence(op), format);
    }
  }

  lemma SpliceText(a: string, o: string, b: string, p: string, c: string)
    ensures a + (" " + (o + (" " + b))) + (" " + (p + (" " + c))) == a + (" " + (o + (" " + (b + (" " + (p + (" " + c)))))))
  {
  }

  lemma {:induction false} TextReassociated(n: Node, parent: nat, format: real -> string)
    ensures Text(Reassociate(n), parent, format) == Text(n, parent, format)
    decreases n, 1
  {
    hide OpText;
    PrintReassociated(n, parent);
    match n
    case Num(_) =>
    case Ref(_) =>
    case Unary(_, v) => TextReassociated(v, 7, format);
    case Binary(op, l, r) =>
      TextAttach(Reassociate(l), op, r, format);
      TextReassociated(l, Level(op), format);
    case Call(_, args) => ArgsTextReassociated(args, format);
  }

  lemma {:induction false} ArgsTextReassociated(args: seq<Node>, format: real -> string)
    ensures ArgsText(ReassociateAll(args), format) == ArgsText(args, format)
    decreases args, 0
  {
    hide Text;
    if args != [] {
      TextReassociated(args[0], 0, format);
      ArgsTextReassociated(args[1..], format);
      assert ReassociateAll(args)[1..] == ReassociateAll(args[1..]);
    }
  }

  // ----- main result -----

  /** The canonical text of an accepted expression is accepted again: it is read as the
      reassociated tree, and that tree has the same canonical text. */
  lemma CanonicalTextRoundTrip(expression: string, env: Environment, format: real -> string)
    requires ReadFormula(expression).Success? && Infer(ReadFormula(expression).value, env).Success?
    requires WritesAll(format, ReadFormula(expression).value)
    ensures var n := ReadFormula(expression).value;
            && ReadFormula(Text(n, 0, format)) == Success(Reassociate(n))
            && Text(Reassociate(n), 0, format) == Text(n, 0, format)
  {
    var n := ReadFormula(expression).value;
    ReadIsLexical(expression);
    TypedIsPrintable(n, env);
    TextIsRead(n, format);
    TextReassociated(n, 0, format);
  }

  lemma TextIsRead(n: Node, format: real -> string)
    requires Lexical(n) && Printable(n) && WritesAll(format, n)
    ensures ReadFormula(Text(n, 0, format)) == Success(Reassociate(n))
  {
    assert Lex("") == Success([]);
    hide TrimSpace, Lex, ParseFormula;
    var text := Text(n, 0, format);
    CanonicalRoundTrip(n);
    TextIsBounded(n, 0, format);
    TrimmedIsUnchanged(text);
    TextLexes(n, 0, format, "");
    assert text + "" == text;
    assert Canonical(n) + [] == Canonical(n);
  }

  /** Two accepted expressions have the same canonical text exactly when they have the same
      canonical tokens, so comparing texts compares reassociated trees. */
  lemma CanonicalTextDecides(a: Node, b: Node, format: real -> string)
    requires Lexical(a) && Printable(a) && WritesAll(format, a)
    requires Lexical(b) && Printable(b) && WritesAll(format, b)
    ensures Text(a, 0, format) == Text(b, 0, format) <==> Canonical(a) == Canonical(b)
  {
    hide TrimSpace, Lex, ParseFormula, Text, Print;
    TextIsRead(a, format);
    TextIsRead(b, format);
    CanonicalDecides(a, b);
    TextReassociated(a, 0, format);
    TextReassociated(b, 0, format);
  }

  lemma {:induction false} LiteralsAreWritten(n: Node)
    requires Lexical(n)
    ensures WritesAll(FormatLiteral, n)
  {
    match n
    case Num(v) => LiteralReadsBack(v);
    case Ref(_) =>
    case Unary(_, v) => LiteralsAreWritten(v);
    case Binary(_, l, r) =>
      LiteralsAreWritten(l);
      LiteralsAreWritten(r);
    case Call(_, args) =>
      forall i | 0 <= i < |args| ensures WritesAll(FormatLiteral, args[i]) {
        LiteralsAreWritten(args[i]);
      }
  }

  /** With literals in decimal notation the round trip holds of every accepted expression. */
  lemma DecimalTextRoundTrip(expression: string, env: Environment)
    requires ReadFormula(expression).Success? && Infer(ReadFormula(expression).value, env).Success?
    ensures var n := ReadFormula(expression).value;
            && ReadFormula(Text(n, 0, FormatLiteral)) == Success(Reassociate(n))
            && Text(Reassociate(n), 0, FormatLiteral) == Text(n, 0, FormatLiteral)
  {
    ReadIsLexical(expression);
    LiteralsAreWritten(ReadFormula(expression).value);
    CanonicalTextRoundTrip(expression, env, FormatLiteral);
  }
}
