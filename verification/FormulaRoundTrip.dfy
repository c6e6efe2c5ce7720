/** The canonical printer and the grammar agree: reading a canonical print back yields
    the tree in which every chain of equal precedence leans left. */
module FormulaRoundTrip {
  import opened FormulaSyntax
  import opened FormulaLexer

  /** The tree read back for "L op r" when `r` is printed as the right operand of `op`:
      an unparenthesised right operand of the same level is spliced into the chain. */
  function Attach(left: Node, op: BinaryOp, r: Node): Node
    decreases r, 2
  {
    if !RaisesRight(op) && r.Binary? && Level(r.op) == Level(op) then
      Attach(Attach(left, op, r.left), r.op, r.right)
    else Binary(op, left, Reassociate(r))
  }

  function Reassociate(n: Node): Node
    decreases n, 1
  {
    match n
    case Num(_) => n
    case Ref(_) => n
    case Unary(uop, v) => Unary(uop, Reassociate(v))
    case Binary(op, l, r) => Attach(Reassociate(l), op, r)
    case Call(fn, args) => Call(fn, ReassociateAll(args))
  }

  function ReassociateAll(ns: seq<Node>): (rs: seq<Node>)
    ensures |rs| == |ns|
    decreases ns, 0
  {
    if ns == [] then [] else [Reassociate(ns[0])] + ReassociateAll(ns[1..])
  }

  predicate IsNegation(n: Node) { n.Unary? && n.uop == Not }

  /** Trees the printer can render unambiguously: no negative literal, lower-case function
      names, no NOT under an arithmetic or comparison operator, and no comparison as the
      left operand of a comparison. */
  predicate Printable(n: Node)
  {
    match n
    case Num(v) => v >= 0.0
    case Ref(_) => true
    case Unary(uop, v) => Printable(v) && (uop == Not || !IsNegation(v))
    case Binary(op, l, r) =>
      && Printable(l) && Printable(r)
      && (Level(op) >= 4 ==> !IsNegation(l) && !IsNegation(r))
      && (Level(op) == 4 ==> !(l.Binary? && Level(l.op) == 4))
    case Call(fn, args) => ToLower(fn) == fn && forall i :: 0 <= i < |args| ==> Printable(args[i])
  }

  /** Grammar level at which the text printed for `n` under `parent` is a phrase. */
  function PhraseLevel(n: Node, parent: nat): (level: nat)
    ensures 1 <= level <= 8
  {
    if Precedence(n) < parent then 8 else if IsNegation(n) then 3 else Precedence(n)
  }

  /** The highest grammar level that would keep reading at this token. */
  function FollowLevel(ts: seq<Token>): nat
  {
    match Peek(ts)
    case Operator(op) => Level(op)
    case RightParen => 0
    case Comma => 0
    case EndOfInput => 0
    case _ => 9
  }

  lemma {:induction false} FirstToken(n: Node, parent: nat, rest: seq<Token>)
    requires Printable(n)
    ensures Print(n, parent) != []
    ensures PhraseLevel(n, parent) > 3 ==> !Peek(Print(n, parent) + rest).NotToken?
    ensures PhraseLevel(n, parent) == 8 ==> !IsSign(Peek(Print(n, parent) + rest))
    ensures !Peek(Print(n, parent) + rest).RightParen?
  {
    if Precedence(n) >= parent && n.Binary? {
      var tail := [Operator(n.op)] + Print(n.right, RightPrecedence(n.op)) + rest;
      FirstToken(n.left, Level(n.op), tail);
      assert Print(n, parent) + rest == Print(n.left, Level(n.op)) + tail;
    }
  }

  /** Main lemma: a printed phrase is read back as its reassociated tree, after which the
      same level keeps reading whatever follows. */
  lemma {:induction false} ParsePrinted(n: Node, parent: nat, level: nat, rest: seq<Token>)
    requires Printable(n)
    requires 1 <= level <= PhraseLevel(n, parent)
    requires FollowLevel(rest) <= level
    requires PhraseLevel(n, parent) == 4 ==> FollowLevel(rest) != 4
    ensures Parse(level, Print(n, parent) + rest) ==
            if level in {1, 2, 4, 5, 6} then Continue(level, Reassociate(n), rest) else Read(Reassociate(n), rest)
    decreases n, if Precedence(n) < parent then 1 else 0, 12 - level
  {
    hide Parse, Continue;
    if level < PhraseLevel(n, parent) {
      FirstToken(n, parent, rest);
      ParsePrinted(n, parent, level + 1, rest);
      ParseBelow(level, Print(n, parent) + rest, Reassociate(n), rest);
    } else {
      ParsePrintedPhrase(n, parent, rest);
    }
  }

  /** What a level reads, given what the level above it reads. */
  predicate Reads(level: nat, ts: seq<Token>, n: Node, rest: seq<Token>)
    requires 1 <= level <= 8
  {
    Parse(level, ts) == if level in {1, 2, 4, 5, 6} then Continue(level, n, rest) else Read(n, rest)
  }

  lemma ParseBelow(level: nat, ts: seq<Token>, n: Node, rest: seq<Token>)
    requires 1 <= level < 8 && Reads(level + 1, ts, n, rest)
    requires FollowLevel(rest) <= level
    requires level == 3 ==> !Peek(ts).NotToken? && FollowLevel(rest) != 4
    requires level == 7 ==> !IsSign(Peek(ts))
    ensures Reads(level, ts, n, rest)
  {
  }

  /** The phrase at its own level. */
  lemma {:induction false} ParsePrintedPhrase(n: Node, parent: nat, rest: seq<Token>)
    requires Printable(n)
    requires FollowLevel(rest) <= PhraseLevel(n, parent)
    requires PhraseLevel(n, parent) == 4 ==> FollowLevel(rest) != 4
    ensures Reads(PhraseLevel(n, parent), Print(n, parent) + rest, Reassociate(n), rest)
    decreases n, if Precedence(n) < parent then 1 else 0, 3
  {
    hide Parse, Continue, PrintBare;
    if Precedence(n) < parent {
      ParsePrinted(n, 0, 1, [RightParen] + rest);
      assert Print(n, parent) + rest == [LeftParen] + (Print(n, 0) + ([RightParen] + rest));
      ParseParenthesised(Print(n, 0) + ([RightParen] + rest), Reassociate(n), rest);
    } else if n.Unary? {
      ParsePrinted(n.operand, 7, if n.uop == Not then 3 else 7, rest);
      ParseUnary(n.uop, Print(n.operand, 7) + rest, Reassociate(n.operand), rest);
      PrintUnary(n.uop, n.operand, rest);
    } else if n.Binary? {
      ParsePrintedBinary(n, rest);
    } else {
      ParsePrintedLeaf(n, rest);
    }
  }

  lemma {:induction false} ParsePrintedLeaf(n: Node, rest: seq<Token>)
    requires Printable(n) && !n.Unary? && !n.Binary? && FollowLevel(rest) <= 8
    ensures Reads(8, PrintBare(n) + rest, Reassociate(n), rest)
    decreases n, 0, 1
  {
    ParsePrimaryIsLast(PrintBare(n) + rest);
    hide Parse;
    if n.Call? {
      ParsePrintedCall(n, rest);
    }
  }

  lemma ParsePrimaryIsLast(ts: seq<Token>)
    ensures Parse(8, ts) == ParsePrimary(ts)
  {
  }

  lemma ParseParenthesised(inner: seq<Token>, n: Node, rest: seq<Token>)
    requires Reads(1, inner, n, [RightParen] + rest)
    ensures Reads(8, [LeftParen] + inner, n, rest)
  {
    assert ([LeftParen] + inner)[1..] == inner && ([RightParen] + rest)[1..] == rest;
  }

  function UnaryToken(op: UnaryOp): Token
  {
    match op case Not => NotToken case Plus => Operator(Add) case Minus => Operator(Sub)
  }

  lemma PrintUnary(op: UnaryOp, v: Node, rest: seq<Token>)
    ensures PrintBare(Unary(op, v)) + rest == [UnaryToken(op)] + (Print(v, 7) + rest)
  {
    hide Print;
  }

  lemma ParseUnary(op: UnaryOp, text: seq<Token>, n: Node, rest: seq<Token>)
    requires Parse(if op == Not then 3 else 7, text) == Read(n, rest)
    ensures Parse(if op == Not then 3 else 7, [UnaryToken(op)] + text) == Read(Unary(op, n), rest)
  {
    assert ([UnaryToken(op)] + text)[1..] == text;
  }

  lemma {:induction false} ParsePrintedBinary(n: Node, rest: seq<Token>)
    requires n.Binary? && Printable(n)
    requires FollowLevel(rest) <= Level(n.op)
    requires Level(n.op) == 4 ==> FollowLevel(rest) != 4
    ensures Parse(Level(n.op), PrintBare(n) + rest) == Continue(Level(n.op), Reassociate(n), rest)
    decreases n, 0, 0
  {
    var level, r := Level(n.op), Print(n.right, RightPrecedence(n.op)) + rest;
    var afterLeft := [Operator(n.op)] + r;
    assert PrintBare(n) + rest == Print(n.left, level) + afterLeft;
    if level == 4 {
      ParsePrinted(n.left, 4, 5, afterLeft);
      assert afterLeft[1..] == r;
      ParsePrinted(n.right, 5, 5, rest);
    } else {
      ParsePrinted(n.left, level, level, afterLeft);
      ContinuePrinted(Reassociate(n.left), n.op, n.right, rest);
      assert afterLeft == [Operator(n.op)] + Print(n.right, RightPrecedence(n.op)) + rest;
    }
  }

  lemma {:induction false} ParsePrintedCall(n: Node, rest: seq<Token>)
    requires n.Call? && Printable(n)
    ensures ParsePrimary(PrintBare(n) + rest) == Read(Reassociate(n), rest)
    decreases n, 0, 0
  {
    var ts, tail := PrintBare(n) + rest, [RightParen] + rest;
    assert ts == [Identifier(n.fn), LeftParen] + (PrintArgs(n.args) + tail);
    assert ts[2..] == PrintArgs(n.args) + tail;
    if n.args != [] {
      FirstArgToken(n.args, tail);
      ParsePrintedArgs(n.args, tail);
    }
  }

  lemma FirstArgToken(args: seq<Node>, rest: seq<Token>)
    requires args != [] && Printable(args[0])
    ensures !Peek(PrintArgs(args) + rest).RightParen?
  {
    hide Print, Printable;
    var tail := if |args| == 1 then rest else [Comma] + PrintArgs(args[1..]) + rest;
    FirstToken(args[0], 0, tail);
    assert PrintArgs(args) + rest == Print(args[0], 0) + tail;
  }

  /** One more link of a chain of left-associative operators. */
  lemma {:induction false} ContinuePrinted(left: Node, op: BinaryOp, r: Node, rest: seq<Token>)
    requires Printable(r) && Level(op) != 4
    requires Level(op) >= 4 ==> !IsNegation(r)
    requires FollowLevel(rest) <= Level(op)
    ensures Continue(Level(op), left, [Operator(op)] + Print(r, RightPrecedence(op)) + rest) ==
            Continue(Level(op), Attach(left, op, r), rest)
    decreases r, 2, 1
  {
    var level := Level(op);
    if !RaisesRight(op) && r.Binary? && Level(r.op) == level {
      var tail := [Operator(r.op)] + Print(r.right, RightPrecedence(r.op)) + rest;
      assert [Operator(op)] + Print(r, level) + rest == [Operator(op)] + Print(r.left, level) + tail;
      assert FollowLevel(tail) == level;
      ContinuePrinted(left, op, r.left, tail);
      ContinuePrinted(Attach(left, op, r.left), r.op, r.right, rest);
    } else {
      ContinueLast(left, op, r, rest);
    }
  }

  lemma {:induction false} ContinueLast(left: Node, op: BinaryOp, r: Node, rest: seq<Token>)
    requires Printable(r) && Level(op) != 4
    requires Level(op) >= 4 ==> !IsNegation(r)
    requires FollowLevel(rest) <= Level(op)
    requires RaisesRight(op) || !r.Binary? || Level(r.op) != Level(op)
    ensures Continue(Level(op), left, [Operator(op)] + Print(r, RightPrecedence(op)) + rest) ==
            Continue(Level(op), Binary(op, left, Reassociate(r)), rest)
    decreases r, 2, 0
  {
    var text := Print(r, RightPrecedence(op)) + rest;
    ParsePrinted(r, RightPrecedence(op), Level(op) + 1, rest);
    ContinueOnce(left, op, text, Reassociate(r), rest);
    assert [Operator(op)] + Print(r, RightPrecedence(op)) + rest == [Operator(op)] + text;
  }

  lemma ContinueOnce(left: Node, op: BinaryOp, text: seq<Token>, r: Node, rest: seq<Token>)
    requires Level(op) != 4 && FollowLevel(rest) <= Level(op)
    requires Parse(Level(op) + 1, text) ==
             if Level(op) + 1 in {2, 5, 6} then Continue(Level(op) + 1, r, rest) else Read(r, rest)
    ensures Continue(Level(op), left, [Operator(op)] + text) == Continue(Level(op), Binary(op, left, r), rest)
  {
    var ts := [Operator(op)] + text;
    assert ts[1..] == text;
    assert Parse(Level(op) + 1, text) == Read(r, rest);
  }

  lemma {:induction false} ParsePrintedArgs(args: seq<Node>, rest: seq<Token>)
    requires args != [] && forall i :: 0 <= i < |args| ==> Printable(args[i])
    requires FollowLevel(rest) == 0 && !Peek(rest).Comma?
    ensures ParseArgs(PrintArgs(args) + rest) == ReadList(ReassociateAll(args), rest)
    decreases args, 0
  {
    if |args| == 1 {
      ParsePrinted(args[0], 0, 1, rest);
    } else {
      var tail := [Comma] + (PrintArgs(args[1..]) + rest);
      assert PrintArgs(args) + rest == Print(args[0], 0) + tail;
      ParsePrinted(args[0], 0, 1, tail);
      ParsePrintedArgs(args[1..], rest);
    }
  }

  // ----- the canonical form is a fixed point -----

  lemma {:induction false} PrintAttach(left: Node, op: BinaryOp, r: Node)
    ensures PrintBare(Attach(left, op, r)) ==
            Print(left, Level(op)) + [Operator(op)] + Print(r, RightPrecedence(op))
    ensures Precedence(Attach(left, op, r)) == Level(op)
    decreases r, 2
  {
    if !RaisesRight(op) && r.Binary? && Level(r.op) == Level(op) {
      PrintAttach(left, op, r.left);
      PrintAttach(Attach(left, op, r.left), r.op, r.right);
    } else {
      PrintReassociated(r, RightPrecedence(op));
    }
  }

  /** Reassociation does not change the canonical text. */
  lemma {:induction false} PrintReassociated(n: Node, parent: nat)
    ensures Print(Reassociate(n), parent) == Print(n, parent)
    ensures Precedence(Reassociate(n)) == Precedence(n)
    decreases n, 1
  {
    match n
    case Num(_) =>
    case Ref(_) =>
    case Unary(_, v) => PrintReassociated(v, 7);
    case Binary(op, l, r) =>
      PrintAttach(Reassociate(l), op, r);
      PrintReassociated(l, Level(op));
    case Call(_, args) => PrintReassociatedArgs(args);
  }

  lemma {:induction false} PrintReassociatedArgs(args: seq<Node>)
    ensures PrintArgs(ReassociateAll(args)) == PrintArgs(args)
    decreases args, 0
  {
    if args != [] {
      PrintReassociated(args[0], 0);
      PrintReassociatedArgs(args[1..]);
      assert ReassociateAll(args)[1..] == ReassociateAll(args[1..]);
    }
  }

  lemma {:induction false} PrintableAttach(left: Node, op: BinaryOp, r: Node)
    requires Printable(left) && Printable(r)
    requires Level(op) >= 4 ==> !IsNegation(left) && !IsNegation(r)
    requires Level(op) == 4 ==> !(left.Binary? && Level(left.op) == 4)
    ensures Printable(Attach(left, op, r))
    ensures Attach(left, op, r).Binary? && Level(Attach(left, op, r).op) == Level(op)
    decreases r, 2
  {
    if !RaisesRight(op) && r.Binary? && Level(r.op) == Level(op) {
      PrintableAttach(left, op, r.left);
      PrintableAttach(Attach(left, op, r.left), r.op, r.right);
    } else {
      PrintableReassociated(r);
    }
  }

  lemma {:induction false} PrintableReassociated(n: Node)
    requires Printable(n)
    ensures Printable(Reassociate(n))
    ensures IsNegation(Reassociate(n)) == IsNegation(n)
    ensures Precedence(Reassociate(n)) == Precedence(n)
    decreases n, 1
  {
    match n
    case Num(_) =>
    case Ref(_) =>
    case Unary(_, v) => PrintableReassociated(v);
    case Binary(op, l, r) =>
      PrintableReassociated(l);
      PrintableAttach(Reassociate(l), op, r);
    case Call(_, args) =>
      PrintableReassociatedArgs(args);
  }

  lemma {:induction false} PrintableReassociatedArgs(args: seq<Node>)
    requires forall i :: 0 <= i < |args| ==> Printable(args[i])
    ensures forall i :: 0 <= i < |args| ==> Printable(ReassociateAll(args)[i])
    decreases args, 0
  {
    if args != [] {
      PrintableReassociated(args[0]);
      PrintableReassociatedArgs(args[1..]);
      var tail := ReassociateAll(args[1..]);
      forall i | 0 <= i < |args| ensures Printable(ReassociateAll(args)[i]) {
        if i > 0 { assert ReassociateAll(args)[i] == tail[i - 1]; }
      }
    }
  }

  /** No right operand continues the chain of its own operator. */
  predicate LeftLeaning(n: Node)
  {
    match n
    case Num(_) => true
    case Ref(_) => true
    case Unary(_, v) => LeftLeaning(v)
    case Binary(op, l, r) =>
      LeftLeaning(l) && LeftLeaning(r) && (RaisesRight(op) || Precedence(r) != Level(op))
    case Call(_, args) => forall i :: 0 <= i < |args| ==> LeftLeaning(args[i])
  }

  lemma {:induction false} AttachLeans(left: Node, op: BinaryOp, r: Node)
    requires LeftLeaning(left)
    ensures LeftLeaning(Attach(left, op, r))
    decreases r, 2
  {
    if !RaisesRight(op) && r.Binary? && Level(r.op) == Level(op) {
      AttachLeans(left, op, r.left);
      AttachLeans(Attach(left, op, r.left), r.op, r.right);
    } else {
      ReassociatedLeans(r);
      PrintReassociated(r, 0);
    }
  }

  lemma {:induction false} ReassociatedLeans(n: Node)
    ensures LeftLeaning(Reassociate(n))
    ensures LeftLeaning(n) ==> Reassociate(n) == n
    decreases n, 1
  {
    match n
    case Num(_) =>
    case Ref(_) =>
    case Unary(_, v) => ReassociatedLeans(v);
    case Binary(op, l, r) =>
      ReassociatedLeans(l);
      ReassociatedLeans(r);
      AttachLeans(Reassociate(l), op, r);
    case Call(_, args) => ReassociatedArgsLean(args);
  }

  lemma {:induction false} ReassociatedArgsLean(args: seq<Node>)
    ensures forall i :: 0 <= i < |args| ==> LeftLeaning(ReassociateAll(args)[i])
    ensures (forall i :: 0 <= i < |args| ==> LeftLeaning(args[i])) ==> ReassociateAll(args) == args
    decreases args, 0
  {
    if args != [] {
      ReassociatedLeans(args[0]);
      ReassociatedArgsLean(args[1..]);
      var tail := ReassociateAll(args[1..]);
      forall i | 0 <= i < |args| ensures LeftLeaning(ReassociateAll(args)[i]) {
        if i > 0 { assert ReassociateAll(args)[i] == tail[i - 1]; }
      }
      assert args == [args[0]] + args[1..];
    }
  }

  /** Reading a canonical print consumes all of it and yields the left-leaning tree of the
      same chains; printing that tree again gives the same text. The tree itself comes
      back exactly when it already leans left. */
  lemma CanonicalRoundTrip(n: Node)
    requires Printable(n)
    ensures ParseFormula(Canonical(n)) == Tree(Reassociate(n))
    ensures Canonical(Reassociate(n)) == Canonical(n)
    ensures Printable(Reassociate(n)) && LeftLeaning(Reassociate(n))
    ensures ParseFormula(Canonical(n)) == Tree(n) <==> LeftLeaning(n)
  {
    ParsePrinted(n, 0, 1, []);
    assert Canonical(n) + [] == Canonical(n);
    PrintReassociated(n, 0);
    PrintableReassociated(n);
    ReassociatedLeans(n);
  }

  /** Two trees have the same canonical text exactly when they differ only by
      reassociation, so comparing canonical forms compares reassociated trees. */
  lemma CanonicalDecides(a: Node, b: Node)
    requires Printable(a) && Printable(b)
    ensures Canonical(a) == Canonical(b) <==> Reassociate(a) == Reassociate(b)
  {
    CanonicalRoundTrip(a);
    CanonicalRoundTrip(b);
  }

  // ----- what the parser produces -----

  /** Literals are non-negative, names are identifiers, function names lower-case. */
  ghost predicate Lexical(n: Node)
  {
    match n
    case Num(v) => IsLiteral(v)
    case Ref(name) => IsName(name)
    case Unary(_, v) => Lexical(v)
    case Binary(_, l, r) => Lexical(l) && Lexical(r)
    case Call(fn, args) => IsName(fn) && ToLower(fn) == fn && forall i :: 0 <= i < |args| ==> Lexical(args[i])
  }

  ghost predicate LexicalTokens(ts: seq<Token>)
  {
    forall i :: 0 <= i < |ts| ==> IsLexical(ts[i])
  }

  lemma LowerName(s: string)
    requires IsName(s)
    ensures ToLower(ToLower(s)) == ToLower(s) && IsName(ToLower(s))
  {
    var lower := ToLower(s);
    assert forall i :: 0 <= i < |s| ==> UpperChar(lower[i]) == UpperChar(s[i]);
    assert forall i :: 0 <= i < |s| ==> IsIdentifierPart(s[i]) && IsIdentifierPart(lower[i]);
  }

  lemma LexicalTail(ts: seq<Token>, k: nat)
    requires LexicalTokens(ts) && k <= |ts|
    ensures LexicalTokens(ts[k..])
  {
  }

  lemma {:induction false} ParsedIsLexical(level: nat, ts: seq<Token>)
    requires 1 <= level <= 8 && LexicalTokens(ts) && Parse(level, ts).Read?
    ensures Lexical(Parse(level, ts).node) && LexicalTokens(Parse(level, ts).rest)
    decreases |ts|, 9 - level
  {
    if level == 8 {
      PrimaryIsLexical(ts);
    } else if level == 7 && IsSign(Peek(ts)) {
      LexicalTail(ts, 1);
      ParsedIsLexical(7, ts[1..]);
    } else if level == 3 && Peek(ts).NotToken? {
      LexicalTail(ts, 1);
      ParsedIsLexical(3, ts[1..]);
    } else {
      ParsedIsLexical(level + 1, ts);
      if level != 3 && level != 7 {
        var left := Parse(level + 1, ts);
        ContinuedIsLexical(level, left.node, left.rest);
      }
    }
  }

  lemma {:induction false} ContinuedIsLexical(level: nat, left: Node, ts: seq<Token>)
    requires 1 <= level <= 6 && level != 3 && LexicalTokens(ts) && Lexical(left)
    requires Continue(level, left, ts).Read?
    ensures Lexical(Continue(level, left, ts).node) && LexicalTokens(Continue(level, left, ts).rest)
    decreases |ts|, 9
  {
    if AtLevel(Peek(ts), level) {
      LexicalTail(ts, 1);
      ParsedIsLexical(level + 1, ts[1..]);
      var right := Parse(level + 1, ts[1..]);
      if level != 4 {
        ContinuedIsLexical(level, Binary(ts[0].op, left, right.node), right.rest);
      }
    }
  }

  lemma {:induction false} PrimaryIsLexical(ts: seq<Token>)
    requires LexicalTokens(ts) && ParsePrimary(ts).Read?
    ensures Lexical(ParsePrimary(ts).node) && LexicalTokens(ParsePrimary(ts).rest)
    decreases |ts|, 0
  {
    LexicalTail(ts, 1);
    if Peek(ts).LeftParen? {
      ParsedIsLexical(1, ts[1..]);
      LexicalTail(Parse(1, ts[1..]).rest, 1);
    } else if Peek(ts).Identifier? && Peek(ts[1..]).LeftParen? {
      var args := ts[2..];
      LexicalTail(ts, 2);
      LowerName(ts[0].name);
      if !Peek(args).RightParen? {
        ArgsAreLexical(args);
        LexicalTail(ParseArgs(args).rest, 1);
      } else {
        LexicalTail(args, 1);
      }
    }
  }

  lemma {:induction false} ArgsAreLexical(ts: seq<Token>)
    requires LexicalTokens(ts) && ParseArgs(ts).ReadList?
    ensures forall i :: 0 <= i < |ParseArgs(ts).nodes| ==> Lexical(ParseArgs(ts).nodes[i])
    ensures LexicalTokens(ParseArgs(ts).rest)
    decreases |ts|, 9
  {
    ParsedIsLexical(1, ts);
    var first := Parse(1, ts);
    if Peek(first.rest).Comma? {
      LexicalTail(first.rest, 1);
      ArgsAreLexical(first.rest[1..]);
    }
  }
}
