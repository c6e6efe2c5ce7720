/** How operators group: every expression without inner parentheses is read as the tree that is
    split at its loosest operator, the last one of them. */
module FormulaPrecedence {
  import opened FormulaSyntax
  import opened FormulaRoundTrip
  import opened Results

  // ----- flat expressions -----

  /** Tokens that are read as one operand whatever operators stand around it. */
  ghost predicate IsOperand(text: seq<Token>, n: Node)
  {
    forall rest :: !Peek(rest).LeftParen? ==> Parse(7, text + rest) == Read(n, rest)
  }

  /** An operand, behind so many NOTs. */
  datatype Item = Item(nots: nat, text: seq<Token>, node: Node)

  function NotTokens(n: nat): seq<Token> { if n == 0 then [] else [NotToken] + NotTokens(n - 1) }

  /** Operands with one operator between each two. */
  function Flat(items: seq<Item>, ops: seq<BinaryOp>): seq<Token>
    requires |items| == |ops| + 1
  {
    var last := |ops|;
    if last == 0 then NotTokens(items[0].nots) + items[0].text
    else Flat(items[..last], ops[..last - 1]) + [Operator(ops[last - 1])] + (NotTokens(items[last].nots) + items[last].text)
  }

  /** NOT only starts an operand of AND and OR. */
  ghost predicate IsExpression(items: seq<Item>, ops: seq<BinaryOp>)
  {
    && |items| == |ops| + 1
    && (forall i :: 0 <= i < |items| ==> IsOperand(items[i].text, items[i].node))
    && forall i :: 0 < i < |items| && items[i].nots > 0 ==> ops[i - 1] == And || ops[i - 1] == Or
  }

  // ----- how it groups -----

  predicate Compares(op: BinaryOp) { op == Gt || op == Ge || op == Lt || op == Le || op == Eq || op == Ne }

  predicate Sums(op: BinaryOp) { op == Add || op == Sub }

  predicate IsOr(op: BinaryOp) { op == Or }

  predicate IsAnd(op: BinaryOp) { op == And }

  /** The last of some operators. */
  function LastOf(ops: seq<BinaryOp>, wanted: BinaryOp -> bool): (k: Option<nat>)
    ensures k.None? ==> forall i :: 0 <= i < |ops| ==> !wanted(ops[i])
    ensures k.Some? ==> k.value < |ops| && wanted(ops[k.value]) && forall i :: k.value < i < |ops| ==> !wanted(ops[i])
  {
    if ops == [] then None
    else if wanted(ops[|ops| - 1]) then Some(|ops| - 1)
    else LastOf(ops[..|ops| - 1], wanted)
  }

  function FirstOf(ops: seq<BinaryOp>, wanted: BinaryOp -> bool): (k: Option<nat>)
    ensures k.None? ==> forall i :: 0 <= i < |ops| ==> !wanted(ops[i])
    ensures k.Some? ==> k.value < |ops| && wanted(ops[k.value]) && forall i :: 0 <= i < k.value ==> !wanted(ops[i])
  {
    if ops == [] then None
    else
      var before := FirstOf(ops[..|ops| - 1], wanted);
      if before.Some? then before else if wanted(ops[|ops| - 1]) then Some(|ops| - 1) else None
  }

  /** Sums of products, each grouped to the left. */
  function Arithmetic(items: seq<Item>, ops: seq<BinaryOp>): Node
    requires |items| == |ops| + 1
    decreases |ops|
  {
    var k := LastOf(ops, Sums);
    if k.Some? then
      Binary(ops[k.value], Arithmetic(items[..k.value + 1], ops[..k.value]), Arithmetic(items[k.value + 1..], ops[k.value + 1..]))
    else if ops != [] then Binary(ops[|ops| - 1], Arithmetic(items[..|ops|], ops[..|ops| - 1]), items[|ops|].node)
    else items[0].node
  }

  /** At most one comparison, of two sums. */
  function Relation(items: seq<Item>, ops: seq<BinaryOp>): Option<Node>
    requires |items| == |ops| + 1
  {
    var k := FirstOf(ops, Compares);
    if k.None? then Some(Arithmetic(items, ops))
    else if FirstOf(ops[k.value + 1..], Compares).Some? then None
    else
      Some(Binary(ops[k.value], Arithmetic(items[..k.value + 1], ops[..k.value]), Arithmetic(items[k.value + 1..], ops[k.value + 1..])))
  }

  function Negated(nots: nat, r: Option<Node>): Option<Node>
  {
    if r.None? || nots == 0 then r else Some(Unary(Not, Negated(nots - 1, r).value))
  }

  function Joined(op: BinaryOp, l: Option<Node>, r: Option<Node>): Option<Node>
  {
    if l.None? || r.None? then None else Some(Binary(op, l.value, r.value))
  }

  /** The operands without the leading NOTs. */
  function Bare(items: seq<Item>): seq<Item>
    requires items != []
  {
    [items[0].(nots := 0)] + items[1..]
  }

  /** Disjunctions of conjunctions, each grouped to the left, of relations behind NOTs. */
  function Grouped(items: seq<Item>, ops: seq<BinaryOp>): Option<Node>
    requires |items| == |ops| + 1
    decreases |ops|
  {
    var (k, j) := (LastOf(ops, IsOr), LastOf(ops, IsAnd));
    if k.Some? then
      Joined(Or, Grouped(items[..k.value + 1], ops[..k.value]), Grouped(items[k.value + 1..], ops[k.value + 1..]))
    else if j.Some? then
      Joined(And, Grouped(items[..j.value + 1], ops[..j.value]), Grouped(items[j.value + 1..], ops[j.value + 1..]))
    else Negated(items[0].nots, Relation(Bare(items), ops))
  }

  // ----- the parser groups that way -----

  lemma {:induction false} FlatSplits(items: seq<Item>, ops: seq<BinaryOp>, k: nat)
    requires |items| == |ops| + 1 && k < |ops|
    ensures Flat(items, ops) == Flat(items[..k + 1], ops[..k]) + ([Operator(ops[k])] + Flat(items[k + 1..], ops[k + 1..]))
    decreases |ops|
  {
    hide Flat, NotTokens;
    var last := |ops|;
    var end := NotTokens(items[last].nots) + items[last].text;
    FlatEnds(items, ops);
    if k == last - 1 {
      assert items[k + 1..] == [items[last]] && ops[k + 1..] == [];
      assert items[..k + 1] == items[..last] && ops[..k] == ops[..last - 1];
      FlatOne(items[last]);
    } else {
      SlicesAgree(items, ops, k);
      FlatSplits(items[..last], ops[..last - 1], k);
      FlatEnds(items[k + 1..], ops[k + 1..]);
      Regroup(Flat(items[..k + 1], ops[..k]), [Operator(ops[k])], Flat(items[..last][k + 1..], ops[..last - 1][k + 1..]),
              [Operator(ops[last - 1])], end);
    }
  }

  lemma SlicesAgree(items: seq<Item>, ops: seq<BinaryOp>, k: nat)
    requires |items| == |ops| + 1 && k < |ops| - 1
    ensures var last := |ops|;
            && items[..last][..k + 1] == items[..k + 1] && ops[..last - 1][..k] == ops[..k] && ops[..last - 1][k] == ops[k]
            && items[k + 1..][..last - k - 1] == items[..last][k + 1..]
            && ops[k + 1..][..last - k - 2] == ops[..last - 1][k + 1..]
            && items[k + 1..][last - k - 1] == items[last] && ops[k + 1..][last - k - 2] == ops[last - 1]
  {
  }

  lemma Shift(left: seq<Token>, op: seq<Token>, right: seq<Token>, rest: seq<Token>)
    ensures left + (op + right) + rest == left + (op + (right + rest))
  {
  }

  lemma Regroup(a: seq<Token>, b: seq<Token>, c: seq<Token>, d: seq<Token>, e: seq<Token>)
    ensures a + (b + c) + d + e == a + (b + (c + d + e))
  {
  }

  lemma FlatEnds(items: seq<Item>, ops: seq<BinaryOp>)
    requires |items| == |ops| + 1 && ops != []
    ensures var last := |ops|;
            Flat(items, ops) ==
            Flat(items[..last], ops[..last - 1]) + [Operator(ops[last - 1])] + (NotTokens(items[last].nots) + items[last].text)
  {
  }

  lemma FlatOne(item: Item)
    ensures Flat([item], []) == NotTokens(item.nots) + item.text
    ensures item.nots == 0 ==> Flat([item], []) == item.text
  {
  }

  lemma PartsAreExpressions(items: seq<Item>, ops: seq<BinaryOp>, k: nat)
    requires IsExpression(items, ops) && k < |ops|
    ensures IsExpression(items[..k + 1], ops[..k]) && IsExpression(items[k + 1..], ops[k + 1..])
  {
    hide IsOperand;
  }

  /** No NOTs inside, except where it starts. */
  lemma OperandReads(item: Item, rest: seq<Token>)
    requires IsOperand(item.text, item.node) && !Peek(rest).LeftParen?
    ensures Parse(7, item.text + rest) == Read(item.node, rest) && !Peek(item.text + rest).NotToken?
  {
  }

  lemma {:induction false} FlatIsBare(items: seq<Item>, ops: seq<BinaryOp>)
    requires |items| == |ops| + 1
    ensures Flat(items, ops) == NotTokens(items[0].nots) + Flat(Bare(items), ops)
    decreases |ops|
  {
    hide Flat, NotTokens;
    var last := |ops|;
    var bare := Bare(items);
    if last > 0 {
      FlatIsBare(items[..last], ops[..last - 1]);
      assert bare[..last] == Bare(items[..last]);
      FlatEnds(items, ops);
      FlatEnds(bare, ops);
      Prepend(NotTokens(items[0].nots), Flat(bare[..last], ops[..last - 1]), [Operator(ops[last - 1])]);
      Prepend(NotTokens(items[0].nots), Flat(bare[..last], ops[..last - 1]) + [Operator(ops[last - 1])],
              NotTokens(items[last].nots) + items[last].text);
    } else {
      assert items == [items[0]] && bare == [items[0].(nots := 0)] && ops == [];
      FlatOne(items[0]);
      FlatOne(bare[0]);
    }
  }

  lemma {:induction false} ProductReads(items: seq<Item>, ops: seq<BinaryOp>, rest: seq<Token>)
    requires IsExpression(items, ops) && items[0].nots == 0 && FollowLevel(rest) <= 6
    requires forall i :: 0 <= i < |ops| ==> IsProduct(ops[i])
    ensures Reads(6, Flat(items, ops) + rest, Arithmetic(items, ops), rest)
    decreases |ops|, 1
  {
    hide Parse, Continue, IsOperand, Flat, Level, Arithmetic;
    var last := |ops|;
    NoSums(items, ops);
    if last == 0 {
      assert items == [items[0]] && ops == [];
      FlatOne(items[0]);
      OperandReads(items[0], rest);
      SevenToSix(items[0].text + rest, items[0].node, rest);
    } else {
      var op, item := ops[last - 1], items[last];
      assert item.nots == 0 && IsProduct(op);
      PartsAreExpressions(items, ops, last - 1);
      FlatSplits(items, ops, last - 1);
      assert items[last..] == [item] && ops[last..] == [];
      FlatOne(item);
      NextFactor(Flat(items[..last], ops[..last - 1]), items[..last], ops[..last - 1], op, item, rest);
    }
  }

  predicate IsProduct(op: BinaryOp) { op == Mul || op == Div }

  lemma NoSums(items: seq<Item>, ops: seq<BinaryOp>)
    requires |items| == |ops| + 1 && forall i :: 0 <= i < |ops| ==> IsProduct(ops[i])
    ensures Arithmetic(items, ops) ==
            if ops == [] then items[0].node
            else Binary(ops[|ops| - 1], Arithmetic(items[..|ops|], ops[..|ops| - 1]), items[|ops|].node)
  {
  }

  lemma {:induction false} NextFactor(text: seq<Token>, items: seq<Item>, ops: seq<BinaryOp>, op: BinaryOp, item: Item, rest: seq<Token>)
    requires IsExpression(items, ops) && items[0].nots == 0 && text == Flat(items, ops)
    requires IsProduct(op) && FollowLevel(rest) <= 6 && IsOperand(item.text, item.node)
    requires forall i :: 0 <= i < |ops| ==> IsProduct(ops[i])
    ensures Reads(6, text + ([Operator(op)] + item.text) + rest, Binary(op, Arithmetic(items, ops), item.node), rest)
    decreases |ops|, 2
  {
    hide Parse, Continue, IsOperand, Flat, Arithmetic;
    var tail := [Operator(op)] + (item.text + rest);
    ProductReads(items, ops, tail);
    OperandReads(item, rest);
    ContinueOnce(Arithmetic(items, ops), op, item.text + rest, item.node, rest);
    assert text + ([Operator(op)] + item.text) + rest == text + tail;
  }

  lemma SevenToSix(ts: seq<Token>, n: Node, rest: seq<Token>)
    requires Parse(7, ts) == Read(n, rest) && FollowLevel(rest) <= 6
    ensures Reads(6, ts, n, rest)
  {
  }

  lemma {:induction false} SumReads(items: seq<Item>, ops: seq<BinaryOp>, rest: seq<Token>)
    requires IsExpression(items, ops) && items[0].nots == 0 && FollowLevel(rest) <= 5
    requires forall i :: 0 <= i < |ops| ==> ops[i] in {Add, Sub, Mul, Div}
    ensures Reads(5, Flat(items, ops) + rest, Arithmetic(items, ops), rest)
    decreases |ops|, 1
  {
    hide Parse, Continue, IsOperand, Flat, Level;
    var k := LastOf(ops, Sums);
    if k.None? {
      ProductReads(items, ops, rest);
      ParseBelow(5, Flat(items, ops) + rest, Arithmetic(items, ops), rest);
    } else {
      var i := k.value;
      PartsAreExpressions(items, ops, i);
      FlatSplits(items, ops, i);
      LastSum(items, ops, i);
      NextTerm(items[..i + 1], ops[..i], ops[i], items[i + 1..], ops[i + 1..], rest);
    }
  }

  lemma LastSum(items: seq<Item>, ops: seq<BinaryOp>, k: nat)
    requires |items| == |ops| + 1 && LastOf(ops, Sums) == Some(k)
    ensures Arithmetic(items, ops) ==
            Binary(ops[k], Arithmetic(items[..k + 1], ops[..k]), Arithmetic(items[k + 1..], ops[k + 1..]))
  {
  }

  lemma {:induction false} NextTerm(items: seq<Item>, ops: seq<BinaryOp>, op: BinaryOp, items': seq<Item>, ops': seq<BinaryOp>,
                                    rest: seq<Token>)
    requires IsExpression(items, ops) && items[0].nots == 0 && IsExpression(items', ops') && items'[0].nots == 0
    requires Sums(op) && FollowLevel(rest) <= 5
    requires forall i :: 0 <= i < |ops| ==> ops[i] in {Add, Sub, Mul, Div}
    requires forall i :: 0 <= i < |ops'| ==> IsProduct(ops'[i])
    ensures Reads(5, Flat(items, ops) + ([Operator(op)] + Flat(items', ops')) + rest,
                  Binary(op, Arithmetic(items, ops), Arithmetic(items', ops')), rest)
    decreases |ops|, 2
  {
    hide Parse, Continue, IsOperand, Flat, Arithmetic;
    var right := Flat(items', ops') + rest;
    SumReads(items, ops, [Operator(op)] + right);
    ProductReads(items', ops', rest);
    ContinueOnce(Arithmetic(items, ops), op, right, Arithmetic(items', ops'), rest);
    assert Flat(items, ops) + ([Operator(op)] + Flat(items', ops')) + rest == Flat(items, ops) + ([Operator(op)] + right);
  }

  // ----- comparisons, NOT, AND and OR -----

  /** What a level reads: a tree, after which AND and OR keep reading, or the error. */
  predicate Gives(level: nat, ts: seq<Token>, r: Option<Node>, rest: seq<Token>)
    requires 1 <= level <= 4
  {
    Parse(level, ts) ==
    if r.None? then Failed(ChainedComparison)
    else if level <= 2 then Continue(level, r.value, rest)
    else Read(r.value, rest)
  }

  lemma NoComparison(ts: seq<Token>, n: Node, rest: seq<Token>)
    requires Reads(5, ts, n, rest) && FollowLevel(rest) <= 3
    ensures Gives(4, ts, Some(n), rest)
  {
  }

  lemma OneComparison(ts: seq<Token>, l: Node, op: BinaryOp, right: seq<Token>, r: Node, rest: seq<Token>)
    requires Compares(op) && Reads(5, ts, l, [Operator(op)] + right) && Reads(5, right, r, rest) && FollowLevel(rest) <= 3
    ensures Gives(4, ts, Some(Binary(op, l, r)), rest)
  {
    assert ([Operator(op)] + right)[1..] == right;
  }

  lemma TwoComparisons(ts: seq<Token>, l: Node, op: BinaryOp, right: seq<Token>, r: Node, op': BinaryOp, rest: seq<Token>)
    requires Compares(op) && Compares(op')
    requires Reads(5, ts, l, [Operator(op)] + right) && Reads(5, right, r, [Operator(op')] + rest)
    ensures Gives(4, ts, None, rest)
  {
    assert ([Operator(op)] + right)[1..] == right;
  }

  lemma RelationGives(items: seq<Item>, ops: seq<BinaryOp>, rest: seq<Token>)
    requires IsExpression(items, ops) && items[0].nots == 0 && FollowLevel(rest) <= 3
    requires forall i :: 0 <= i < |ops| ==> ops[i] != And && ops[i] != Or
    ensures Gives(4, Flat(items, ops) + rest, Relation(items, ops), rest)
  {
    hide Parse, Continue, IsOperand, Flat, Level, Gives, Arithmetic, Reads, FirstOf;
    var k := FirstOf(ops, Compares);
    if k.None? {
      SumReads(items, ops, rest);
      NoComparison(Flat(items, ops) + rest, Arithmetic(items, ops), rest);
    } else {
      ComparedGives(items, ops, k.value, rest);
    }
  }

  lemma ComparedGives(items: seq<Item>, ops: seq<BinaryOp>, i: nat, rest: seq<Token>)
    requires IsExpression(items, ops) && items[0].nots == 0 && FollowLevel(rest) <= 3
    requires forall k :: 0 <= k < |ops| ==> ops[k] != And && ops[k] != Or
    requires FirstOf(ops, Compares) == Some(i) && i < |ops| && Compares(ops[i])
    ensures Gives(4, Flat(items, ops) + rest, Relation(items, ops), rest)
  {
    hide Parse, Continue, IsOperand, Flat, Level, Gives, Arithmetic, Reads, FirstOf;
    var items', ops' := items[i + 1..], ops[i + 1..];
    var left, right := Flat(items[..i + 1], ops[..i]), Flat(items', ops') + rest;
    PartsAreExpressions(items, ops, i);
    FlatSplits(items, ops, i);
    Shift(left, [Operator(ops[i])], Flat(items', ops'), rest);
    Follows(ops[i], right);
    SumReads(items[..i + 1], ops[..i], [Operator(ops[i])] + right);
    ComparisonGives(Flat(items, ops) + rest, Arithmetic(items[..i + 1], ops[..i]), ops[i], items', ops', rest);
  }

  lemma Follows(op: BinaryOp, rest: seq<Token>)
    ensures FollowLevel([Operator(op)] + rest) == Level(op)
    ensures Compares(op) ==> Level(op) == 4
    ensures op == And ==> Level(op) == 2
    ensures op == Or ==> Level(op) == 1
  {
  }

  lemma ComparisonGives(ts: seq<Token>, l: Node, op: BinaryOp, items: seq<Item>, ops: seq<BinaryOp>, rest: seq<Token>)
    requires Compares(op) && IsExpression(items, ops) && items[0].nots == 0 && FollowLevel(rest) <= 3
    requires forall i :: 0 <= i < |ops| ==> ops[i] != And && ops[i] != Or
    requires Reads(5, ts, l, [Operator(op)] + (Flat(items, ops) + rest))
    ensures Gives(4, ts, if FirstOf(ops, Compares).Some? then None else Some(Binary(op, l, Arithmetic(items, ops))), rest)
  {
    hide Parse, Continue, IsOperand, Flat, Level, Arithmetic, Reads, Gives;
    var k := FirstOf(ops, Compares);
    if k.None? {
      SumReads(items, ops, rest);
      OneComparison(ts, l, op, Flat(items, ops) + rest, Arithmetic(items, ops), rest);
    } else {
      var i := k.value;
      var after := Flat(items[i + 1..], ops[i + 1..]) + rest;
      PartsAreExpressions(items, ops, i);
      FlatSplits(items, ops, i);
      Follows(ops[i], after);
      SumReads(items[..i + 1], ops[..i], [Operator(ops[i])] + after);
      Shift(Flat(items[..i + 1], ops[..i]), [Operator(ops[i])], Flat(items[i + 1..], ops[i + 1..]), rest);
      TwoComparisons(ts, l, op, Flat(items, ops) + rest, Arithmetic(items[..i + 1], ops[..i]), ops[i], after);
      FailsEitherWay(ts, after, rest);
    }
  }

  lemma FailsEitherWay(ts: seq<Token>, a: seq<Token>, b: seq<Token>)
    ensures Gives(4, ts, None, a) ==> Gives(4, ts, None, b)
  {
  }

  lemma {:induction false} NotsGive(n: nat, ts: seq<Token>, r: Option<Node>, rest: seq<Token>)
    requires Gives(3, ts, r, rest)
    ensures Gives(3, NotTokens(n) + ts, Negated(n, r), rest)
  {
    if n == 0 {
      assert NotTokens(0) + ts == ts;
    } else {
      NotsGive(n - 1, ts, r, rest);
      assert NotTokens(n) + ts == [NotToken] + (NotTokens(n - 1) + ts);
      assert ([NotToken] + (NotTokens(n - 1) + ts))[1..] == NotTokens(n - 1) + ts;
    }
  }

  lemma {:induction false} FlatStarts(items: seq<Item>, ops: seq<BinaryOp>) returns (tail: seq<Token>)
    requires |items| == |ops| + 1 && items[0].nots == 0
    ensures Flat(items, ops) == items[0].text + tail && (tail == [] || tail[0].Operator?)
    decreases |ops|
  {
    var last := |ops|;
    if last == 0 {
      tail := [];
      assert NotTokens(0) + items[0].text == items[0].text + [];
    } else {
      tail := FlatStarts(items[..last], ops[..last - 1]);
      tail := tail + [Operator(ops[last - 1])] + (NotTokens(items[last].nots) + items[last].text);
    }
  }

  lemma NotGives(items: seq<Item>, ops: seq<BinaryOp>, rest: seq<Token>)
    requires IsExpression(items, ops) && FollowLevel(rest) <= 2
    requires forall i :: 0 <= i < |ops| ==> ops[i] != And && ops[i] != Or
    ensures Gives(3, Flat(items, ops) + rest, Negated(items[0].nots, Relation(Bare(items), ops)), rest)
  {
    hide Parse, Continue, IsOperand, Flat, Level, Relation, Gives;
    var r := Relation(Bare(items), ops);
    assert IsExpression(Bare(items), ops);
    RelationGives(Bare(items), ops, rest);
    StartsWithOperand(Bare(items), ops, rest);
    FlatIsBare(items, ops);
    hide IsExpression;
    FourToThree(Flat(Bare(items), ops) + rest, r, rest);
    NotsGive(items[0].nots, Flat(Bare(items), ops) + rest, r, rest);
    Prepend(NotTokens(items[0].nots), Flat(Bare(items), ops), rest);
  }

  lemma Prepend(a: seq<Token>, b: seq<Token>, rest: seq<Token>)
    ensures a + b + rest == a + (b + rest)
  {
  }

  lemma StartsWithOperand(items: seq<Item>, ops: seq<BinaryOp>, rest: seq<Token>)
    requires IsExpression(items, ops) && items[0].nots == 0 && FollowLevel(rest) <= 2
    ensures !Peek(Flat(items, ops) + rest).NotToken?
  {
    hide Flat, IsOperand;
    var tail := FlatStarts(items, ops);
    OperandReads(items[0], tail + rest);
    Prepend(items[0].text, tail, rest);
  }

  lemma FourToThree(ts: seq<Token>, r: Option<Node>, rest: seq<Token>)
    requires Gives(4, ts, r, rest) && !Peek(ts).NotToken?
    ensures Gives(3, ts, r, rest)
  {
  }

  /** One more operand of AND or OR. */
  lemma ContinueWith(level: nat, ts: seq<Token>, l: Option<Node>, op: BinaryOp, right: seq<Token>, r: Option<Node>, rest: seq<Token>)
    requires (op == And && level == 2) || (op == Or && level == 1)
    requires Gives(level, ts, l, [Operator(op)] + right) && Gives(level + 1, right, r, rest) && FollowLevel(rest) <= level
    ensures Gives(level, ts, Joined(op, l, r), rest)
  {
    assert ([Operator(op)] + right)[1..] == right;
  }

  lemma {:induction false} AndGives(items: seq<Item>, ops: seq<BinaryOp>, rest: seq<Token>)
    requires IsExpression(items, ops) && FollowLevel(rest) <= 2 && forall i :: 0 <= i < |ops| ==> ops[i] != Or
    ensures Gives(2, Flat(items, ops) + rest, Grouped(items, ops), rest)
    decreases |ops|
  {
    hide Parse, Continue, IsOperand, Flat, Level, Relation, Gives;
    var k := LastOf(ops, IsAnd);
    if k.None? {
      NotGives(items, ops, rest);
      NoOperator(2, Flat(items, ops) + rest, Grouped(items, ops), rest);
    } else {
      var i := k.value;
      var right := Flat(items[i + 1..], ops[i + 1..]) + rest;
      PartsAreExpressions(items, ops, i);
      FlatSplits(items, ops, i);
      Follows(And, right);
      AndGives(items[..i + 1], ops[..i], [Operator(And)] + right);
      NotGives(items[i + 1..], ops[i + 1..], rest);
      Shift(Flat(items[..i + 1], ops[..i]), [Operator(And)], Flat(items[i + 1..], ops[i + 1..]), rest);
      ContinueWith(2, Flat(items, ops) + rest, Grouped(items[..i + 1], ops[..i]), And, right, Grouped(items[i + 1..], ops[i + 1..]), rest);
    }
  }

  lemma NoOperator(level: nat, ts: seq<Token>, r: Option<Node>, rest: seq<Token>)
    requires 1 <= level <= 2 && Gives(level + 1, ts, r, rest) && FollowLevel(rest) <= level
    ensures Gives(level, ts, r, rest)
  {
  }

  lemma {:induction false} OrGives(items: seq<Item>, ops: seq<BinaryOp>, rest: seq<Token>)
    requires IsExpression(items, ops) && FollowLevel(rest) <= 1
    ensures Gives(1, Flat(items, ops) + rest, Grouped(items, ops), rest)
    decreases |ops|
  {
    hide Parse, Continue, IsOperand, Flat, Level, Relation, Gives;
    var k := LastOf(ops, IsOr);
    if k.None? {
      AndGives(items, ops, rest);
      NoOperator(1, Flat(items, ops) + rest, Grouped(items, ops), rest);
    } else {
      var i := k.value;
      var right := Flat(items[i + 1..], ops[i + 1..]) + rest;
      PartsAreExpressions(items, ops, i);
      FlatSplits(items, ops, i);
      Follows(Or, right);
      OrGives(items[..i + 1], ops[..i], [Operator(Or)] + right);
      AndGives(items[i + 1..], ops[i + 1..], rest);
      Shift(Flat(items[..i + 1], ops[..i]), [Operator(Or)], Flat(items[i + 1..], ops[i + 1..]), rest);
      ContinueWith(1, Flat(items, ops) + rest, Grouped(items[..i + 1], ops[..i]), Or, right, Grouped(items[i + 1..], ops[i + 1..]), rest);
    }
  }

  /** Every flat expression is read as its grouping, or refused because comparisons are chained. */
  lemma ExpressionsGroup(items: seq<Item>, ops: seq<BinaryOp>)
    requires IsExpression(items, ops)
    ensures ParseFormula(Flat(items, ops)) ==
            match Grouped(items, ops) case None => SyntaxError(ChainedComparison) case Some(n) => Tree(n)
  {
    hide Flat, Grouped, IsOperand;
    OrGives(items, ops, []);
    assert Flat(items, ops) + [] == Flat(items, ops);
  }

  // ----- operands -----

  /** A literal and a name. */
  lemma AtomIsOperand(v: real, name: string)
    ensures IsOperand([Literal(v)], Num(v)) && IsOperand([Identifier(name)], Ref(name))
  {
    forall rest: seq<Token> | !Peek(rest).LeftParen?
      ensures Parse(7, [Literal(v)] + rest) == Read(Num(v), rest) && Parse(7, [Identifier(name)] + rest) == Read(Ref(name), rest)
    {
      assert ([Literal(v)] + rest)[1..] == rest && ([Identifier(name)] + rest)[1..] == rest;
    }
  }

  /** A sign binds to the operand next to it. */
  lemma SignedIsOperand(text: seq<Token>, n: Node)
    requires IsOperand(text, n)
    ensures IsOperand([Operator(Add)] + text, Unary(Plus, n)) && IsOperand([Operator(Sub)] + text, Unary(Minus, n))
  {
    forall rest: seq<Token> | !Peek(rest).LeftParen?
      ensures Parse(7, [Operator(Add)] + text + rest) == Read(Unary(Plus, n), rest)
      ensures Parse(7, [Operator(Sub)] + text + rest) == Read(Unary(Minus, n), rest)
    {
      assert [Operator(Add)] + text + rest == [Operator(Add)] + (text + rest);
      assert [Operator(Sub)] + text + rest == [Operator(Sub)] + (text + rest);
      assert ([Operator(Add)] + (text + rest))[1..] == text + rest && ([Operator(Sub)] + (text + rest))[1..] == text + rest;
    }
  }

  /** A whole expression in parentheses. */
  lemma ParenthesisedIsOperand(items: seq<Item>, ops: seq<BinaryOp>, n: Node)
    requires IsExpression(items, ops) && Grouped(items, ops) == Some(n)
    ensures IsOperand([LeftParen] + Flat(items, ops) + [RightParen], n)
  {
    hide Flat, Grouped;
    var text := Flat(items, ops);
    forall rest: seq<Token> | !Peek(rest).LeftParen? ensures Parse(7, [LeftParen] + text + [RightParen] + rest) == Read(n, rest) {
      OrGives(items, ops, [RightParen] + rest);
      assert [LeftParen] + text + [RightParen] + rest == [LeftParen] + (text + ([RightParen] + rest));
      InParentheses(text + ([RightParen] + rest), n, rest);
    }
  }

  lemma InParentheses(inner: seq<Token>, n: Node, rest: seq<Token>)
    requires Gives(1, inner, Some(n), [RightParen] + rest)
    ensures Parse(7, [LeftParen] + inner) == Read(n, rest)
  {
    assert ([LeftParen] + inner)[1..] == inner && ([RightParen] + rest)[1..] == rest;
  }

  /** The text of a call's arguments. */
  function Listed(texts: seq<seq<Token>>): seq<Token>
  {
    if texts == [] then [] else if |texts| == 1 then texts[0] else texts[0] + [Comma] + Listed(texts[1..])
  }

  /** A call of expressions: its arguments in order, its name in lower case. */
  lemma CallIsOperand(name: string, args: seq<(seq<Item>, seq<BinaryOp>)>, texts: seq<seq<Token>>, nodes: seq<Node>)
    requires |args| == |texts| == |nodes|
    requires forall k :: 0 <= k < |args| ==>
               IsExpression(args[k].0, args[k].1) && texts[k] == Flat(args[k].0, args[k].1) && Grouped(args[k].0, args[k].1) == Some(nodes[k])
    ensures IsOperand([Identifier(name), LeftParen] + Listed(texts) + [RightParen], Call(ToLower(name), nodes))
  {
    hide Grouped, IsExpression, ToLower, Flat, Parse, ParseArgs;
    forall rest: seq<Token> | !Peek(rest).LeftParen?
      ensures Parse(7, [Identifier(name), LeftParen] + Listed(texts) + [RightParen] + rest) == Read(Call(ToLower(name), nodes), rest)
    {
      var inner := Listed(texts) + ([RightParen] + rest);
      assert [Identifier(name), LeftParen] + Listed(texts) + [RightParen] + rest == [Identifier(name), LeftParen] + inner;
      if args != [] { ArgumentsRead(args, texts, nodes, [RightParen] + rest); }
      CallReads(name, inner, nodes, rest);
    }
  }

  lemma SevenIsPrimary(ts: seq<Token>)
    ensures !IsSign(Peek(ts)) ==> Parse(7, ts) == ParsePrimary(ts)
  {
  }

  lemma CallReads(name: string, inner: seq<Token>, nodes: seq<Node>, rest: seq<Token>)
    requires if nodes == [] then inner == [RightParen] + rest
             else !Peek(inner).RightParen? && ParseArgs(inner) == ReadList(nodes, [RightParen] + rest)
    ensures Parse(7, [Identifier(name), LeftParen] + inner) == Read(Call(ToLower(name), nodes), rest)
  {
    hide ToLower, Parse, ParseArgs;
    var ts := [Identifier(name), LeftParen] + inner;
    assert ts[2..] == inner && ts[1..][0] == LeftParen && ([RightParen] + rest)[1..] == rest;
    assert ParseCall(name, inner) == Read(Call(ToLower(name), nodes), rest);
    SevenIsPrimary(ts);
  }

  lemma {:induction false} ArgumentsRead(args: seq<(seq<Item>, seq<BinaryOp>)>, texts: seq<seq<Token>>, nodes: seq<Node>, rest: seq<Token>)
    requires |args| == |texts| == |nodes| > 0 && Peek(rest).RightParen?
    requires forall k :: 0 <= k < |args| ==>
               IsExpression(args[k].0, args[k].1) && texts[k] == Flat(args[k].0, args[k].1) && Grouped(args[k].0, args[k].1) == Some(nodes[k])
    ensures ParseArgs(Listed(texts) + rest) == ReadList(nodes, rest) && !Peek(Listed(texts) + rest).RightParen?
    decreases |args|
  {
    hide Grouped, Flat, IsOperand, Gives;
    var items, ops := args[0].0, args[0].1;
    var after := if |texts| == 1 then rest else [Comma] + (Listed(texts[1..]) + rest);
    assert Listed(texts) + rest == texts[0] + after;
    OrGives(items, ops, after);
    OneArgument(texts[0] + after, nodes[0], after);
    if |args| == 1 {
      assert nodes == [nodes[0]];
    } else {
      ArgumentsRead(args[1..], texts[1..], nodes[1..], rest);
      assert after[1..] == Listed(texts[1..]) + rest && nodes == [nodes[0]] + nodes[1..];
    }
  }

  lemma OneArgument(ts: seq<Token>, n: Node, after: seq<Token>)
    requires Gives(1, ts, Some(n), after) && (Peek(after).Comma? || Peek(after).RightParen?)
    ensures Parse(1, ts) == Read(n, after) && !Peek(ts).RightParen?
  {
    StartsAnOperand(ts, 1);
  }

  lemma {:induction false} StartsAnOperand(ts: seq<Token>, level: nat)
    requires 1 <= level <= 8 && Parse(level, ts).Read?
    ensures !Peek(ts).RightParen?
    decreases 9 - level
  {
    if level >= 7 {
      NoOperandThere(ts);
    } else if level != 3 || !Peek(ts).NotToken? {
      ReadsBelow(ts, level);
      StartsAnOperand(ts, level + 1);
    }
  }

  lemma NoOperandThere(ts: seq<Token>)
    ensures Peek(ts).RightParen? ==> Parse(7, ts).Failed? && Parse(8, ts).Failed?
  {
  }

  lemma ReadsBelow(ts: seq<Token>, level: nat)
    requires 1 <= level < 7 && Parse(level, ts).Read? && (level == 3 ==> !Peek(ts).NotToken?)
    ensures Parse(level + 1, ts).Read?
  {
  }

  // ----- two operators -----

  function Two(x: Item, o: BinaryOp, y: Item, p: BinaryOp, z: Item): seq<Token>
  {
    x.text + [Operator(o)] + y.text + [Operator(p)] + z.text
  }

  predicate IsPlain(x: Item) { x.nots == 0 }

  lemma TwoIsFlat(x: Item, o: BinaryOp, y: Item, p: BinaryOp, z: Item)
    requires IsPlain(x) && IsPlain(y) && IsPlain(z)
    ensures Flat([x, y, z], [o, p]) == Two(x, o, y, p, z)
    ensures Flat([x, y], [o]) == x.text + [Operator(o)] + y.text
  {
    assert NotTokens(0) + x.text == x.text && NotTokens(0) + y.text == y.text && NotTokens(0) + z.text == z.text;
    FlatEnds([x, y, z], [o, p]);
    FlatEnds([x, y], [o]);
    FlatOne(x);
    assert [x, y, z][..2] == [x, y] && [o, p][..1] == [o] && [x, y][..1] == [x] && [o][..0] == [];
  }

  lemma LastOfTwo(o: BinaryOp, p: BinaryOp, wanted: BinaryOp -> bool)
    ensures LastOf([o, p], wanted) == if wanted(p) then Some(1) else if wanted(o) then Some(0) else None
    ensures LastOf([o], wanted) == if wanted(o) then Some(0) else None
    ensures LastOf([], wanted) == None
    ensures FirstOf([o, p], wanted) == if wanted(o) then Some(0) else if wanted(p) then Some(1) else None
    ensures FirstOf([o], wanted) == if wanted(o) then Some(0) else None
    ensures FirstOf([], wanted) == None
  {
    assert [o, p][..1] == [o] && [o][..0] == [];
  }

  lemma Slices(x: Item, o: BinaryOp, y: Item, p: BinaryOp, z: Item)
    ensures [x, y][..1] == [x] && [x, y][1..] == [y] && [o][..0] == [] && [o][1..] == []
    ensures [y, z][..1] == [y] && [y, z][1..] == [z] && [p][..0] == [] && [p][1..] == []
    ensures [x, y, z][..1] == [x] && [x, y, z][1..] == [y, z] && [x, y, z][..2] == [x, y] && [x, y, z][2..] == [z]
    ensures [o, p][..1] == [o] && [o, p][1..] == [p] && [o, p][2..] == [] && [o, p][..0] == []
    ensures Bare([x, y, z]) == [x.(nots := 0), y, z] && Bare([x, y]) == [x.(nots := 0), y] && Bare([x]) == [x.(nots := 0)]
  {
  }

  lemma ArithmeticOfTwo(x: Item, o: BinaryOp, y: Item, p: BinaryOp, z: Item)
    ensures Arithmetic([x], []) == x.node
    ensures Sums(o) || IsProduct(o) ==> Arithmetic([x, y], [o]) == Binary(o, x.node, y.node)
    ensures Sums(o) && IsProduct(p) ==> Arithmetic([x, y, z], [o, p]) == Binary(o, x.node, Binary(p, y.node, z.node))
    ensures (Sums(o) || IsProduct(o)) && (Sums(p) || IsProduct(p)) && !(Sums(o) && IsProduct(p)) ==>
              Arithmetic([x, y, z], [o, p]) == Binary(p, Binary(o, x.node, y.node), z.node)
  {
    LastOfTwo(o, p, Sums);
    LastOfTwo(p, o, Sums);
    Slices(x, o, y, o, y);
    Slices(x, o, y, p, z);
  }

  predicate Computes(op: BinaryOp) { Sums(op) || IsProduct(op) }

  lemma RelationOfTwo(x: Item, o: BinaryOp, y: Item, p: BinaryOp, z: Item)
    requires IsPlain(x) && IsPlain(y) && IsPlain(z)
    ensures Relation([x], []) == Some(x.node)
    ensures Computes(o) || Compares(o) ==> Relation([x, y], [o]) == Some(Binary(o, x.node, y.node))
    ensures Compares(o) && Computes(p) ==> Relation([x, y, z], [o, p]) == Some(Binary(o, x.node, Binary(p, y.node, z.node)))
    ensures Computes(o) && Compares(p) ==> Relation([x, y, z], [o, p]) == Some(Binary(p, Binary(o, x.node, y.node), z.node))
    ensures Compares(o) && Compares(p) ==> Relation([x, y, z], [o, p]) == None
    ensures Computes(o) && Computes(p) ==> Relation([x, y, z], [o, p]) == Some(Arithmetic([x, y, z], [o, p]))
  {
    hide Arithmetic, LastOf, FirstOf, Bare;
    LastOfTwo(o, p, Compares);
    LastOfTwo(p, o, Compares);
    ArithmeticOfTwo(x, o, y, p, z);
    ArithmeticOfTwo(y, p, z, o, x);
    ArithmeticOfTwo(z, p, y, o, x);
    Slices(x, o, y, p, z);
  }

  predicate Connects(op: BinaryOp) { op == And || op == Or }

  lemma GroupedUnfolds(items: seq<Item>, ops: seq<BinaryOp>)
    requires |items| == |ops| + 1
    ensures LastOf(ops, IsOr).Some? ==>
              var k := LastOf(ops, IsOr).value;
              Grouped(items, ops) == Joined(Or, Grouped(items[..k + 1], ops[..k]), Grouped(items[k + 1..], ops[k + 1..]))
    ensures LastOf(ops, IsOr).None? && LastOf(ops, IsAnd).Some? ==>
              var k := LastOf(ops, IsAnd).value;
              Grouped(items, ops) == Joined(And, Grouped(items[..k + 1], ops[..k]), Grouped(items[k + 1..], ops[k + 1..]))
    ensures LastOf(ops, IsOr).None? && LastOf(ops, IsAnd).None? ==>
              Grouped(items, ops) == Negated(items[0].nots, Relation(Bare(items), ops))
  {
    hide Relation, LastOf, FirstOf, Bare, Arithmetic, Flat;
  }

  lemma GroupedOfTwo(x: Item, o: BinaryOp, y: Item, p: BinaryOp, z: Item)
    requires IsPlain(x) && IsPlain(y) && IsPlain(z)
    ensures !Connects(o) && !Connects(p) ==> Grouped([x, y, z], [o, p]) == Relation([x, y, z], [o, p])
    ensures o == Or && p == And ==> Grouped([x, y, z], [o, p]) == Some(Binary(Or, x.node, Binary(And, y.node, z.node)))
    ensures o == And && p == Or ==> Grouped([x, y, z], [o, p]) == Some(Binary(Or, Binary(And, x.node, y.node), z.node))
    ensures Connects(o) && o == p ==> Grouped([x, y, z], [o, p]) == Some(Binary(p, Binary(o, x.node, y.node), z.node))
    ensures Connects(o) && !Connects(p) ==> Grouped([x, y, z], [o, p]) == Some(Binary(o, x.node, Binary(p, y.node, z.node)))
    ensures !Connects(o) && Connects(p) ==> Grouped([x, y, z], [o, p]) == Some(Binary(p, Binary(o, x.node, y.node), z.node))
  {
    hide Grouped, Relation, LastOf, FirstOf, Bare;
    GroupedOfOne(x, o, y);
    GroupedOfOne(y, p, z);
    GroupedOfOne(z, p, y);
    GroupedUnfolds([x, y, z], [o, p]);
    LastOfTwo(o, p, IsOr);
    LastOfTwo(o, p, IsAnd);
    Slices(x, o, y, p, z);
  }

  lemma GroupedOfOne(x: Item, o: BinaryOp, y: Item)
    requires IsPlain(y)
    ensures Grouped([x], []) == Negated(x.nots, Some(x.node))
    ensures Connects(o) ==> Grouped([x, y], [o]) == Joined(o, Negated(x.nots, Some(x.node)), Some(y.node))
    ensures !Connects(o) ==> Grouped([x, y], [o]) == Negated(x.nots, Some(Binary(o, x.node, y.node)))
  {
    hide Grouped, Relation, LastOf, FirstOf, Bare;
    var bare := x.(nots := 0);
    GroupedUnfolds([x], []);
    GroupedUnfolds([y], []);
    GroupedUnfolds([x, y], [o]);
    Slices(y, o, y, o, y);
    RelationOfTwo(bare, o, y, o, y);
    RelationOfTwo(y, o, y, o, y);
    LastOfTwo(o, o, IsOr);
    LastOfTwo(o, o, IsAnd);
    Slices(x, o, y, o, y);
  }

  /** Two operators in a row: AND binds tighter than OR, a comparison tighter than both, a sum
      tighter than a comparison and a product tighter than a sum; within one level the first
      operator is applied first, and comparisons are not chained. */
  lemma TwoOperators(x: Item, o: BinaryOp, y: Item, p: BinaryOp, z: Item)
    requires IsPlain(x) && IsPlain(y) && IsPlain(z)
    requires IsOperand(x.text, x.node) && IsOperand(y.text, y.node) && IsOperand(z.text, z.node)
    ensures var r := ParseFormula(x.text + [Operator(o)] + y.text + [Operator(p)] + z.text);
            var first := Tree(Binary(p, Binary(o, x.node, y.node), z.node));
            var second := Tree(Binary(o, x.node, Binary(p, y.node, z.node)));
            && (o == Or && p == And ==> r == second)
            && (o == And && p == Or ==> r == first)
            && (o in {And, Or} && p in {Gt, Ge, Lt, Le, Eq, Ne, Add, Sub, Mul, Div} ==> r == second)
            && (o in {Gt, Ge, Lt, Le, Eq, Ne, Add, Sub, Mul, Div} && p in {And, Or} ==> r == first)
            && (o in {Gt, Ge, Lt, Le, Eq, Ne} && p in {Add, Sub, Mul, Div} ==> r == second)
            && (o in {Add, Sub, Mul, Div} && p in {Gt, Ge, Lt, Le, Eq, Ne} ==> r == first)
            && (o in {Add, Sub} && p in {Mul, Div} ==> r == second)
            && (o in {Mul, Div} && p in {Add, Sub} ==> r == first)
            && ((o == p == Or) || (o == p == And) ==> r == first)
            && ((o in {Add, Sub} && p in {Add, Sub}) || (o in {Mul, Div} && p in {Mul, Div}) ==> r == first)
            && (o in {Gt, Ge, Lt, Le, Eq, Ne} && p in {Gt, Ge, Lt, Le, Eq, Ne} ==> r == SyntaxError(ChainedComparison))
  {
    hide IsOperand, Grouped, Relation, Flat, ParseFormula, Arithmetic, LastOf, FirstOf, Bare;
    assert IsExpression([x, y, z], [o, p]);
    ExpressionsGroup([x, y, z], [o, p]);
    TwoIsFlat(x, o, y, p, z);
    GroupedOfTwo(x, o, y, p, z);
    RelationOfTwo(x, o, y, p, z);
    ArithmeticOfTwo(x, o, y, p, z);
  }

  /** NOT binds looser than a comparison or a sum and tighter than AND and OR; a sign binds
      tighter than every operator. */
  lemma NotAndSign(x: Item, o: BinaryOp, y: Item)
    requires IsPlain(x) && IsPlain(y) && IsOperand(x.text, x.node) && IsOperand(y.text, y.node)
    ensures var r := ParseFormula([NotToken] + x.text + [Operator(o)] + y.text);
            && (o in {Gt, Ge, Lt, Le, Eq, Ne, Add, Sub, Mul, Div} ==> r == Tree(Unary(Not, Binary(o, x.node, y.node))))
            && (o in {And, Or} ==> r == Tree(Binary(o, Unary(Not, x.node), y.node)))
    ensures o in {And, Or} ==>
              ParseFormula(x.text + [Operator(o), NotToken] + y.text) == Tree(Binary(o, x.node, Unary(Not, y.node)))
    ensures ParseFormula([Operator(Sub)] + x.text + [Operator(o)] + y.text) == Tree(Binary(o, Unary(Minus, x.node), y.node))
    ensures ParseFormula(x.text + [Operator(o), Operator(Sub)] + y.text) == Tree(Binary(o, x.node, Unary(Minus, y.node)))
  {
    hide IsOperand, ParseFormula;
    NotFirst(x, o, y);
    NotSecond(x, o, y);
    Signed(x, o, y);
  }

  lemma Signed(x: Item, o: BinaryOp, y: Item)
    requires IsPlain(x) && IsPlain(y) && IsOperand(x.text, x.node) && IsOperand(y.text, y.node)
    ensures ParseFormula([Operator(Sub)] + x.text + [Operator(o)] + y.text) == Tree(Binary(o, Unary(Minus, x.node), y.node))
    ensures ParseFormula(x.text + [Operator(o), Operator(Sub)] + y.text) == Tree(Binary(o, x.node, Unary(Minus, y.node)))
  {
    hide IsOperand, ParseFormula;
    SignedIsOperand(x.text, x.node);
    SignedIsOperand(y.text, y.node);
    Plain(Item(0, [Operator(Sub)] + x.text, Unary(Minus, x.node)), o, y);
    Plain(x, o, Item(0, [Operator(Sub)] + y.text, Unary(Minus, y.node)));
    assert x.text + [Operator(o)] + ([Operator(Sub)] + y.text) == x.text + [Operator(o), Operator(Sub)] + y.text;
  }

  lemma Plain(x: Item, o: BinaryOp, y: Item)
    requires IsPlain(x) && IsPlain(y) && IsOperand(x.text, x.node) && IsOperand(y.text, y.node)
    ensures ParseFormula(x.text + [Operator(o)] + y.text) == Tree(Binary(o, x.node, y.node))
  {
    hide IsOperand, Grouped, Relation, Flat, ParseFormula;
    assert IsExpression([x, y], [o]);
    ExpressionsGroup([x, y], [o]);
    TwoIsFlat(x, o, y, o, y);
    GroupedOfOne(x, o, y);
  }

  lemma NotFirst(x: Item, o: BinaryOp, y: Item)
    requires IsPlain(x) && IsPlain(y) && IsOperand(x.text, x.node) && IsOperand(y.text, y.node)
    ensures ParseFormula([NotToken] + x.text + [Operator(o)] + y.text) ==
            Tree(if Connects(o) then Binary(o, Unary(Not, x.node), y.node) else Unary(Not, Binary(o, x.node, y.node)))
  {
    hide IsOperand, Grouped, Relation, ParseFormula;
    var not := x.(nots := 1);
    assert IsExpression([not, y], [o]);
    ExpressionsGroup([not, y], [o]);
    GroupedOfOne(not, o, y);
    FlatEnds([not, y], [o]);
    FlatOne(not);
    assert [not, y][..1] == [not] && [o][..0] == [];
    assert NotTokens(1) == [NotToken] && NotTokens(0) == [] && [] + y.text == y.text;
    assert Negated(1, Some(x.node)) == Some(Unary(Not, x.node));
  }

  lemma NotSecond(x: Item, o: BinaryOp, y: Item)
    requires IsPlain(x) && IsPlain(y) && IsOperand(x.text, x.node) && IsOperand(y.text, y.node)
    ensures Connects(o) ==>
              ParseFormula(x.text + [Operator(o), NotToken] + y.text) == Tree(Binary(o, x.node, Unary(Not, y.node)))
  {
    hide IsOperand, Relation, ParseFormula, Grouped, LastOf, FirstOf, Bare;
    if Connects(o) {
      var not := y.(nots := 1);
      assert IsExpression([x, not], [o]);
      GroupedUnfolds([x, not], [o]);
      ExpressionsGroup([x, not], [o]);
      GroupedOfOne(x, o, x);
      GroupedOfOne(not, o, x);
      LastOfTwo(o, o, IsOr);
      LastOfTwo(o, o, IsAnd);
      FlatEnds([x, not], [o]);
      FlatOne(x);
      Slices(x, o, not, o, not);
      assert NotTokens(1) == [NotToken] && NotTokens(0) == [];
      assert x.text + [Operator(o)] + ([NotToken] + y.text) == x.text + [Operator(o), NotToken] + y.text;
      assert Negated(1, Some(y.node)) == Some(Unary(Not, y.node));
    }
  }
}
