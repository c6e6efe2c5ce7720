/** Filter trees and their validation under depth and node budgets. */
module Filters {
  import opened Fields
  import opened Results
  import opened Strings

  datatype FilterOp =
    | Equal | NotEqual | GreaterThan | GreaterEq | LessThan | LessEq
    | In | NotIn | Exists | NotExists
    | Contains | NotContains | Like | NotLike | ILike | NotILike | Regexp | NotRegexp
    | UnknownOp

  datatype ValueKind = NoValue | StringKind | NumberKind | BoolKind | StringList | NumberList | BoolList

  datatype Float = Finite(x: real) | NotFinite

  /** The operand of a predicate. All parts are there whatever the kind is. */
  datatype Operand = Operand(
    kind: ValueKind,
    text: string,
    number: Float,
    truth: bool,
    strings: seq<string>,
    numbers: seq<Float>,
    bools: seq<bool>)

  datatype LogicalOp = AllOf | AnyOf | UnknownLogical

  datatype FilterNode =
    | NilFilter
    | Logical(operator: LogicalOp, items: seq<FilterNode>)
    | Predicate(field: FieldRef, op: FilterOp, operand: Operand)

  datatype FilterError = TooDeep | TooManyNodes | BadOperator | TooFewItems | BadField | BadOperand | PatternTooLong | BadPattern

  const MAX_PATTERN_LENGTH := 1024

  // ----- predicates -----

  function Utf8Width(c: char): nat
  {
    if c < '\U{0080}' then 1 else if c < '\U{0800}' then 2 else if c < '\U{10000}' then 3 else 4
  }

  function Utf8Length(s: string): nat
  {
    if s == "" then 0 else Utf8Length(s[..|s| - 1]) + Utf8Width(s[|s| - 1])
  }

  predicate ValidField(field: FieldRef) { TrimSpace(field.name) != "" }

  predicate KindMatches(kind: ValueKind, typ: ValueType)
  {
    || (kind == StringKind && typ == StringType)
    || (kind == NumberKind && typ == NumberType)
    || (kind == BoolKind && typ == BoolType)
  }

  predicate ListMatches(v: Operand, typ: ValueType)
  {
    || (v.kind == StringList && typ == StringType && v.strings != [])
    || (v.kind == NumberList && typ == NumberType && v.numbers != [])
    || (v.kind == BoolList && typ == BoolType && v.bools != [])
  }

  predicate IsScalarOp(op: FilterOp)
  {
    op == Equal || op == NotEqual || op == GreaterThan || op == GreaterEq || op == LessThan || op == LessEq
  }

  predicate IsPatternOp(op: FilterOp)
  {
    || op == Contains || op == NotContains || op == Like || op == NotLike
    || op == ILike || op == NotILike || op == Regexp || op == NotRegexp
  }

  predicate AllFinite(numbers: seq<Float>)
  {
    forall x :: x in numbers ==> x.Finite?
  }

  /** `compiles` tells which texts are regular expressions. */
  function PredicateError(p: FilterNode, compiles: string -> bool): Option<FilterError>
    requires p.Predicate?
  {
    var v := p.operand;
    if !ValidField(p.field) then Some(BadField)
    else if IsScalarOp(p.op) then
      if !KindMatches(v.kind, p.field.typ) then Some(BadOperand)
      else if v.kind == NumberKind && !v.number.Finite? then Some(BadOperand)
      else None
    else if p.op == In || p.op == NotIn then
      if !ListMatches(v, p.field.typ) || !AllFinite(v.numbers) then Some(BadOperand) else None
    else if p.op == Exists || p.op == NotExists then
      if v.kind != NoValue then Some(BadOperand) else None
    else if IsPatternOp(p.op) then
      if p.field.typ != StringType || v.kind != StringKind || TrimSpace(v.text) == "" then Some(BadOperand)
      else if Utf8Length(v.text) > MAX_PATTERN_LENGTH then Some(PatternTooLong)
      else if (p.op == Regexp || p.op == NotRegexp) && !compiles(v.text) then Some(BadPattern)
      else None
    else Some(BadOperator)
  }

  // ----- trees -----

  /** The tree without its budgets: every operator is known, every logical filter has two
      items or more, every predicate is valid. */
  predicate WellFormed(node: FilterNode, compiles: string -> bool)
  {
    match node
    case NilFilter => true
    case Logical(op, items) =>
      op != UnknownLogical && |items| >= 2 && forall i :: 0 <= i < |items| ==> WellFormed(items[i], compiles)
    case Predicate(_, _, _) => PredicateError(node, compiles).None?
  }

  function Size(node: FilterNode): nat
  {
    match node
    case NilFilter => 0
    case Logical(_, items) => 1 + SizeOfAll(items)
    case Predicate(_, _, _) => 1
  }

  function SizeOfAll(items: seq<FilterNode>): nat
  {
    if items == [] then 0 else SizeOfAll(items[..|items| - 1]) + Size(items[|items| - 1])
  }

  predicate WithinDepth(node: FilterNode, levels: int)
  {
    match node
    case NilFilter => true
    case Logical(_, items) => levels >= 1 && forall i :: 0 <= i < |items| ==> WithinDepth(items[i], levels - 1)
    case Predicate(_, _, _) => levels >= 1
  }

  lemma {:induction false} SizeGrows(items: seq<FilterNode>, k: nat)
    requires k <= |items|
    ensures SizeOfAll(items[..k]) <= SizeOfAll(items)
    decreases |items|
  {
    if k == |items| {
      assert items[..k] == items;
    } else {
      assert items[..|items| - 1][..k] == items[..k];
      SizeGrows(items[..|items| - 1], k);
    }
  }

  class FilterValidator {
    const compiles: string -> bool
    const maxDepth: int
    const maxNodes: int
    var depth: int
    var nodes: int

    constructor (compiles: string -> bool, maxDepth: int, maxNodes: int)
      ensures this.compiles == compiles && this.maxDepth == maxDepth && this.maxNodes == maxNodes
      ensures depth == 0 && nodes == 0
    {
      this.compiles, this.maxDepth, this.maxNodes := compiles, maxDepth, maxNodes;
      depth, nodes := 0, 0;
    }

    /** Accepts a node exactly when it is well formed and fits what is left of both
        budgets; the depth is always restored. */
    method Validate(node: FilterNode) returns (r: Option<FilterError>)
      requires depth <= maxDepth && nodes <= maxNodes
      modifies this
      ensures depth == old(depth)
      ensures r.None? <==>
        WellFormed(node, compiles) && WithinDepth(node, maxDepth - depth) && old(nodes) + Size(node) <= maxNodes
      ensures r.None? ==> nodes == old(nodes) + Size(node)
      decreases node
    {
      if node == NilFilter {
        return None;
      }
      depth := depth + 1;
      if depth > maxDepth {
        depth := depth - 1;
        return Some(TooDeep);
      }
      nodes := nodes + 1;
      if nodes > maxNodes {
        depth := depth - 1;
        return Some(TooManyNodes);
      }
      match node {
        case Logical(op, items) => r := ValidateItems(op, items);
        case Predicate(_, _, _) => r := PredicateError(node, compiles);
      }
      depth := depth - 1;
    }

    method ValidateItems(op: LogicalOp, items: seq<FilterNode>) returns (r: Option<FilterError>)
      requires depth <= maxDepth && nodes <= maxNodes
      modifies this
      ensures depth == old(depth)
      ensures r.None? <==>
        && op != UnknownLogical && |items| >= 2
        && (forall i :: 0 <= i < |items| ==> WellFormed(items[i], compiles) && WithinDepth(items[i], maxDepth - depth))
        && old(nodes) + SizeOfAll(items) <= maxNodes
      ensures r.None? ==> nodes == old(nodes) + SizeOfAll(items)
      decreases items
    {
      hide WellFormed, WithinDepth, Size;
      if op == UnknownLogical {
        return Some(BadOperator);
      }
      if |items| < 2 {
        return Some(TooFewItems);
      }
      for i := 0 to |items|
        invariant depth == old(depth)
        invariant forall k :: 0 <= k < i ==> WellFormed(items[k], compiles) && WithinDepth(items[k], maxDepth - depth)
        invariant nodes == old(nodes) + SizeOfAll(items[..i]) <= maxNodes
      {
        SizeGrows(items, i + 1);
        assert items[..i + 1][..i] == items[..i];
        var failure: Option<FilterError> := Validate(items[i]);
        if failure.Some? {
          return failure;
        }
      }
      assert items[..|items|] == items;
      r := None;
    }
  }
}
