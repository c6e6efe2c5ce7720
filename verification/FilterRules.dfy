/** Which filters are accepted, which span fields are scopes, and what trees of filters mean,
    spelled out. */
module FilterRules {
  import opened Fields
  import opened Filters
  import opened FilterSql
  import opened FieldCatalog
  import opened FilterCompiler
  import opened FilterMeaning
  import opened FilterProperties
  import opened Results
  import opened Strings

  // ----- validation -----

  /** Characters of a text that take more than one, two or three bytes. */
  function From(s: string, bound: char): nat
  {
    if s == "" then 0 else From(s[..|s| - 1], bound) + if s[|s| - 1] >= bound then 1 else 0
  }

  function Bytes(s: string): nat { |s| + From(s, '\U{0080}') + From(s, '\U{0800}') + From(s, '\U{10000}') }

  lemma {:induction false} BytesAre(s: string)
    ensures Utf8Length(s) == Bytes(s)
  {
    if s != "" {
      BytesAre(s[..|s| - 1]);
    }
  }

  predicate HasText(s: string) { exists i :: 0 <= i < |s| && !IsSpace(s[i]) }

  lemma {:induction false} TextRemains(s: string)
    ensures TrimSpace(s) != "" <==> HasText(s)
  {
    LeftTextRemains(s);
    RightTextRemains(TrimLeft(s));
  }

  lemma {:induction false} LeftTextRemains(s: string)
    ensures HasText(TrimLeft(s)) <==> HasText(s)
    ensures TrimLeft(s) != "" ==> HasText(s)
  {
    if s != "" && IsSpace(s[0]) {
      LeftTextRemains(s[1..]);
      if HasText(s) {
        var i :| 0 <= i < |s| && !IsSpace(s[i]);
        assert s[1..][i - 1] == s[i];
      }
      if HasText(s[1..]) {
        var i :| 0 <= i < |s[1..]| && !IsSpace(s[1..][i]);
        assert s[i + 1] == s[1..][i];
      }
    }
  }

  lemma {:induction false} RightTextRemains(s: string)
    ensures TrimRight(s) != "" <==> HasText(s)
  {
    if s != "" && IsSpace(s[|s| - 1]) {
      RightTextRemains(s[..|s| - 1]);
      if HasText(s) {
        var i :| 0 <= i < |s| && !IsSpace(s[i]);
        assert s[..|s| - 1][i] == s[i];
      }
    }
  }

  predicate IsFinite(x: Float) { x.Finite? }

  /** A predicate is accepted exactly when its field has a name and its operand is what its
      operator and the type of the field ask for. */
  lemma ValidatedExactly(p: FilterNode, compiles: string -> bool)
    requires p.Predicate?
    ensures var (v, typ) := (p.operand, p.field.typ);
            PredicateError(p, compiles).None? <==>
              && HasText(p.field.name)
              && match p.op
                 case Equal | NotEqual | GreaterThan | GreaterEq | LessThan | LessEq =>
                   (match typ
                    case StringType => v.kind == StringKind
                    case NumberType => v.kind == NumberKind && IsFinite(v.number)
                    case BoolType => v.kind == BoolKind)
                 case In | NotIn =>
                   && (forall k :: 0 <= k < |v.numbers| ==> IsFinite(v.numbers[k]))
                   && (match typ
                       case StringType => v.kind == StringList && v.strings != []
                       case NumberType => v.kind == NumberList && v.numbers != []
                       case BoolType => v.kind == BoolList && v.bools != [])
                 case Exists | NotExists => v.kind == NoValue
                 case Regexp | NotRegexp =>
                   typ == StringType && v.kind == StringKind && HasText(v.text) && Bytes(v.text) <= 1024 && compiles(v.text)
                 case UnknownOp => false
                 case _ => typ == StringType && v.kind == StringKind && HasText(v.text) && Bytes(v.text) <= 1024
  {
    TextRemains(p.field.name);
    TextRemains(p.operand.text);
    BytesAre(p.operand.text);
    hide TrimSpace, HasText, Utf8Length, Bytes;
  }

  // ----- scopes of traces -----

  /** The letters of a name, in any case. */
  predicate Spells(name: string, word: string)
  {
    |name| == |word| && forall i :: 0 <= i < |name| ==> IsLetter(name[i], word[i])
  }

  predicate IsLetter(c: char, letter: char)
  {
    c == letter || ('A' <= c <= 'Z' && c as int + 32 == letter as int) || (c == '\U{0130}' && letter == 'i')
  }

  lemma SpelledLower(name: string, word: string)
    requires forall i :: 0 <= i < |word| ==> 'a' <= word[i] <= 'z'
    ensures ToLower(name) == word <==> Spells(name, word)
  {
  }

  /** A test for a root or an entry point, which must be an equality with true. */
  predicate AsksForScope(p: FilterNode)
    requires p.Predicate?
  {
    p.field.typ == BoolType && p.op == Equal && p.operand.kind == BoolKind && p.operand.truth
  }

  /** A root has no parent; an entry point has a remote one and serves or consumes. */
  lemma ScopeFields(g: Engine, row: Row, p: FilterNode)
    requires p.Predicate? && p.field.context == Span && WellTyped(row)
    ensures Spells(p.field.name, "isroot") ==>
              if AsksForScope(p) then Selects(g, row, Traces, p) <==> row.columns("parent_span_id") == Str("")
              else Compile(Traces, p).Failure?
    ensures Spells(p.field.name, "isentrypoint") ==>
              if AsksForScope(p) then
                Selects(g, row, Traces, p) <==>
                  && row.columns("parent_span_id") != Str("") && row.columns("is_remote") == Str("yes")
                  && row.columns("kind") in {Num(Finite(2.0)), Num(Finite(5.0))}
              else Compile(Traces, p).Failure?
  {
    SpelledLower(p.field.name, "isroot");
    SpelledLower(p.field.name, "isentrypoint");
    hide ToLower, Spells;
    var scope := ScopeOf(Traces, p.field);
    if scope.Some? && AsksForScope(p) {
      SpanColumnTypes(row);
      ScopeSelects(g, row, p, scope.value);
    }
    hide Selects, WellTyped;
  }

  lemma ScopeSelects(g: Engine, row: Row, p: FilterNode, scope: TraceScope)
    requires p.Predicate? && AsksForScope(p) && ScopeOf(Traces, p.field) == Some(scope)
    requires row.columns("parent_span_id").Str? && row.columns("kind").Num? && row.columns("is_remote").Str?
    ensures Selects(g, row, Traces, p) <==> InScope(row, scope)
  {
    ScopeSays(g, row, scope, p, []);
    hide EvalSql, InScope, ScopeOf;
    var c := CompileScope(scope, p).value;
    assert c.args + [] == c.args;
    assert Compile(Traces, p) == Success(c);
  }

  /** A span field is a scope under these two names only, and no other context has scopes. */
  lemma ScopesAre(signal: Signal, f: FieldRef)
    ensures ScopeOf(signal, f).Some? <==>
              signal == Traces && f.context == Span && (Spells(f.name, "isroot") || Spells(f.name, "isentrypoint"))
  {
    SpelledLower(f.name, "isroot");
    SpelledLower(f.name, "isentrypoint");
  }

  // ----- trees -----

  predicate IsUsable(row: Row, signal: Signal, node: FilterNode, compiles: string -> bool)
  {
    WellFormed(node, compiles) && Complete(node) && Compile(signal, node).Success?
  }

  /** A conjunction selects the rows all of its items select, a disjunction those any does. */
  lemma TreeMeans(g: Engine, row: Row, signal: Signal, op: LogicalOp, items: seq<FilterNode>, compiles: string -> bool)
    requires WellTyped(row) && IsUsable(row, signal, Logical(op, items), compiles)
    ensures op == AllOf ==>
              (Selects(g, row, signal, Logical(op, items)) <==> forall i :: 0 <= i < |items| ==> Selects(g, row, signal, items[i]))
    ensures op == AnyOf ==>
              (Selects(g, row, signal, Logical(op, items)) <==> exists i :: 0 <= i < |items| && Selects(g, row, signal, items[i]))
  {
    hide WellTyped, Selects;
    SelectsAccepted(g, row, signal, Logical(op, items), compiles);
    forall i | 0 <= i < |items| ensures Selects(g, row, signal, items[i]) <==> Accepts(g, row, signal, items[i]) {
      ItemCompiles(signal, items, i);
      SelectsAccepted(g, row, signal, items[i], compiles);
    }
    hide Compile;
  }

  lemma SelectsAccepted(g: Engine, row: Row, signal: Signal, node: FilterNode, compiles: string -> bool)
    requires WellTyped(row) && IsUsable(row, signal, node, compiles)
    ensures Selects(g, row, signal, node) <==> Accepts(g, row, signal, node)
  {
    hide WellTyped, Accepts, EvalSql, Compile, WellFormed, Complete;
    FilterPreservesMeaning(g, row, signal, node, compiles, []);
    var c := Compile(signal, node).value;
    assert c.args + [] == c.args;
  }

  lemma {:induction false} ItemCompiles(signal: Signal, items: seq<FilterNode>, i: nat)
    requires i < |items| && CompileAll(signal, items).Success?
    ensures Compile(signal, items[i]).Success?
    decreases |items|
  {
    hide Compile;
    if i < |items| - 1 {
      ItemCompiles(signal, items[..|items| - 1], i);
    }
  }
}
