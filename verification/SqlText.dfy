/** SQL text with placeholders. Each placeholder, and each embedded expression or condition,
    carries the values it is meant to receive; arguments are collected separately by the
    compilers and must turn out to be those values in text order. */
module SqlText {
  import opened Fields
  import opened Filters
  import opened FilterSql
  import opened FieldCatalog
  import opened FilterCompiler
  import opened Results

  datatype Direction = Ascending | Descending

  datatype TimeUnit = Nanos | Millis

  /** Fixed stretches of SQL, none of which holds a placeholder. */
  datatype Phrase =
    | Select | From(table: string) | Where | GroupBy | OrderBy | Limit | Offset
    | Comma | Open | Close | CloseAndOpen | AndOpen
    | Name(name: string) | Aliased(alias: string) | Numbered(prefix: string, index: nat)
    | Function(fn: string)
    | Since(unit: TimeUnit) | Before(unit: TimeUnit) | BucketOf(unit: TimeUnit) | Times
    | Compared(relation: Relation)
    | AfterTimestamp | AtTimestamp | AfterId
    | Sorted(key: string, direction: Direction) | SortedBy(direction: Direction) | SortedNumbered(prefix: string, index: nat, direction: Direction)
    | Cte(name: string) | EndCte | Fixed(text: string)

  datatype Piece = Word(phrase: Phrase) | Placeholder(want: Scalar) | Reading(e: Expr, wants: Args) | Testing(c: Sql, wants: Args)

  type Fragment = seq<Piece>

  // ----- placeholders -----

  function ExprSlots(e: Expr): nat
  {
    match e
    case Column(_) => 0
    case Literal(_) => 0
    case Slot => 1
    case Cast(inner) => ExprSlots(inner)
    case MapAt(_, _, key) => ExprSlots(key)
    case BodyPath(path) => ExprSlots(path)
  }

  function ListSlots(list: seq<Expr>): nat
  {
    if list == [] then 0 else ListSlots(list[..|list| - 1]) + ExprSlots(list[|list| - 1])
  }

  function SqlSlots(c: Sql): nat
    decreases c, 1
  {
    match c
    case Blank => 0
    case Flag(_) => 0
    case Compare(left, _, right) => ExprSlots(left) + ExprSlots(right)
    case Member(e, list, _) => ExprSlots(e) + ListSlots(list)
    case MapHas(_, key) => ExprSlots(key)
    case NotNull(e) => ExprSlots(e)
    case Position(e, pattern, _) => ExprSlots(e) + ExprSlots(pattern)
    case Matches(_, e, pattern) => ExprSlots(e) + ExprSlots(pattern)
    case Not(inner) => SqlSlots(inner)
    case And(parts) => PartSlots(parts)
    case Or(parts) => PartSlots(parts)
  }

  function PartSlots(parts: seq<Sql>): nat
    decreases parts, 0
  {
    if parts == [] then 0 else PartSlots(parts[..|parts| - 1]) + SqlSlots(parts[|parts| - 1])
  }

  /** An embedded piece wants one value for each of its placeholders. */
  predicate PieceAligned(p: Piece)
  {
    match p
    case Reading(e, wants) => ExprSlots(e) == |wants|
    case Testing(c, wants) => SqlSlots(c) == |wants|
    case _ => true
  }

  predicate Aligned(f: Fragment)
  {
    forall p :: p in f ==> PieceAligned(p)
  }

  function PieceSlots(p: Piece): nat
  {
    match p
    case Word(_) => 0
    case Placeholder(_) => 1
    case Reading(e, _) => ExprSlots(e)
    case Testing(c, _) => SqlSlots(c)
  }

  /** How many placeholders a text holds. */
  function Slots(f: Fragment): nat
  {
    if f == [] then 0 else Slots(f[..|f| - 1]) + PieceSlots(f[|f| - 1])
  }

  function PieceWants(p: Piece): Args
  {
    match p
    case Word(_) => []
    case Placeholder(want) => [want]
    case Reading(_, wants) => wants
    case Testing(_, wants) => wants
  }

  /** The values meant for the placeholders, in text order. */
  function Wants(f: Fragment): Args
  {
    if f == [] then [] else Wants(f[..|f| - 1]) + PieceWants(f[|f| - 1])
  }

  lemma {:induction false} SlotsAreWanted(f: Fragment)
    requires Aligned(f)
    ensures Slots(f) == |Wants(f)|
  {
    if f != [] {
      var before, last := f[..|f| - 1], f[|f| - 1];
      assert PieceAligned(last) && PieceSlots(last) == |PieceWants(last)|;
      hide PieceAligned, PieceSlots, PieceWants;
      assert Aligned(before) by { assert forall p :: p in before ==> p in f; }
      SlotsAreWanted(before);
    }
  }

  lemma {:induction false} WantsAppend(a: Fragment, b: Fragment)
    ensures Wants(a + b) == Wants(a) + Wants(b)
    ensures Aligned(a) && Aligned(b) ==> Aligned(a + b)
  {
    hide PieceWants, PieceAligned;
    if b == [] {
      assert a + b == a;
    } else {
      WantsAppend(a, b[..|b| - 1]);
      assert (a + b)[..|a + b| - 1] == a + b[..|b| - 1];
    }
  }

  lemma WantsOne(p: Piece)
    ensures Wants([p]) == PieceWants(p) && Wants([]) == []
    ensures PieceAligned(p) ==> Aligned([p])
    ensures Aligned([])
  {
    assert [p][..0] == [];
  }

  /** Fixed text followed by one placeholder. */
  function Bind(phrase: Phrase, want: Scalar): Fragment { [Word(phrase), Placeholder(want)] }

  lemma WantsBind(phrase: Phrase, want: Scalar)
    ensures Wants(Bind(phrase, want)) == [want] && Aligned(Bind(phrase, want))
  {
    var f := Bind(phrase, want);
    assert f[..1] == [Word(phrase)];
    WantsOne(Word(phrase));
    assert [] + [want] == [want];
  }

  lemma WantsWord(phrase: Phrase)
    ensures Wants([Word(phrase)]) == [] && Aligned([Word(phrase)])
  {
    WantsOne(Word(phrase));
  }

  // ----- lists -----

  function Joined(parts: seq<Fragment>): Fragment
  {
    if parts == [] then []
    else if |parts| == 1 then parts[0]
    else Joined(parts[..|parts| - 1]) + [Word(Comma)] + parts[|parts| - 1]
  }

  function WantsOfAll(parts: seq<Fragment>): Args
  {
    if parts == [] then [] else WantsOfAll(parts[..|parts| - 1]) + Wants(parts[|parts| - 1])
  }

  predicate AllAligned(parts: seq<Fragment>)
  {
    forall f :: f in parts ==> Aligned(f)
  }

  lemma NothingAligned()
    ensures AllAligned([]) && WantsOfAll([]) == []
  {
  }

  lemma WantsCommaAppend(a: Fragment, b: Fragment)
    ensures Wants(a + [Word(Comma)] + b) == Wants(a) + Wants(b)
    ensures Aligned(a) && Aligned(b) ==> Aligned(a + [Word(Comma)] + b)
  {
    WantsOne(Word(Comma));
    assert PieceAligned(Word(Comma)) && PieceWants(Word(Comma)) == [];
    hide Wants, Aligned, PieceWants, PieceAligned;
    WantsAppend(a, [Word(Comma)]);
    WantsAppend(a + [Word(Comma)], b);
    assert Wants(a) + [] == Wants(a);
  }

  lemma AlignedParts(parts: seq<Fragment>, last: Fragment)
    ensures AllAligned(parts + [last]) <==> AllAligned(parts) && Aligned(last)
  {
    hide Aligned;
    assert forall f :: f in parts + [last] <==> f in parts || f == last;
  }

  lemma {:induction false} WantsJoined(parts: seq<Fragment>)
    ensures Wants(Joined(parts)) == WantsOfAll(parts)
    ensures AllAligned(parts) ==> Aligned(Joined(parts))
  {
    WantsOne(Word(Comma));
    hide Wants, Aligned, AllAligned;
    if parts != [] {
      var before, last := parts[..|parts| - 1], parts[|parts| - 1];
      assert parts == before + [last];
      AlignedParts(before, last);
      WantsJoined(before);
      WantsCommaAppend(Joined(before), last);
      if |parts| == 1 { assert before == []; }
    }
  }

  // ----- embedded fields and filters -----

  lemma {:induction false} ManySlots(n: nat)
    ensures ListSlots(FilterCompiler.Slots(n)) == n
  {
    if n > 0 {
      ManySlots(n - 1);
      assert FilterCompiler.Slots(n)[..n - 1] == FilterCompiler.Slots(n - 1);
    }
  }

  lemma RenderedSlots(loc: Location)
    ensures ExprSlots(Render(loc).sql) == |Render(loc).args| && SqlSlots(Render(loc).existsSql) == |Render(loc).existsArgs|
  {
  }

  lemma GuardedSlots(field: ResolvedField, condition: Sql, args: Args, guard: bool)
    requires SqlSlots(field.existsSql) == |field.existsArgs|
    requires SqlSlots(condition) == |field.args| + |args|
    ensures var c := Guarded(field, condition, args, guard); SqlSlots(c.sql) == |c.args|
  {
    BothSlots(field.existsSql, condition);
    hide SqlSlots;
  }

  lemma BothSlots(a: Sql, b: Sql)
    ensures SqlSlots(And([a, b])) == SqlSlots(a) + SqlSlots(b)
  {
    assert SqlSlots(And([a, b])) == PartSlots([a, b]);
    hide SqlSlots;
    assert [a, b][..1] == [a] && [a][..0] == [];
    assert PartSlots([a]) == SqlSlots(a);
  }

  predicate FieldSlots(field: ResolvedField)
  {
    ExprSlots(field.sql) == |field.args| && SqlSlots(field.existsSql) == |field.existsArgs|
  }

  predicate CompiledSlots(c: Compiled) { SqlSlots(c.sql) == |c.args| }

  lemma PatternSlots(field: ResolvedField, p: FilterNode)
    requires p.Predicate? && IsPatternOp(p.op) && FieldSlots(field)
    ensures CompilePredicate(field, p).Success? && CompiledSlots(CompilePredicate(field, p).value)
  {
    hide Guarded;
    var pattern, sql := [Str(p.operand.text)], field.sql;
    if p.op == Contains || p.op == NotContains {
      GuardedSlots(field, Position(sql, Slot, p.op == Contains), pattern, p.op == Contains);
    } else {
      var how := if p.op == Like || p.op == NotLike then LikePattern
                 else if p.op == ILike || p.op == NotILike then ILikePattern else RegexpPattern;
      var positive := p.op == Like || p.op == ILike || p.op == Regexp;
      var matching := Matches(how, sql, Slot);
      GuardedSlots(field, if positive then matching else Not(matching), pattern, positive);
    }
  }

  lemma ValueSlots(field: ResolvedField, p: FilterNode)
    requires p.Predicate? && !IsPatternOp(p.op) && FieldSlots(field) && CompilePredicate(field, p).Success?
    ensures CompiledSlots(CompilePredicate(field, p).value)
  {
    hide Guarded, ListValues, ScalarOf, RelationOf;
    if IsScalarOp(p.op) {
      var value := if field.castComparison then Cast(Slot) else Slot;
      GuardedSlots(field, Compare(field.sql, RelationOf(p.op), value), [ScalarOf(p.operand)], p.op != NotEqual);
    } else if p.op == In || p.op == NotIn {
      var values := ListValues(p.operand);
      ManySlots(|values|);
      GuardedSlots(field, Member(field.sql, FilterCompiler.Slots(|values|), p.op == NotIn), values, p.op == In);
    }
  }

  lemma ScopeSlots(scope: TraceScope, p: FilterNode)
    requires p.Predicate? && CompileScope(scope, p).Success?
    ensures var c := CompileScope(scope, p).value; SqlSlots(c.sql) == |c.args|
  {
    if scope.EntrypointScope? {
      var parts := CompileScope(scope, p).value.sql.parts;
      var list := parts[1].list;
      assert ListSlots(list) == 0 by { assert list[..1][..0] == []; assert ListSlots(list[..1]) == 0; }
      assert parts[..2][..1] == parts[..1] && parts[..1][..0] == [];
      assert PartSlots(parts[..1]) == 0 && PartSlots(parts[..2]) == 0;
    }
  }

  lemma LeafSlots(signal: Signal, p: FilterNode)
    requires p.Predicate? && CompileLeaf(signal, p).Success?
    ensures var c := CompileLeaf(signal, p).value; SqlSlots(c.sql) == |c.args|
  {
    hide Locate, ScopeOf, Render, CompilePredicate, CompileScope, SqlSlots;
    if ScopeOf(signal, p.field).Some? {
      ScopeSlots(ScopeOf(signal, p.field).value, p);
    } else {
      var loc := Locate(signal, p.field).value;
      RenderedSlots(loc);
      assert FieldSlots(Render(loc));
      if IsPatternOp(p.op) { PatternSlots(Render(loc), p); } else { ValueSlots(Render(loc), p); }
    }
  }

  /** A compiled filter has one argument for each of its placeholders. */
  lemma {:induction false} FilterSlots(signal: Signal, node: FilterNode)
    requires Compile(signal, node).Success?
    ensures var c := Compile(signal, node).value; SqlSlots(c.sql) == |c.args|
    decreases node, 1
  {
    hide CompileLeaf, PartSlots;
    match node
    case NilFilter =>
    case Logical(_, items) => AllSlots(signal, items);
    case Predicate(_, _, _) => LeafSlots(signal, node);
  }

  lemma {:induction false} AllSlots(signal: Signal, items: seq<FilterNode>)
    requires CompileAll(signal, items).Success?
    ensures var all := CompileAll(signal, items).value; PartSlots(all.0) == |all.1|
    decreases items, 0
  {
    hide Compile, SqlSlots;
    if items != [] {
      var last := |items| - 1;
      AllSlots(signal, items[..last]);
      FilterSlots(signal, items[last]);
      var before, c := CompileAll(signal, items[..last]).value, Compile(signal, items[last]).value;
      assert (before.0 + [c.sql])[..|before.0|] == before.0;
    }
  }
}
