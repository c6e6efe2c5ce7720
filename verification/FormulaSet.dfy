/** Analysis of a set of named formulas that may refer to each other in any order. */
module FormulaSet {
  import opened FormulaSyntax
  import opened FormulaParser
  import opened FormulaReader
  import opened FormulaTyping
  import opened FormulaSoundness
  import opened FormulaAnalysis
  import opened Results

  datatype Formula = Formula(name: string, expression: string)

  datatype ParsedFormula = ParsedFormula(root: Node, references: seq<string>)

  type ParsedSet = map<string, ParsedFormula>

  predicate IsLetter(c: char) { 'a' <= c <= 'z' || 'A' <= c <= 'Z' }

  predicate ValidName(name: string)
  {
    && name != "" && IsLetter(name[0])
    && forall i :: 0 < i < |name| ==> IsLetter(name[i]) || '0' <= name[i] <= '9' || name[i] == '_'
  }

  // ----- dependencies between formulas -----

  predicate Edge(parsed: ParsedSet, f: string, g: string)
  {
    f in parsed && g in parsed && g in References(parsed[f].root)
  }

  predicate IsWalk(parsed: ParsedSet, p: seq<string>)
  {
    forall i :: 0 <= i < |p| - 1 ==> Edge(parsed, p[i], p[i + 1])
  }

  predicate IsCycle(parsed: ParsedSet, p: seq<string>)
  {
    |p| >= 2 && p[0] == p[|p| - 1] && IsWalk(parsed, p)
  }

  ghost predicate HasCycle(parsed: ParsedSet)
  {
    exists p: seq<string> :: IsCycle(parsed, p)
  }

  /** Every formula listed depends only on formulas listed before it. */
  ghost predicate Ordered(parsed: ParsedSet, order: seq<string>)
  {
    forall i, g :: 0 <= i < |order| && Edge(parsed, order[i], g) ==> g in order[..i]
  }

  /** A dependency order of all formulas. */
  ghost predicate OrdersAll(parsed: ParsedSet, order: seq<string>)
  {
    Ordered(parsed, order) && forall f :: f in order <==> f in parsed
  }

  lemma WalkTail(parsed: ParsedSet, p: seq<string>)
    requires IsWalk(parsed, p) && p != []
    ensures IsWalk(parsed, p[1..])
  {
    var q := p[1..];
    forall i | 0 <= i < |q| - 1 ensures Edge(parsed, q[i], q[i + 1]) {
      assert Edge(parsed, p[i + 1], p[i + 2]);
    }
  }

  lemma {:induction false} WalkGoesBack(parsed: ParsedSet, order: seq<string>, p: seq<string>, i: nat)
    requires Ordered(parsed, order) && IsWalk(parsed, p) && |p| >= 2
    requires i < |order| && order[i] == p[0]
    ensures p[|p| - 1] in order[..i]
    decreases |p|
  {
    assert Edge(parsed, p[0], p[1]);
    var j :| 0 <= j < i && order[j] == p[1];
    if |p| > 2 {
      WalkTail(parsed, p);
      WalkGoesBack(parsed, order, p[1..], j);
      assert order[..j] <= order[..i];
    }
  }

  /** A dependency order leaves no room for a cycle. */
  lemma OrderExcludesCycles(parsed: ParsedSet, order: seq<string>)
    requires Ordered(parsed, order) && forall f :: f in parsed ==> f in order
    ensures !HasCycle(parsed)
  {
    if HasCycle(parsed) {
      var p :| IsCycle(parsed, p);
      assert Edge(parsed, p[0], p[1]);
      EarlierForever(parsed, order, p, |order|);
    }
  }

  lemma {:induction false} EarlierForever(parsed: ParsedSet, order: seq<string>, p: seq<string>, n: nat)
    requires Ordered(parsed, order) && IsCycle(parsed, p)
    requires n <= |order| && p[0] in order[..n]
    ensures false
    decreases n
  {
    var i :| 0 <= i < n && order[i] == p[0];
    WalkGoesBack(parsed, order, p, i);
    EarlierForever(parsed, order, p, i);
  }

  // ----- what a correct analysis is -----

  /** Bindings for the formulas themselves, each the inference of its formula when all of
      them are known. */
  ghost predicate Solves(parsed: ParsedSet, bindings: Environment, solution: Environment)
  {
    && solution.Keys == parsed.Keys
    && forall f :: f in parsed ==>
         var i := Infer(parsed[f].root, bindings + solution);
         i.Success? && solution[f] == Binding(i.value.typ, i.value.signature)
  }

  function BindingOf(f: TypedFormula): Binding { Binding(f.typ, f.signature) }

  function BindingsOf(results: map<string, TypedFormula>): Environment
  {
    map f | f in results :: BindingOf(results[f])
  }

  lemma {:induction false} SuccessResolves(n: Node, env: Environment)
    requires Infer(n, env).Success?
    ensures forall r :: r in References(n) ==> r in env
    decreases n, 1
  {
    hide InferUnary, InferBinary, InferCall;
    match n
    case Num(_) =>
    case Ref(_) =>
    case Unary(_, v) => SuccessResolves(v, env);
    case Binary(_, l, r) => SuccessResolves(l, env); SuccessResolves(r, env);
    case Call(_, args) => SuccessResolvesAll(args, env);
  }

  lemma {:induction false} SuccessResolvesAll(ns: seq<Node>, env: Environment)
    requires InferAll(ns, env).Success?
    ensures forall r :: r in ReferencesOfAll(ns) ==> r in env
    decreases ns, 0
  {
    if ns != [] {
      SuccessResolves(ns[0], env);
      SuccessResolvesAll(ns[1..], env);
    }
  }

  /** Inference only looks at the bindings of referenced names. */
  lemma {:induction false} InferAgrees(n: Node, a: Environment, b: Environment)
    requires forall r :: r in References(n) ==> (r in a <==> r in b) && (r in a ==> a[r] == b[r])
    ensures Infer(n, a) == Infer(n, b)
    decreases n, 1
  {
    hide InferUnary, InferBinary, InferCall;
    match n
    case Num(_) =>
    case Ref(name) => assert name in References(n);
    case Unary(_, v) => InferAgrees(v, a, b);
    case Binary(_, l, r) => InferAgrees(l, a, b); InferAgrees(r, a, b);
    case Call(_, args) => InferAgreesAll(args, a, b);
  }

  lemma {:induction false} InferAgreesAll(ns: seq<Node>, a: Environment, b: Environment)
    requires forall r :: r in ReferencesOfAll(ns) ==> (r in a <==> r in b) && (r in a ==> a[r] == b[r])
    ensures InferAll(ns, a) == InferAll(ns, b)
    decreases ns, 0
  {
    if ns != [] {
      InferAgrees(ns[0], a, b);
      InferAgreesAll(ns[1..], a, b);
    }
  }

  ghost predicate Extends(a: Environment, b: Environment)
  {
    forall r :: r in a ==> r in b && a[r] == b[r]
  }

  lemma InferExtends(n: Node, a: Environment, b: Environment)
    requires Extends(a, b) && Infer(n, a).Success?
    ensures Infer(n, b) == Infer(n, a)
  {
    SuccessResolves(n, a);
    InferAgrees(n, a, b);
  }

  lemma SoundExtends(types: map<Node, Inference>, a: Environment, b: Environment)
    requires Extends(a, b) && Sound(types, a)
    ensures Sound(types, b)
  {
    forall n | n in types ensures Infer(n, b) == Success(types[n]) {
      InferExtends(n, a, b);
    }
  }

  /** On an ordered set the solution is unique. */
  lemma {:induction false} SolutionsAgree(parsed: ParsedSet, bindings: Environment, order: seq<string>,
                                          s: Environment, t: Environment, n: nat)
    requires parsed.Keys !! bindings.Keys
    requires Ordered(parsed, order) && n <= |order| && forall f :: f in order ==> f in parsed
    requires Solves(parsed, bindings, s) && Solves(parsed, bindings, t)
    ensures forall i :: 0 <= i < n ==> s[order[i]] == t[order[i]]
  {
    hide Infer, References;
    if n > 0 {
      SolutionsAgree(parsed, bindings, order, s, t, n - 1);
      var f := order[n - 1];
      forall r | r in References(parsed[f].root)
        ensures r in bindings + s <==> r in bindings + t
        ensures r in bindings + s ==> (bindings + s)[r] == (bindings + t)[r]
      {
        if r in parsed { assert Edge(parsed, f, r); }
      }
      InferAgrees(parsed[f].root, bindings + s, bindings + t);
    }
  }

  // ----- the depth-first analyzer -----

  function Lift<T>(r: Result<T, TypeError>): Result<T, AnalysisError>
  {
    match r case Success(v) => Success(v) case Failure(e) => Failure(Typing(e))
  }

  lemma {:induction false} InferenceIsValid(n: Node, env: Environment)
    requires Infer(n, env).Success?
    ensures Infer(n, env).value.typ.Valid()
    decreases n, 1
  {
    hide CompatibleUnit, ProductUnit, QuotientUnit, ConstantInUnit;
    match n
    case Num(_) =>
    case Ref(_) =>
    case Unary(_, v) => InferenceIsValid(v, env);
    case Binary(_, _, _) =>
    case Call(fn, args) =>
      if fn == "abs" && |args| == 1 {
        InferenceIsValid(args[0], env);
        assert InferAll(args, env).value[0] == Infer(args[0], env).value;
      }
  }

  lemma CycleThrough(parsed: ParsedSet, path: seq<string>, name: string)
    requires IsWalk(parsed, path) && name in path
    requires Edge(parsed, path[|path| - 1], name)
    ensures HasCycle(parsed)
  {
    var k :| 0 <= k < |path| && path[k] == name;
    var p := path[k..] + [name];
    forall i | 0 <= i < |p| - 1 ensures Edge(parsed, p[i], p[i + 1]) {
      if i + 1 < |p| - 1 { assert Edge(parsed, path[k + i], path[k + i + 1]); }
    }
    assert IsCycle(parsed, p);
  }

  lemma WalkExtended(parsed: ParsedSet, path: seq<string>, name: string)
    requires IsWalk(parsed, path)
    requires path != [] ==> Edge(parsed, path[|path| - 1], name)
    ensures IsWalk(parsed, path + [name])
  {
    var p := path + [name];
    forall i | 0 <= i < |p| - 1 ensures Edge(parsed, p[i], p[i + 1]) {
      if i + 1 < |path| { assert Edge(parsed, path[i], path[i + 1]); }
    }
  }

  lemma {:induction false} InferAllPointwise(ns: seq<Node>, env: Environment, many: seq<Inference>)
    requires |many| == |ns| && forall k :: 0 <= k < |ns| ==> Infer(ns[k], env) == Success(many[k])
    ensures InferAll(ns, env) == Success(many)
  {
    hide Infer;
    if ns != [] {
      InferAllPointwise(ns[1..], env, many[1..]);
      assert many == [many[0]] + many[1..];
    }
  }

  lemma {:induction false} InferAllAt(ns: seq<Node>, env: Environment, k: nat)
    requires InferAll(ns, env).Success? && k < |ns|
    ensures Infer(ns[k], env) == Success(InferAll(ns, env).value[k])
  {
    hide Infer;
    if k > 0 {
      InferAllAt(ns[1..], env, k - 1);
    }
  }

  lemma {:induction false} ArgumentReferences(ns: seq<Node>, k: nat)
    requires k < |ns|
    ensures forall r :: r in References(ns[k]) ==> r in ReferencesOfAll(ns)
  {
    if k > 0 {
      ArgumentReferences(ns[1..], k - 1);
    }
  }

  /** A node whose children are recorded can be recorded. */
  lemma RecordOne(n: Node, i: Inference, types: map<Node, Inference>, env: Environment)
    requires Sound(types, env) && Closed(types) && ChildrenIn(n, types)
    requires Infer(n, env) == Success(i)
    ensures Sound(types[n := i], env) && Closed(types[n := i])
  {
    RecordKeepsClosed(types, n, i);
  }

  /** The formulas analyzed so far, their marks (1 while in progress, 2 when done) and the
      order in which they were finished fit together. */
  ghost predicate Consistent(parsed: ParsedSet, bindings: Environment, results: map<string, TypedFormula>,
                             state: map<string, nat>, order: seq<string>)
  {
    && parsed.Keys !! bindings.Keys
    && (forall f :: f in parsed ==> parsed[f].references == DistinctFrom({}, References(parsed[f].root)))
    && Marked(parsed, results, state)
    && (forall f :: f in results <==> f in order)
    && Ordered(parsed, order)
    && Recorded(parsed, results, bindings + BindingsOf(results))
  }

  ghost predicate Marked(parsed: ParsedSet, results: map<string, TypedFormula>, state: map<string, nat>)
  {
    && results.Keys <= parsed.Keys && state.Keys <= parsed.Keys
    && (forall f :: f in state ==> state[f] == 1 || state[f] == 2)
    && (forall f :: f in results <==> f in state && state[f] == 2)
  }

  ghost predicate Recorded(parsed: ParsedSet, results: map<string, TypedFormula>, env: Environment)
  {
    forall f :: f in results ==> f in parsed && Describes(results[f], parsed[f].root, env)
  }

  /** The formulas in progress form a walk of dependencies. */
  ghost predicate ActivePath(parsed: ParsedSet, state: map<string, nat>, path: seq<string>)
  {
    IsWalk(parsed, path) && forall f :: f in path <==> f in state && state[f] == 1
  }

  /** The results so far agree with a given solution, if there is one. */
  ghost predicate FollowsSolution(parsed: ParsedSet, bindings: Environment, results: map<string, TypedFormula>,
                                  solution: Option<Environment>)
  {
    solution.Some? ==>
      && Solves(parsed, bindings, solution.value)
      && forall f :: f in results ==> f in parsed && solution.value[f] == BindingOf(results[f])
  }

  lemma FollowingExtends(parsed: ParsedSet, bindings: Environment, results: map<string, TypedFormula>,
                         solution: Environment)
    requires FollowsSolution(parsed, bindings, results, Some(solution)) && parsed.Keys !! bindings.Keys
    ensures Extends(bindings + BindingsOf(results), bindings + solution)
  {
  }

  /** Starting a formula. */
  lemma StartKeeps(parsed: ParsedSet, bindings: Environment, results: map<string, TypedFormula>,
                   state: map<string, nat>, order: seq<string>, name: string, path: seq<string>)
    requires Consistent(parsed, bindings, results, state, order) && ActivePath(parsed, state, path)
    requires name in parsed && name !in state
    requires path != [] ==> Edge(parsed, path[|path| - 1], name)
    ensures Consistent(parsed, bindings, results, state[name := 1], order)
    ensures ActivePath(parsed, state[name := 1], path + [name])
  {
    hide Ordered, Recorded, Edge;
    WalkExtended(parsed, path, name);
    assert forall f :: f in path + [name] <==> f in path || f == name;
  }

  lemma OrderedExtended(parsed: ParsedSet, order: seq<string>, name: string)
    requires Ordered(parsed, order) && forall g :: Edge(parsed, name, g) ==> g in order
    ensures Ordered(parsed, order + [name])
  {
    var more := order + [name];
    forall i, g | 0 <= i < |more| && Edge(parsed, more[i], g) ensures g in more[..i] {
      assert i < |order| ==> more[..i] == order[..i];
      assert i == |order| ==> more[..i] == order;
    }
  }

  lemma DescribesExtends(f: TypedFormula, root: Node, a: Environment, b: Environment)
    requires Extends(a, b) && Describes(f, root, a)
    ensures Describes(f, root, b)
  {
    SoundExtends(f.types, a, b);
  }

  /** Finishing a formula. */
  lemma FinishKeeps(parsed: ParsedSet, bindings: Environment, results: map<string, TypedFormula>,
                    state: map<string, nat>, order: seq<string>, name: string, formula: TypedFormula)
    requires Consistent(parsed, bindings, results, state, order)
    requires name in parsed && name !in results && name in state
    requires Describes(formula, parsed[name].root, bindings + BindingsOf(results))
    ensures Extends(bindings + BindingsOf(results), bindings + BindingsOf(results[name := formula]))
    ensures Consistent(parsed, bindings, results[name := formula], state[name := 2], order + [name])
  {
    hide Describes, Ordered, Edge, Recorded, References, DistinctFrom;
    var a, b := bindings + BindingsOf(results), bindings + BindingsOf(results[name := formula]);
    FinishExtends(bindings, results, name, formula);
    FinishMarks(parsed, results, state, name, formula);
    hide Extends, Marked, BindingsOf;
    FinishRecords(parsed, results, name, formula, a, b);
    DescribesResolves(formula, parsed[name].root, a);
    KnownNames(bindings, results);
    FinishOrders(parsed, bindings, results, order, name);
    assert forall f :: f in order + [name] <==> f in order || f == name;
  }

  lemma KnownNames(bindings: Environment, results: map<string, TypedFormula>)
    ensures forall r :: r in bindings + BindingsOf(results) <==> r in bindings || r in results
  {
  }

  lemma FinishExtends(bindings: Environment, results: map<string, TypedFormula>, name: string, formula: TypedFormula)
    requires name !in results
    requires name !in bindings
    ensures Extends(bindings + BindingsOf(results), bindings + BindingsOf(results[name := formula]))
  {
  }

  lemma FinishMarks(parsed: ParsedSet, results: map<string, TypedFormula>, state: map<string, nat>, name: string, formula: TypedFormula)
    requires Marked(parsed, results, state) && name in parsed
    ensures Marked(parsed, results[name := formula], state[name := 2])
  {
  }

  lemma FinishOrders(parsed: ParsedSet, bindings: Environment, results: map<string, TypedFormula>,
                     order: seq<string>, name: string)
    requires parsed.Keys !! bindings.Keys && Ordered(parsed, order)
    requires forall f :: f in results ==> f in order
    requires name in parsed && forall r :: r in References(parsed[name].root) ==> r in bindings || r in results
    ensures Ordered(parsed, order + [name])
  {
    assert forall g :: Edge(parsed, name, g) ==> g in order;
    OrderedExtended(parsed, order, name);
  }

  lemma FinishRecords(parsed: ParsedSet, results: map<string, TypedFormula>, name: string, formula: TypedFormula,
                      a: Environment, b: Environment)
    requires Extends(a, b) && Recorded(parsed, results, a)
    requires name in parsed && Describes(formula, parsed[name].root, a)
    ensures Recorded(parsed, results[name := formula], b)
  {
    hide Describes;
    DescribesExtends(formula, parsed[name].root, a, b);
    forall f | f in results ensures Describes(results[f], parsed[f].root, b) {
      DescribesExtends(results[f], parsed[f].root, a, b);
    }
  }

  lemma DescribesResolves(f: TypedFormula, root: Node, env: Environment)
    requires Describes(f, root, env)
    ensures Infer(root, env) == Success(f.types[root])
    ensures forall r :: r in References(root) ==> r in env
  {
    assert Infer(root, env) == Success(f.types[root]);
    SuccessResolves(root, env);
  }

  lemma FinishFollows(parsed: ParsedSet, bindings: Environment, results: map<string, TypedFormula>,
                      name: string, formula: TypedFormula, solution: Option<Environment>)
    requires FollowsSolution(parsed, bindings, results, solution) && parsed.Keys !! bindings.Keys
    requires name in parsed && Describes(formula, parsed[name].root, bindings + BindingsOf(results))
    ensures FollowsSolution(parsed, bindings, results[name := formula], solution)
  {
    if solution.Some? {
      FollowingExtends(parsed, bindings, results, solution.value);
      DescribesResolves(formula, parsed[name].root, bindings + BindingsOf(results));
      InferExtends(parsed[name].root, bindings + BindingsOf(results), bindings + solution.value);
    }
  }

  lemma FinishPath(parsed: ParsedSet, state: map<string, nat>, path: seq<string>, name: string)
    requires ActivePath(parsed, state, path + [name]) && name !in path
    ensures ActivePath(parsed, state[name := 2], path)
  {
    var p := path + [name];
    forall i | 0 <= i < |path| - 1 ensures Edge(parsed, path[i], path[i + 1]) {
      assert Edge(parsed, p[i], p[i + 1]);
    }
    forall f ensures f in path <==> f in state[name := 2] && state[name := 2][f] == 1 {
      assert f in p <==> f in path || f == name;
    }
  }

  lemma SolutionTypes(parsed: ParsedSet, bindings: Environment, results: map<string, TypedFormula>,
                      name: string, solution: Option<Environment>)
    requires FollowsSolution(parsed, bindings, results, solution) && name in parsed
    ensures solution.Some? ==> Infer(parsed[name].root, bindings + solution.value).Success?
  {
  }

  lemma SolutionAgrees(parsed: ParsedSet, bindings: Environment, results: map<string, TypedFormula>,
                       state: map<string, nat>, order: seq<string>, solution: Environment, n: Node)
    requires Consistent(parsed, bindings, results, state, order)
    requires FollowsSolution(parsed, bindings, results, Some(solution))
    requires forall r :: r in References(n) ==> r in bindings + BindingsOf(results)
    ensures Infer(n, bindings + BindingsOf(results)) == Infer(n, bindings + solution)
  {
    FollowingExtends(parsed, bindings, results, solution);
    InferAgrees(n, bindings + BindingsOf(results), bindings + solution);
  }

  lemma Unvisited(parsed: ParsedSet, bindings: Environment, results: map<string, TypedFormula>,
                  state: map<string, nat>, order: seq<string>, name: string)
    requires Consistent(parsed, bindings, results, state, order) && name in parsed
    requires name !in results && !(name in state && state[name] == 1)
    ensures name !in state && parsed.Keys !! bindings.Keys
    ensures parsed[name].references == DistinctFrom({}, References(parsed[name].root))
  {
    hide Recorded, Ordered;
  }

  lemma NothingRecorded(env: Environment)
    ensures Sound(map[], env) && Closed(map[])
  {
  }

  lemma PathLacks(parsed: ParsedSet, state: map<string, nat>, path: seq<string>, name: string)
    requires ActivePath(parsed, state, path) && name !in state
    ensures name !in path
  {
  }

  lemma InProgress(parsed: ParsedSet, bindings: Environment, results: map<string, TypedFormula>,
                   state: map<string, nat>, order: seq<string>, path: seq<string>, name: string)
    requires Consistent(parsed, bindings, results, state, order) && ActivePath(parsed, state, path + [name])
    ensures name in state && name !in results
  {
    assert name in path + [name];
  }

  lemma Described(parsed: ParsedSet, name: string, f: TypedFormula, env: Environment)
    requires name in parsed && f.root == parsed[name].root && f.root in f.types
    requires parsed[name].references == DistinctFrom({}, References(f.root))
    requires Sound(f.types, env) && Closed(f.types)
    requires f.canonical == Canonical(f.root) && f.references == parsed[name].references
    requires f.typ == f.types[f.root].typ && f.signature == f.types[f.root].signature
    ensures Describes(f, parsed[name].root, env)
  {
  }

  class Analyzer {
    const parsed: ParsedSet
    const bindings: Environment
    var results: map<string, TypedFormula>
    var state: map<string, nat>
    /** Formulas in the order in which their analysis finished. */
    ghost var order: seq<string>

    ghost function Known(): Environment
      reads this
    {
      bindings + BindingsOf(results)
    }

    ghost predicate Valid()
      reads this
    {
      Consistent(parsed, bindings, results, state, order)
    }

    ghost predicate Active(path: seq<string>)
      reads this
    {
      ActivePath(parsed, state, path)
    }

    ghost predicate Follows(solution: Option<Environment>)
      reads this
    {
      FollowsSolution(parsed, bindings, results, solution)
    }

    constructor (parsed: ParsedSet, bindings: Environment)
      requires parsed.Keys !! bindings.Keys
      requires forall f :: f in parsed ==> parsed[f].references == DistinctFrom({}, References(parsed[f].root))
      ensures Valid() && Active([]) && this.parsed == parsed && this.bindings == bindings
      ensures results == map[] && state == map[]
    {
      this.parsed, this.bindings := parsed, bindings;
      results, state, order := map[], map[], [];
    }

    /** Analyzes one formula, and first whatever it depends on. */
    method Analyze(name: string, ghost path: seq<string>, ghost solution: Option<Environment>)
      returns (r: Result<TypedFormula, AnalysisError>)
      requires Valid() && Active(path) && Follows(solution)
      requires name in parsed
      requires path != [] ==> Edge(parsed, path[|path| - 1], name)
      modifies this
      ensures r.Success? ==>
        && Valid() && Active(path) && Follows(solution)
        && Extends(old(Known()), Known()) && old(state.Keys) <= state.Keys
        && name in results && r.value == results[name]
      ensures r.Failure? ==> solution.None? || HasCycle(parsed)
      decreases parsed.Keys - state.Keys, 0, 1
    {
      if name in results {
        return Success(results[name]);
      }
      if name in state && state[name] == 1 {
        CycleThrough(parsed, path, name);
        return Failure(DependencyCycle(name));
      }
      Unvisited(parsed, bindings, results, state, order, name);
      r := AnalyzeNew(name, path, solution);
    }

    /** The part of the analysis that only runs once for each formula. */
    method AnalyzeNew(name: string, ghost path: seq<string>, ghost solution: Option<Environment>)
      returns (r: Result<TypedFormula, AnalysisError>)
      requires Valid() && Active(path) && Follows(solution)
      requires name in parsed && name !in state && parsed.Keys !! bindings.Keys
      requires parsed[name].references == DistinctFrom({}, References(parsed[name].root))
      requires path != [] ==> Edge(parsed, path[|path| - 1], name)
      modifies this
      ensures r.Success? ==>
        && Valid() && Active(path) && Follows(solution)
        && Extends(old(Known()), Known()) && old(state.Keys) <= state.Keys
        && name in results && r.value == results[name]
      ensures r.Failure? ==> solution.None? || HasCycle(parsed)
      decreases parsed.Keys - state.Keys, 0, 0
    {
      NothingRecorded(Known());
      hide Describes, Consistent, ActivePath, FollowsSolution, Edge, Infer, Sound, Closed, Canonical, References, DistinctFrom;
      var root, references := parsed[name].root, parsed[name].references;
      StartKeeps(parsed, bindings, results, state, order, name, path);
      SolutionTypes(parsed, bindings, results, name, solution);
      PathLacks(parsed, state, path, name);
      ghost var rest := parsed.Keys - state.Keys;
      state := state[name := 1];
      assert name in rest && parsed.Keys - state.Keys == rest - {name};
      var node, types := InferNode(name, root, map[], path + [name], solution);
      if node.Failure? {
        return Failure(node.error);
      }
      var formula := TypedFormula(root, types, Canonical(root), references, node.value.typ, node.value.signature);
      assert Describes(formula, root, Known()) by { Described(parsed, name, formula, Known()); }
      Finish(name, formula, path, solution);
      r := Success(formula);
    }

    /** Keeps a finished result and marks its formula done. */
    method Finish(name: string, formula: TypedFormula, ghost path: seq<string>, ghost solution: Option<Environment>)
      requires Valid() && Active(path + [name]) && Follows(solution)
      requires name in parsed && name !in path && parsed.Keys !! bindings.Keys
      requires Describes(formula, parsed[name].root, Known())
      modifies this
      ensures Valid() && Active(path) && Follows(solution)
      ensures results == old(results)[name := formula] && state == old(state)[name := 2]
      ensures Extends(old(Known()), Known())
    {
      hide Describes, Consistent, ActivePath, FollowsSolution;
      InProgress(parsed, bindings, results, state, order, path, name);
      FinishKeeps(parsed, bindings, results, state, order, name, formula);
      FinishFollows(parsed, bindings, results, name, formula, solution);
      FinishPath(parsed, state, path, name);
      results := results[name := formula];
      state := state[name := 2];
      order := order + [name];
    }

    method InferNode(owner: string, n: Node, types: map<Node, Inference>, ghost path: seq<string>,
                     ghost solution: Option<Environment>)
      returns (r: Result<Inference, AnalysisError>, types': map<Node, Inference>)
      requires Valid() && Active(path) && Follows(solution)
      requires path != [] && path[|path| - 1] == owner && owner in parsed
      requires forall x :: x in References(n) ==> x in References(parsed[owner].root)
      requires Sound(types, Known()) && Closed(types)
      requires solution.Some? ==> Infer(n, bindings + solution.value).Success?
      modifies this
      ensures r.Success? ==>
        && Valid() && Active(path) && Follows(solution)
        && Extends(old(Known()), Known()) && old(state.Keys) <= state.Keys
        && Sound(types', Known()) && Closed(types') && types.Keys <= types'.Keys
        && n in types' && types'[n] == r.value && Infer(n, Known()) == Success(r.value)
      ensures r.Failure? ==> solution.None? || HasCycle(parsed)
      decreases parsed.Keys - state.Keys, 1, n, 1
    {
      hide InferUnary, InferBinary, InferCall, Consistent, ActivePath, FollowsSolution;
      if n in types {
        return Success(types[n]), types;
      }
      types' := types;
      match n {
        case Num(v) =>
          r := Success(Inference(DIMENSIONLESS, "", Some(v)));
        case Ref(name) =>
          ghost var before := Known();
          r := ResolveName(owner, name, path, solution);
          if r.Failure? { return; }
          SoundExtends(types, before, Known());
        case Unary(op, v) =>
          r, types' := InferNode(owner, v, types, path, solution);
          if r.Failure? { return; }
          SuccessResolves(v, Known());
          r := Lift(InferUnary(op, r.value));
        case Binary(op, left, right) =>
          var both: Result<(Inference, Inference), AnalysisError>;
          both, types' := InferOperands(owner, n, types, path, solution);
          if both.Failure? { return Failure(both.error), types'; }
          r := Lift(InferBinary(op, both.value.0, both.value.1));
        case Call(fn, args) =>
          var many;
          many, types' := InferArgs(owner, args, types, path, solution);
          if many.Failure? { return Failure(many.error), types'; }
          SuccessResolvesAll(args, Known());
          r := Lift(InferCall(fn, many.value));
      }
      assert r == Lift(Infer(n, Known()));
      if r.Failure? {
        if solution.Some? {
          SolutionAgrees(parsed, bindings, results, state, order, solution.value, n);
        }
        return;
      }
      RecordOne(n, r.value, types', Known());
      types' := types'[n := r.value];
    }

    /** The operands of a binary operator, left before right. */
    method InferOperands(owner: string, n: Node, types: map<Node, Inference>, ghost path: seq<string>,
                         ghost solution: Option<Environment>)
      returns (r: Result<(Inference, Inference), AnalysisError>, types': map<Node, Inference>)
      requires Valid() && Active(path) && Follows(solution)
      requires path != [] && path[|path| - 1] == owner && owner in parsed && n.Binary?
      requires forall x :: x in References(n) ==> x in References(parsed[owner].root)
      requires Sound(types, Known()) && Closed(types)
      requires solution.Some? ==> Infer(n, bindings + solution.value).Success?
      modifies this
      ensures r.Success? ==>
        && Valid() && Active(path) && Follows(solution)
        && Extends(old(Known()), Known()) && old(state.Keys) <= state.Keys
        && Sound(types', Known()) && Closed(types') && types.Keys <= types'.Keys
        && n.left in types' && Infer(n.left, Known()) == Success(r.value.0)
        && n.right in types' && Infer(n.right, Known()) == Success(r.value.1)
        && forall x :: x in References(n) ==> x in Known()
      ensures r.Failure? ==> solution.None? || HasCycle(parsed)
      decreases parsed.Keys - state.Keys, 1, n, 0
    {
      hide InferBinary, Consistent, ActivePath, FollowsSolution, Sound, Closed;
      var left: Result<Inference, AnalysisError>, right: Result<Inference, AnalysisError>;
      left, types' := InferNode(owner, n.left, types, path, solution);
      if left.Failure? { return Failure(left.error), types'; }
      ghost var between := Known();
      right, types' := InferNode(owner, n.right, types', path, solution);
      if right.Failure? { return Failure(right.error), types'; }
      InferExtends(n.left, between, Known());
      SuccessResolves(n.left, Known());
      SuccessResolves(n.right, Known());
      r := Success((left.value, right.value));
    }

    /** A referenced name: an input, or a formula that is analyzed on demand. */
    method ResolveName(owner: string, name: string, ghost path: seq<string>, ghost solution: Option<Environment>)
      returns (r: Result<Inference, AnalysisError>)
      requires Valid() && Active(path) && Follows(solution)
      requires path != [] && path[|path| - 1] == owner && owner in parsed
      requires name in References(parsed[owner].root)
      requires solution.Some? ==> Infer(Ref(name), bindings + solution.value).Success?
      modifies this
      ensures r.Success? ==>
        && Valid() && Active(path) && Follows(solution)
        && Extends(old(Known()), Known()) && old(state.Keys) <= state.Keys
        && Infer(Ref(name), Known()) == Success(r.value) && name in Known()
      ensures r.Failure? ==> solution.None? || HasCycle(parsed)
      decreases parsed.Keys - state.Keys, 1, Ref(name), 0
    {
      if name in bindings {
        if !bindings[name].typ.Valid() {
          return Failure(Typing(InvalidBinding(name)));
        }
        return Success(Inference(bindings[name].typ, bindings[name].signature, None));
      }
      if name !in parsed {
        return Failure(Typing(UnknownReference(name)));
      }
      var formula := Analyze(name, path, solution);
      if formula.Failure? {
        return Failure(formula.error);
      }
      hide Infer;
      DescribesResolves(formula.value, parsed[name].root, Known());
      InferenceIsValid(parsed[name].root, Known());
      r := Success(Inference(formula.value.typ, formula.value.signature, None));
    }

    method InferArgs(owner: string, args: seq<Node>, types: map<Node, Inference>, ghost path: seq<string>,
                     ghost solution: Option<Environment>)
      returns (r: Result<seq<Inference>, AnalysisError>, types': map<Node, Inference>)
      requires Valid() && Active(path) && Follows(solution)
      requires path != [] && path[|path| - 1] == owner && owner in parsed
      requires forall x :: x in ReferencesOfAll(args) ==> x in References(parsed[owner].root)
      requires Sound(types, Known()) && Closed(types)
      requires solution.Some? ==> InferAll(args, bindings + solution.value).Success?
      modifies this
      ensures r.Success? ==>
        && Valid() && Active(path) && Follows(solution)
        && Extends(old(Known()), Known()) && old(state.Keys) <= state.Keys
        && Sound(types', Known()) && Closed(types') && types.Keys <= types'.Keys
        && InferAll(args, Known()) == Success(r.value)
        && forall k :: 0 <= k < |args| ==> args[k] in types'
      ensures r.Failure? ==> solution.None? || HasCycle(parsed)
      decreases parsed.Keys - state.Keys, 1, args, 0
    {
      hide Infer, InferAll, Consistent, ActivePath, FollowsSolution, Sound, Closed;
      var arguments: seq<Inference> := [];
      types' := types;
      for k := 0 to |args|
        invariant Valid() && Active(path) && Follows(solution)
        invariant Extends(old(Known()), Known()) && old(state.Keys) <= state.Keys
        invariant Sound(types', Known()) && Closed(types') && types.Keys <= types'.Keys
        invariant |arguments| == k
        invariant forall j :: 0 <= j < k ==> args[j] in types' && Infer(args[j], Known()) == Success(arguments[j])
      {
        ghost var before := Known();
        ArgumentReferences(args, k);
        if solution.Some? { InferAllAt(args, bindings + solution.value, k); }
        var argument;
        argument, types' := InferNode(owner, args[k], types', path, solution);
        if argument.Failure? { return Failure(argument.error), types'; }
        forall j | 0 <= j < k ensures Infer(args[j], Known()) == Success(arguments[j]) {
          InferExtends(args[j], before, Known());
        }
        arguments := arguments + [argument.value];
      }
      InferAllPointwise(args, Known(), arguments);
      r := Success(arguments);
    }
  }

  // ----- the whole set -----

  ghost function ParsedFormulaOf(f: Formula): ParsedFormula
    requires ReadFormula(f.expression).Success?
  {
    var root := ReadFormula(f.expression).value;
    ParsedFormula(root, DistinctFrom({}, References(root)))
  }

  lemma ParsedAs(f: Formula, root: Node, references: seq<string>)
    requires ReadFormula(f.expression) == Success(root) && references == DistinctFrom({}, References(root))
    ensures ParsedFormulaOf(f) == ParsedFormula(root, references)
  {
  }

  predicate AllParse(formulas: seq<Formula>)
  {
    forall i :: 0 <= i < |formulas| ==> ReadFormula(formulas[i].expression).Success?
  }

  ghost function ParsedOf(formulas: seq<Formula>): ParsedSet
    requires AllParse(formulas)
  {
    if formulas == [] then map[]
    else
      var last := |formulas| - 1;
      ParsedOf(formulas[..last])[formulas[last].name := ParsedFormulaOf(formulas[last])]
  }

  predicate NamesAccepted(formulas: seq<Formula>, bindings: Environment)
  {
    && (forall i :: 0 <= i < |formulas| ==> ValidName(formulas[i].name) && formulas[i].name !in bindings)
    && forall i, j :: 0 <= i < j < |formulas| ==> formulas[i].name != formulas[j].name
  }

  /** When a set of formulas should be accepted. */
  ghost predicate Acceptable(formulas: seq<Formula>, bindings: Environment)
  {
    && NamesAccepted(formulas, bindings) && AllParse(formulas)
    && !HasCycle(ParsedOf(formulas))
    && exists s :: Solves(ParsedOf(formulas), bindings, s)
  }

  /** Every formula has the record of its inference under all the others' results. */
  ghost predicate IsAnalysis(parsed: ParsedSet, bindings: Environment, results: map<string, TypedFormula>)
  {
    && results.Keys == parsed.Keys
    && forall f :: f in parsed ==> Describes(results[f], parsed[f].root, bindings + BindingsOf(results))
  }

  lemma {:induction false} ParsedOfHas(formulas: seq<Formula>)
    requires AllParse(formulas)
    ensures forall f :: f in ParsedOf(formulas) <==> exists i :: 0 <= i < |formulas| && formulas[i].name == f
    ensures (forall i, j :: 0 <= i < j < |formulas| ==> formulas[i].name != formulas[j].name) ==>
              forall i :: 0 <= i < |formulas| ==>
                formulas[i].name in ParsedOf(formulas)
                && ParsedOf(formulas)[formulas[i].name] == ParsedFormulaOf(formulas[i])
    ensures forall f :: f in ParsedOf(formulas) ==>
              ParsedOf(formulas)[f].references == DistinctFrom({}, References(ParsedOf(formulas)[f].root))
  {
    hide ReadFormula, References, DistinctFrom;
    if formulas != [] {
      assert formulas == formulas[..|formulas| - 1] + [formulas[|formulas| - 1]];
      ParsedOfHas(formulas[..|formulas| - 1]);
    }
  }

  lemma SameFormulasParse(a: seq<Formula>, b: seq<Formula>)
    requires forall f :: f in b ==> f in a
    ensures AllParse(a) ==> AllParse(b)
  {
    hide ReadFormula;
    if AllParse(a) {
      forall i | 0 <= i < |b| ensures ReadFormula(b[i].expression).Success? {
        assert b[i] in a;
      }
    }
  }

  lemma SubsetParses(a: seq<Formula>, b: seq<Formula>, bindings: Environment)
    requires forall f :: f in a ==> f in b
    requires NamesAccepted(a, bindings) && NamesAccepted(b, bindings) && AllParse(a) && AllParse(b)
    ensures forall f :: f in ParsedOf(a) ==> f in ParsedOf(b) && ParsedOf(a)[f] == ParsedOf(b)[f]
  {
    hide ReadFormula, ParsedOf, ValidName, ParsedFormulaOf;
    ParsedOfHas(a);
    ParsedOfHas(b);
    forall f | f in ParsedOf(a) ensures f in ParsedOf(b) && ParsedOf(a)[f] == ParsedOf(b)[f] {
      var i :| 0 <= i < |a| && a[i].name == f;
      assert a[i] in b;
    }
  }

  /** Accepting a set of formulas, and what is accepted, does not depend on the order of
      declaration. */
  lemma DeclarationOrderIrrelevant(a: seq<Formula>, b: seq<Formula>, bindings: Environment)
    requires forall f :: f in a <==> f in b
    requires NamesAccepted(a, bindings) && NamesAccepted(b, bindings)
    ensures AllParse(a) <==> AllParse(b)
    ensures AllParse(a) ==> ParsedOf(a) == ParsedOf(b)
    ensures Acceptable(a, bindings) <==> Acceptable(b, bindings)
  {
    hide AllParse, ParsedOf, NamesAccepted, HasCycle, Solves;
    SameFormulasParse(a, b);
    SameFormulasParse(b, a);
    if AllParse(a) && AllParse(b) {
      SubsetParses(a, b, bindings);
      SubsetParses(b, a, bindings);
    }
  }

  /** Accepts exactly the acceptable sets, always terminates, and returns their unique
      analysis. */
  method AnalyzeTypedFormulaSet(formulas: seq<Formula>, bindings: Environment)
    returns (r: Result<map<string, TypedFormula>, AnalysisError>)
    ensures r.Success? <==> Acceptable(formulas, bindings)
    ensures r.Success? ==> IsAnalysis(ParsedOf(formulas), bindings, r.value)
    ensures r.Success? ==> forall s | Solves(ParsedOf(formulas), bindings, s) :: s == BindingsOf(r.value)
    ensures r.Success? ==> exists order :: OrdersAll(ParsedOf(formulas), order)
  {
    var names: Result<ParsedSet, AnalysisError> := ParseAll(formulas, bindings);
    if names.Failure? {
      return Failure(names.error);
    }
    var parsed := names.value;
    ParsedOfHas(formulas);
    r := AnalyzeParsed(formulas, parsed, bindings);
  }

  method ParseAll(formulas: seq<Formula>, bindings: Environment) returns (r: Result<ParsedSet, AnalysisError>)
    ensures r.Success? <==> NamesAccepted(formulas, bindings) && AllParse(formulas)
    ensures r.Success? ==> r.value == ParsedOf(formulas)
  {
    hide ReadFormula, References, DistinctFrom, ValidName, ParsedFormulaOf;
    var parsed: ParsedSet := map[];
    for k := 0 to |formulas|
      invariant AllParse(formulas[..k]) && NamesAccepted(formulas[..k], bindings)
      invariant parsed == ParsedOf(formulas[..k])
      invariant forall f :: f in parsed <==> exists i :: 0 <= i < k && formulas[i].name == f
    {
      var formula := formulas[k];
      assert formulas[..k + 1][..k] == formulas[..k];
      if !ValidName(formula.name) {
        return Failure(InvalidName(formula.name));
      }
      if formula.name in bindings {
        return Failure(DuplicatesInput(formula.name));
      }
      if formula.name in parsed {
        return Failure(DuplicateName(formula.name));
      }
      var node, refs := ReadExpression(formula.expression);
      if node.Failure? {
        return Failure(Syntax(node.error));
      }
      var references := DistinctReferences(refs);
      ParsedAs(formula, node.value, references);
      parsed := parsed[formula.name := ParsedFormula(node.value, references)];
    }
    assert formulas[..|formulas|] == formulas;
    r := Success(parsed);
  }

  method AnalyzeParsed(formulas: seq<Formula>, parsed: ParsedSet, bindings: Environment)
    returns (r: Result<map<string, TypedFormula>, AnalysisError>)
    requires parsed.Keys !! bindings.Keys
    requires forall f :: f in parsed ==> parsed[f].references == DistinctFrom({}, References(parsed[f].root))
    requires forall f :: f in parsed <==> exists i :: 0 <= i < |formulas| && formulas[i].name == f
    ensures r.Success? <==> !HasCycle(parsed) && exists s :: Solves(parsed, bindings, s)
    ensures r.Success? ==> IsAnalysis(parsed, bindings, r.value)
    ensures r.Success? ==> forall s | Solves(parsed, bindings, s) :: s == BindingsOf(r.value)
    ensures r.Success? ==> exists order :: OrdersAll(parsed, order)
  {
    hide Describes, References, DistinctFrom, HasCycle, Edge, Solves, Consistent, ActivePath, FollowsSolution;
    ghost var solution: Option<Environment> := None;
    if exists s :: Solves(parsed, bindings, s) {
      ghost var s :| Solves(parsed, bindings, s);
      solution := Some(s);
    }
    var analyzer := new Analyzer(parsed, bindings);
    assert analyzer.Follows(solution) by { NothingFollows(parsed, bindings, solution); }
    for k := 0 to |formulas|
      invariant analyzer.Valid() && analyzer.Active([]) && analyzer.Follows(solution)
      invariant forall j :: 0 <= j < k ==> formulas[j].name in analyzer.results
      invariant forall f :: f in analyzer.results ==> f in parsed
    {
      ghost var before := analyzer.results;
      var formula := analyzer.Analyze(formulas[k].name, [], solution);
      if formula.Failure? {
        return Failure(formula.error);
      }
      ResultsGrow(parsed, bindings, before, analyzer.results, analyzer.state, analyzer.order);
    }
    var results := analyzer.results;
    AllDone(parsed, bindings, results, analyzer.state, analyzer.order);
    OrderExcludesCycles(parsed, analyzer.order);
    AnalysisSolves(parsed, bindings, results);
    assert OrdersAll(parsed, analyzer.order);
    forall s | Solves(parsed, bindings, s) ensures s == BindingsOf(results) {
      SolutionUnique(parsed, bindings, analyzer.order, s, BindingsOf(results));
    }
    r := Success(results);
  }

  lemma NothingFollows(parsed: ParsedSet, bindings: Environment, solution: Option<Environment>)
    requires solution.Some? ==> Solves(parsed, bindings, solution.value)
    ensures FollowsSolution(parsed, bindings, map[], solution)
  {
  }

  lemma ResultsGrow(parsed: ParsedSet, bindings: Environment, before: map<string, TypedFormula>,
                    results: map<string, TypedFormula>, state: map<string, nat>, order: seq<string>)
    requires Consistent(parsed, bindings, results, state, order)
    requires Extends(bindings + BindingsOf(before), bindings + BindingsOf(results))
    requires forall f :: f in before ==> f in parsed
    ensures forall f :: f in before ==> f in results
    ensures forall f :: f in results ==> f in parsed
  {
    hide Recorded, Ordered;
    forall f | f in before ensures f in results {
      assert f in bindings + BindingsOf(before);
    }
  }

  lemma AllDone(parsed: ParsedSet, bindings: Environment, results: map<string, TypedFormula>,
                state: map<string, nat>, order: seq<string>)
    requires Consistent(parsed, bindings, results, state, order) && parsed.Keys <= results.Keys
    ensures IsAnalysis(parsed, bindings, results)
    ensures Ordered(parsed, order) && forall f :: f in order <==> f in parsed
  {
    hide Describes;
  }

  lemma AnalysisSolves(parsed: ParsedSet, bindings: Environment, results: map<string, TypedFormula>)
    requires IsAnalysis(parsed, bindings, results)
    ensures Solves(parsed, bindings, BindingsOf(results))
  {
    hide Describes;
    forall f | f in parsed
      ensures var i := Infer(parsed[f].root, bindings + BindingsOf(results));
              i.Success? && BindingsOf(results)[f] == Binding(i.value.typ, i.value.signature)
    {
      DescribesBinding(results[f], parsed[f].root, bindings + BindingsOf(results));
    }
  }

  lemma DescribesBinding(f: TypedFormula, root: Node, env: Environment)
    requires Describes(f, root, env)
    ensures Infer(root, env).Success?
    ensures BindingOf(f) == Binding(Infer(root, env).value.typ, Infer(root, env).value.signature)
  {
    DescribesResolves(f, root, env);
  }

  lemma SolutionUnique(parsed: ParsedSet, bindings: Environment, order: seq<string>, s: Environment, t: Environment)
    requires parsed.Keys !! bindings.Keys
    requires Ordered(parsed, order) && forall f :: f in order <==> f in parsed
    requires Solves(parsed, bindings, s) && Solves(parsed, bindings, t)
    ensures s == t
  {
    SolutionsAgree(parsed, bindings, order, s, t, |order|);
  }
}
