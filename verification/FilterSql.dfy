/** SQL conditions as trees with placeholders, evaluated against a row while consuming the
    positional arguments from left to right. */
module FilterSql {
  import opened Filters
  import opened Results

  datatype Scalar = Null | Str(s: string) | Num(n: Float) | Boolean(b: bool)

  /** A stored row: plain columns, and map columns by key. */
  datatype Row = Row(columns: string -> Scalar, maps: string -> map<string, Scalar>)

  /** The store's text functions, of which nothing is assumed. */
  datatype Engine = Engine(
    text: Scalar -> string,
    before: (string, string) -> bool,
    position: (string, string) -> nat,
    matches: (Pattern, string, string) -> bool,
    bodyPath: (Scalar, string) -> Option<string>)

  datatype Pattern = LikePattern | ILikePattern | RegexpPattern

  datatype Relation = Eq | Ne | Gt | Ge | Lt | Le

  datatype Expr =
    | Column(name: string)
    | MapAt(column: string, zero: Scalar, key: Expr)
    | BodyPath(path: Expr)
    | Slot
    | Literal(v: Scalar)
    | Cast(e: Expr)

  datatype Sql =
    | Blank
    | Compare(left: Expr, relation: Relation, right: Expr)
    | Member(e: Expr, list: seq<Expr>, negated: bool)
    | MapHas(column: string, key: Expr)
    | NotNull(e: Expr)
    | Position(e: Expr, pattern: Expr, found: bool)
    | Matches(how: Pattern, e: Expr, pattern: Expr)
    | Flag(column: string)
    | Not(c: Sql)
    | And(parts: seq<Sql>)
    | Or(parts: seq<Sql>)

  /** SQL truth values. */
  datatype Truth = True | False | Unknown

  function TruthOf(b: bool): Truth { if b then True else False }

  function Negate(t: Truth): Truth
  {
    match t case True => False case False => True case Unknown => Unknown
  }

  function Conjunction(ts: seq<Truth>): Truth
  {
    if False in ts then False else if Unknown in ts then Unknown else True
  }

  function Disjunction(ts: seq<Truth>): Truth
  {
    if True in ts then True else if Unknown in ts then Unknown else False
  }

  function Lookup(m: map<string, Scalar>, key: string, zero: Scalar): Scalar
  {
    if key in m then m[key] else zero
  }

  predicate Less(g: Engine, a: Scalar, b: Scalar)
  {
    match (a, b)
    case (Str(x), Str(y)) => g.before(x, y)
    case (Num(Finite(x)), Num(Finite(y))) => x < y
    case (Boolean(x), Boolean(y)) => !x && y
    case _ => false
  }

  predicate Holds(g: Engine, relation: Relation, a: Scalar, b: Scalar)
  {
    match relation
    case Eq => a == b
    case Ne => a != b
    case Gt => Less(g, b, a)
    case Ge => Less(g, b, a) || a == b
    case Lt => Less(g, a, b)
    case Le => Less(g, a, b) || a == b
  }

  type Args = seq<Scalar>

  /** The value of an expression and the arguments it leaves; none when they run out. */
  function EvalExpr(g: Engine, row: Row, e: Expr, args: Args): Option<(Scalar, Args)>
  {
    match e
    case Column(name) => Some((row.columns(name), args))
    case Slot => if args == [] then None else Some((args[0], args[1..]))
    case Literal(v) => Some((v, args))
    case Cast(inner) => EvalExpr(g, row, inner, args)
    case MapAt(column, zero, key) =>
      var k := EvalExpr(g, row, key, args);
      if k.None? || !k.value.0.Str? then None else Some((Lookup(row.maps(column), k.value.0.s, zero), k.value.1))
    case BodyPath(path) =>
      var p := EvalExpr(g, row, path, args);
      if p.None? || !p.value.0.Str? then None
      else
        var found := g.bodyPath(row.columns("body"), p.value.0.s);
        Some((if found.None? then Null else Str(found.value), p.value.1))
  }

  function EvalList(g: Engine, row: Row, list: seq<Expr>, args: Args): Option<(seq<Scalar>, Args)>
  {
    if list == [] then Some(([], args))
    else
      var last := |list| - 1;
      var before := EvalList(g, row, list[..last], args);
      if before.None? then None
      else
        var v := EvalExpr(g, row, list[last], before.value.1);
        if v.None? then None else Some((before.value.0 + [v.value.0], v.value.1))
  }

  function MemberTruth(v: Scalar, items: seq<Scalar>, negated: bool): Truth
  {
    if v == Null then Unknown else TruthOf((v in items) != negated)
  }

  /** Both operands of a text function, the second a string. */
  function EvalTexts(g: Engine, row: Row, e: Expr, pattern: Expr, args: Args): Option<(Scalar, string, Args)>
  {
    var v := EvalExpr(g, row, e, args);
    if v.None? then None
    else
      var p := EvalExpr(g, row, pattern, v.value.1);
      if p.None? || !p.value.0.Str? then None else Some((v.value.0, p.value.0.s, p.value.1))
  }

  function EvalSql(g: Engine, row: Row, c: Sql, args: Args): Option<(Truth, Args)>
    decreases c, 1
  {
    match c
    case Blank => None
    case Flag(column) => Some((TruthOf(row.columns(column) == Boolean(true)), args))
    case Compare(left, relation, right) =>
      var a := EvalExpr(g, row, left, args);
      if a.None? then None
      else
        var b := EvalExpr(g, row, right, a.value.1);
        if b.None? then None
        else
          var known := a.value.0 != Null && b.value.0 != Null;
          Some((if known then TruthOf(Holds(g, relation, a.value.0, b.value.0)) else Unknown, b.value.1))
    case Member(e, list, negated) =>
      var v := EvalExpr(g, row, e, args);
      if v.None? then None
      else
        var items := EvalList(g, row, list, v.value.1);
        if items.None? then None else Some((MemberTruth(v.value.0, items.value.0, negated), items.value.1))
    case MapHas(column, key) =>
      var k := EvalExpr(g, row, key, args);
      if k.None? || !k.value.0.Str? then None else Some((TruthOf(k.value.0.s in row.maps(column)), k.value.1))
    case NotNull(e) =>
      var v := EvalExpr(g, row, e, args);
      if v.None? then None else Some((TruthOf(v.value.0 != Null), v.value.1))
    case Position(e, pattern, found) =>
      var t := EvalTexts(g, row, e, pattern, args);
      if t.None? then None
      else
        var p := g.position(g.text(t.value.0), t.value.1);
        Some((if t.value.0 == Null then Unknown else TruthOf(if found then p > 0 else p == 0), t.value.2))
    case Matches(how, e, pattern) =>
      var t := EvalTexts(g, row, e, pattern, args);
      if t.None? then None
      else
        var m := g.matches(how, g.text(t.value.0), t.value.1);
        Some((if t.value.0 == Null then Unknown else TruthOf(m), t.value.2))
    case Not(inner) =>
      var t := EvalSql(g, row, inner, args);
      if t.None? then None else Some((Negate(t.value.0), t.value.1))
    case And(parts) =>
      var ts := EvalAll(g, row, parts, args);
      if ts.None? then None else Some((Conjunction(ts.value.0), ts.value.1))
    case Or(parts) =>
      var ts := EvalAll(g, row, parts, args);
      if ts.None? then None else Some((Disjunction(ts.value.0), ts.value.1))
  }

  function EvalAll(g: Engine, row: Row, parts: seq<Sql>, args: Args): Option<(seq<Truth>, Args)>
    decreases parts, 0
  {
    if parts == [] then Some(([], args))
    else
      var last := |parts| - 1;
      var before := EvalAll(g, row, parts[..last], args);
      if before.None? then None
      else
        var t := EvalSql(g, row, parts[last], before.value.1);
        if t.None? then None else Some((before.value.0 + [t.value.0], t.value.1))
  }
}
