/** A correlated EXISTS: answered by running its subquery for each outer row's
    value, or by reading the inner table once and looking each value up. */
module CorrelatedExists {
  import opened Outcomes
  import opened Values
  import opened Expressions
  import opened Lookup

  /** The inner SELECT of an EXISTS, its references to the outer row already
      read as a parameter: what its shape is decided by. Its list matters only
      by whether it reduces the rows to one. */
  datatype Select = Select(
    where: Option<Cond>,
    aggregated: bool,
    grouped: bool,
    having: bool,
    combined: bool,
    top: Option<nat>,
    offset: nat,
    fetch: Option<nat>)

  /** The table the inner SELECT reads. */
  datatype Inner = Inner(names: seq<string>, rows: seq<Row>)

  predicate Rectangular(inner: Inner) {
    forall row :: row in inner.rows ==> |row| == |inner.names|
  }

  // ---- references to the outer row -----------------------------------------

  predicate SameReference(a: Reference, b: Reference) {
    SameName(if a.qualified.Some? then a.qualified.value else a.name,
             if b.qualified.Some? then b.qualified.value else b.name)
  }

  /** Each reference to the outer column replaced. */
  function Replaced(e: Expr, outer: Reference, stand: Expr): Expr {
    match e
    case Column(reference) => if SameReference(reference, outer) then stand else e
    case Call(f, arguments) => Call(f, ReplacedAll(arguments, outer, stand))
    case _ => e
  }

  function ReplacedAll(es: seq<Expr>, outer: Reference, stand: Expr): seq<Expr> {
    if es == [] then [] else [Replaced(es[0], outer, stand)] + ReplacedAll(es[1..], outer, stand)
  }

  function CondReplaced(c: Cond, outer: Reference, stand: Expr): Cond {
    match c
    case Comparison(l, op, r) => Comparison(Replaced(l, outer, stand), op, Replaced(r, outer, stand))
    case IsNull(e, negated) => IsNull(Replaced(e, outer, stand), negated)
    case Test(test, arguments) => Test(test, ReplacedAll(arguments, outer, stand))
    case And(x, y) => And(CondReplaced(x, outer, stand), CondReplaced(y, outer, stand))
    case Or(x, y) => Or(CondReplaced(x, outer, stand), CondReplaced(y, outer, stand))
    case Not(x) => Not(CondReplaced(x, outer, stand))
  }

  predicate Refers(e: Expr, outer: Reference) {
    match e
    case Column(reference) => SameReference(reference, outer)
    case Call(_, arguments) => exists argument :: argument in arguments && Refers(argument, outer)
    case _ => false
  }

  /** What does not refer to the outer column is left as it is, and nothing refers to
      it any more but what was written in. */
  lemma {:induction false} OnlyTheOuterIsReplaced(e: Expr, outer: Reference, stand: Expr)
    ensures !Refers(e, outer) ==> Replaced(e, outer, stand) == e
    ensures !Refers(stand, outer) ==> !Refers(Replaced(e, outer, stand), outer)
    ensures Replaced(Column(outer), outer, stand) == stand
    decreases e, 0
  {
    if e.Call? {
      AllTheOuterAreReplaced(e.arguments, outer, stand);
    }
  }

  lemma {:induction false} AllTheOuterAreReplaced(es: seq<Expr>, outer: Reference, stand: Expr)
    ensures (forall e :: e in es ==> !Refers(e, outer)) ==> ReplacedAll(es, outer, stand) == es
    ensures !Refers(stand, outer) ==> forall e :: e in ReplacedAll(es, outer, stand) ==> !Refers(e, outer)
    decreases es, 1
  {
    if es != [] {
      OnlyTheOuterIsReplaced(es[0], outer, stand);
      AllTheOuterAreReplaced(es[1..], outer, stand);
    }
  }

  lemma {:induction false} ParameterStandsForValue(e: Expr, outer: Reference, p: string, v: Value, row: Bindings,
                                                   ps: Parameters, w: World)
    requires !Mentions(e, p)
    ensures Evaluate(Replaced(e, outer, Parameter(p)), row, ps[p := v], w)
         == Evaluate(Replaced(e, outer, Literal(v)), row, ps, w)
    decreases e, 0
  {
    if e.Call? {
      ParametersStandForValues(e.arguments, outer, p, v, row, ps, w);
    }
  }

  lemma {:induction false} ParametersStandForValues(es: seq<Expr>, outer: Reference, p: string, v: Value, row: Bindings,
                                                    ps: Parameters, w: World)
    requires forall e :: e in es ==> !Mentions(e, p)
    ensures EvaluateAll(ReplacedAll(es, outer, Parameter(p)), row, ps[p := v], w)
         == EvaluateAll(ReplacedAll(es, outer, Literal(v)), row, ps, w)
    decreases es, 1
  {
    if es != [] {
      ParameterStandsForValue(es[0], outer, p, v, row, ps, w);
      ParametersStandForValues(es[1..], outer, p, v, row, ps, w);
      assert ReplacedAll(es, outer, Parameter(p))[1..] == ReplacedAll(es[1..], outer, Parameter(p));
      assert ReplacedAll(es, outer, Literal(v))[1..] == ReplacedAll(es[1..], outer, Literal(v));
    }
  }

  /** Reading the outer column as a parameter bound to its value says what the
      condition says with the value written in its place. */
  lemma {:induction false} BoundIsSubstituted(c: Cond, outer: Reference, p: string, v: Value, row: Bindings,
                                              ps: Parameters, w: World)
    requires !CondMentions(c, p)
    ensures Asked(CondReplaced(c, outer, Parameter(p)), row, ps[p := v], w)
         == Asked(CondReplaced(c, outer, Literal(v)), row, ps, w)
  {
    match c
    case Comparison(l, _, r) =>
      ParameterStandsForValue(l, outer, p, v, row, ps, w);
      ParameterStandsForValue(r, outer, p, v, row, ps, w);
    case IsNull(e, _) => ParameterStandsForValue(e, outer, p, v, row, ps, w);
    case Test(_, arguments) => ParametersStandForValues(arguments, outer, p, v, row, ps, w);
    case And(x, y) =>
      BoundIsSubstituted(x, outer, p, v, row, ps, w);
      BoundIsSubstituted(y, outer, p, v, row, ps, w);
    case Or(x, y) =>
      BoundIsSubstituted(x, outer, p, v, row, ps, w);
      BoundIsSubstituted(y, outer, p, v, row, ps, w);
    case Not(x) => BoundIsSubstituted(x, outer, p, v, row, ps, w);
  }

  // ---- one run of the subquery per value -----------------------------------

  function Kept(where: Option<Cond>, names: seq<string>, rows: seq<Row>, ps: Parameters, w: World): Result<seq<Row>>
    requires forall row :: row in rows ==> |row| == |names|
  {
    if rows == [] then Ok([])
    else
      var first :- Passes(where, Bind(names, rows[0]), ps, w);
      var rest :- Kept(where, names, rows[1..], ps, w);
      Ok((if first then [rows[0]] else []) + rest)
  }

  function Paged<T>(s: Select, rows: seq<T>): seq<T> {
    var taken := if s.top.Some? && s.top.value < |rows| then rows[..s.top.value] else rows;
    var after := if s.offset < |taken| then taken[s.offset..] else [];
    if s.fetch.Some? && s.fetch.value < |after| then after[..s.fetch.value] else after
  }

  /** EXISTS as written: the subquery run with the value bound, 1 where it
      answers any row. A list that aggregates answers one row whatever the
      WHERE kept. */
  function RunForRow(s: Select, inner: Inner, p: string, v: Value, ps: Parameters, w: World): Result<int>
    requires Rectangular(inner)
  {
    var kept :- Kept(s.where, inner.names, inner.rows, ps[p := v], w);
    Ok(if Paged(s, if s.aggregated then [[]] else kept) != [] then 1 else 0)
  }

  // ---- the inner table read once -------------------------------------------

  /** The column matched, and what is left of the WHERE without the equality. */
  datatype Shape = Shape(matched: Expr, rest: Option<Cond>, matching: Cond)

  function Mentioning(parts: seq<Cond>, p: string): seq<Cond> {
    if parts == [] then []
    else (if CondMentions(parts[0], p) then [parts[0]] else []) + Mentioning(parts[1..], p)
  }

  function Without(parts: seq<Cond>, p: string): seq<Cond> {
    if parts == [] then []
    else (if CondMentions(parts[0], p) then [] else [parts[0]]) + Without(parts[1..], p)
  }

  /** Where the shortcut applies: one equality, ANDed with the rest, matches
      the parameter, and nothing after the filter decides which rows there
      are. Nothing here asks whether the list aggregates. */
  function ShapeOf(s: Select, p: string): Option<Shape> {
    if s.grouped || s.having || s.combined || s.offset != 0 || (s.fetch.Some? && s.fetch.value != 0) || s.top.Some?
       || s.where.None? then None
    else
      var parts := Conjuncts(s.where.value);
      var mentioning := Mentioning(parts, p);
      if |mentioning| != 1 then None
      else
        var matching := mentioning[0];
        if !matching.Comparison? || matching.operator != Eq then None
        else if (matching.left == Parameter(p)) == (matching.right == Parameter(p)) then None
        else
          var matched := if matching.left == Parameter(p) then matching.right else matching.left;
          if Mentions(matched, p) then None else Some(Shape(matched, AllOf(Without(parts, p)), matching))
  }

  function ReadEach(matched: Expr, names: seq<string>, rows: seq<Row>, ps: Parameters, w: World): Result<seq<Value>>
    requires forall row :: row in rows ==> |row| == |names|
  {
    if rows == [] then Ok([])
    else
      var first :- Evaluate(matched, Bind(names, rows[0]), ps, w);
      var rest :- ReadEach(matched, names, rows[1..], ps, w);
      Ok([first] + rest)
  }

  /** Every value of the matched column, over the rows the rest of the WHERE
      keeps. */
  function MatchingValues(s: Select, shape: Shape, inner: Inner, ps: Parameters, w: World): Result<seq<Value>>
    requires Rectangular(inner)
  {
    var kept :- Kept(shape.rest, inner.names, inner.rows, ps, w);
    KeptAreRows(shape.rest, inner.names, inner.rows, ps, w);
    ReadEach(shape.matched, inner.names, Paged(s, kept), ps, w)
  }

  /** NULL matches nothing; any other value is looked up. */
  function LookedUp(s: Select, shape: Shape, inner: Inner, v: Value, ps: Parameters, w: World): Result<int>
    requires Rectangular(inner)
  {
    if v.Null? then Ok(0)
    else
      var values :- MatchingValues(s, shape, inner, ps, w);
      var found :- Contains(CandidatesOf(values, w), v, w);
      Ok(if found then 1 else 0)
  }

  /** The subquery that is read once, kept over the rows of one statement. */
  class ReadOnce {
    const select: Select
    const shape: Shape
    const inner: Inner
    const parameters: Parameters
    const world: World
    var found: Option<Candidates>
    // How often the inner table has been read to the end.
    var readings: nat

    ghost predicate Valid()
      reads this
    {
      && Rectangular(inner)
      && (found.None? ==> readings == 0)
      && (found.Some? ==> readings == 1 && MatchingValues(select, shape, inner, parameters, world).Ok?
                          && found.value ==
                             CandidatesOf(MatchingValues(select, shape, inner, parameters, world).value, world))
    }

    constructor (select: Select, shape: Shape, inner: Inner, parameters: Parameters, world: World)
      requires Rectangular(inner)
      ensures Valid() && readings == 0
      ensures this.select == select && this.shape == shape && this.inner == inner
      ensures this.parameters == parameters && this.world == world
    {
      this.select, this.shape, this.inner, this.parameters, this.world := select, shape, inner, parameters, world;
      found, readings := None, 0;
    }

    /** 1 or 0 for the outer row in front of it, reading the inner table the
        first time it has to. */
    method Produce(v: Value) returns (answer: Result<int>)
      requires Valid()
      modifies this
      ensures Valid() && readings <= 1
      ensures answer == LookedUp(select, shape, inner, v, parameters, world)
    {
      if v.Null? {
        return Ok(0);
      }
      if found.None? {
        var values := MatchingValues(select, shape, inner, parameters, world);
        if values.Err? {
          return Err(values.refusal);
        }
        var prepared := Prepare(values.value, world);
        found, readings := Some(prepared), 1;
      }
      var holds := Contains(found.value, v, world);
      answer := if holds.Err? then Err(holds.refusal) else Ok(if holds.value then 1 else 0);
    }

    /** The answer for each outer row in turn, from one read of the inner table
        at most: wherever running the subquery for that row's value is not
        refused it is the answer that gives, exactly where the value is NULL or
        the one read is not refused. */
    method ProduceEach(p: string, outer: seq<Value>) returns (answers: seq<Result<int>>)
      requires Valid()
      requires ShapeOf(select, p) == Some(shape) && !select.aggregated && ReadsMomentsByKey(world)
      modifies this
      ensures Valid() && readings <= 1
      ensures |answers| == |outer|
      ensures forall i :: 0 <= i < |outer| && RunForRow(select, inner, p, outer[i], parameters, world).Ok? ==>
                (answers[i] == RunForRow(select, inner, p, outer[i], parameters, world)
                 <==> outer[i].Null? || CanBeRead(shape, inner, parameters, world))
      ensures forall i :: 0 <= i < |outer| && !outer[i].Null? && !CanBeRead(shape, inner, parameters, world) ==>
                answers[i].Err?
    {
      answers := [];
      for at := 0 to |outer|
        invariant Valid() && readings <= 1
        invariant |answers| == at
        invariant forall i :: 0 <= i < at ==> answers[i] == LookedUp(select, shape, inner, outer[i], parameters, world)
      {
        var answer := Produce(outer[at]);
        answers := answers + [answer];
      }
      forall i | 0 <= i < |outer| && RunForRow(select, inner, p, outer[i], parameters, world).Ok?
        ensures answers[i] == RunForRow(select, inner, p, outer[i], parameters, world)
                <==> outer[i].Null? || CanBeRead(shape, inner, parameters, world)
      {
        LookingUpIsRunning(select, shape, inner, p, outer[i], parameters, world);
      }
    }
  }

  // ---- the two agree -------------------------------------------------------

  /** The one read of the inner table filters it: no inner row is refused by the
      rest of the WHERE. */
  predicate CanBeRead(shape: Shape, inner: Inner, ps: Parameters, w: World)
    requires Rectangular(inner)
  {
    Kept(shape.rest, inner.names, inner.rows, ps, w).Ok?
  }

  lemma {:induction false} KeptWhereEachPasses(where: Option<Cond>, names: seq<string>, rows: seq<Row>, ps: Parameters,
                                               w: World)
    requires forall row :: row in rows ==> |row| == |names|
    ensures Kept(where, names, rows, ps, w).Ok?
       <==> forall row :: row in rows ==> Passes(where, Bind(names, row), ps, w).Ok?
  {
    hide Passes, Bind;
    if rows != [] {
      KeptWhereEachPasses(where, names, rows[1..], ps, w);
      assert rows == [rows[0]] + rows[1..];
      assert Kept(where, names, rows, ps, w).Ok?
        <==> Passes(where, Bind(names, rows[0]), ps, w).Ok? && Kept(where, names, rows[1..], ps, w).Ok?;
    }
  }

  lemma {:induction false} KeptAreRows(where: Option<Cond>, names: seq<string>, rows: seq<Row>, ps: Parameters,
                                       w: World)
    requires forall row :: row in rows ==> |row| == |names|
    ensures var kept := Kept(where, names, rows, ps, w);
            kept.Ok? ==>
              forall row :: row in kept.value <==> row in rows && Passes(where, Bind(names, row), ps, w) == Ok(true)
  {
    hide Passes, Bind;
    if rows != [] {
      KeptAreRows(where, names, rows[1..], ps, w);
      assert rows == [rows[0]] + rows[1..];
    }
  }

  ghost predicate IsReadOff(v: Value, matched: Expr, names: seq<string>, rows: seq<Row>, ps: Parameters, w: World)
    requires forall row :: row in rows ==> |row| == |names|
  {
    exists row :: row in rows && Evaluate(matched, Bind(names, row), ps, w) == Ok(v)
  }

  lemma {:induction false} ReadEachReads(matched: Expr, names: seq<string>, rows: seq<Row>, ps: Parameters, w: World)
    requires forall row :: row in rows ==> |row| == |names|
    requires forall row :: row in rows ==> Evaluate(matched, Bind(names, row), ps, w).Ok?
    ensures ReadEach(matched, names, rows, ps, w).Ok?
    ensures forall v :: v in ReadEach(matched, names, rows, ps, w).value <==> IsReadOff(v, matched, names, rows, ps, w)
  {
    if rows != [] {
      var first, rest := rows[0], rows[1..];
      assert rows == [first] + rest;
      ReadEachReads(matched, names, rest, ps, w);
      forall v ensures IsReadOff(v, matched, names, rows, ps, w) <==>
                       Evaluate(matched, Bind(names, first), ps, w) == Ok(v)
                       || IsReadOff(v, matched, names, rest, ps, w) {
        if IsReadOff(v, matched, names, rows, ps, w) {
          var row :| row in rows && Evaluate(matched, Bind(names, row), ps, w) == Ok(v);
          assert row == first || row in rest;
        }
      }
    }
  }

  lemma {:induction false} PartsSplit(parts: seq<Cond>, p: string)
    ensures forall c :: c in Mentioning(parts, p) <==> c in parts && CondMentions(c, p)
    ensures forall c :: c in Without(parts, p) <==> c in parts && !CondMentions(c, p)
  {
    if parts != [] {
      PartsSplit(parts[1..], p);
      assert parts == [parts[0]] + parts[1..];
    }
  }

  /** Where every part but one is true and the whole is not refused, that one was
      asked, and not refused. */
  lemma {:induction false} TheOneLeftIsAsked(c: Cond, part: Cond, row: Bindings, ps: Parameters, w: World)
    requires Asked(c, row, ps, w).Ok? && part in Conjuncts(c)
    requires forall other :: other in Conjuncts(c) ==> other == part || Asked(other, row, ps, w) == Ok(True)
    ensures Asked(part, row, ps, w).Ok?
  {
    if c.And? {
      if part in Conjuncts(c.first) {
        TheOneLeftIsAsked(c.first, part, row, ps, w);
      } else {
        TrueWhereEveryPartIs(c.first, row, ps, w);
        TheOneLeftIsAsked(c.second, part, row, ps, w);
      }
    }
  }

  /** Where the WHERE is not refused it is true exactly where the rest of it and
      the equality are; and where the rest is, the equality was asked. */
  lemma WhereIsRestAndMatching(s: Select, p: string, shape: Shape, v: Value, row: Bindings, ps: Parameters, w: World)
    requires ShapeOf(s, p) == Some(shape) && Passes(s.where, row, ps[p := v], w).Ok?
    ensures Passes(s.where, row, ps[p := v], w) == Ok(Passes(shape.rest, row, ps, w) == Ok(true)
                                                      && Asked(shape.matching, row, ps[p := v], w) == Ok(True))
    ensures Passes(shape.rest, row, ps, w) == Ok(true) ==> Asked(shape.matching, row, ps[p := v], w).Ok?
  {
    var parts, qs := Conjuncts(s.where.value), ps[p := v];
    var rest := Without(parts, p);
    TrueWhereEveryPartIs(s.where.value, row, qs, w);
    PartsSplit(parts, p);
    forall part | part in rest ensures Asked(part, row, qs, w) == Asked(part, row, ps, w) {
      UnmentionedIsUnasked(part, p, v, row, ps, w);
    }
    AllOfIsTrueWhereEveryPartIs(rest, row, ps, w);
    var mentioning := Mentioning(parts, p);
    assert mentioning == [shape.matching] && shape.matching in mentioning;
    forall part | part in parts ensures part in rest || part == shape.matching {
      if CondMentions(part, p) {
        assert part in mentioning;
      }
    }
    assert AllTrue(parts, row, qs, w) <==> AllTrue(rest, row, ps, w) && Asked(shape.matching, row, qs, w) == Ok(True);
    if AllTrue(rest, row, ps, w) {
      TheOneLeftIsAsked(s.where.value, shape.matching, row, qs, w);
    }
  }

  /** The equality is true of a row exactly where its column compares equal to
      the value, which is never where either is NULL. */
  lemma MatchingComparesTheValue(s: Select, p: string, shape: Shape, v: Value, row: Bindings, ps: Parameters, w: World)
    requires ShapeOf(s, p) == Some(shape)
    requires Asked(shape.matching, row, ps[p := v], w).Ok?
    ensures Evaluate(shape.matched, row, ps, w).Ok?
    ensures var read := Evaluate(shape.matched, row, ps, w).value;
            && (read.Null? || v.Null? || Compare(Eq, v, read, w).Ok?)
            && (Asked(shape.matching, row, ps[p := v], w) == Ok(True)
                <==> !read.Null? && !v.Null? && Compare(Eq, v, read, w) == Ok(true))
  {
    UnmentionedIsUnread(shape.matched, p, v, row, ps, w);
    var read := Evaluate(shape.matched, row, ps, w);
    var m := shape.matching;
    assert Evaluate(Parameter(p), row, ps[p := v], w) == Ok(v);
    if !v.Null? && read.Ok? && !read.value.Null? {
      EqualityIsSymmetric(v, read.value, w);
    }
  }

  lemma EqualityIsSymmetric(a: Value, b: Value, w: World)
    ensures Compare(Eq, a, b, w) == Compare(Eq, b, a, w)
  {
  }

  /** The shortcut is only taken where nothing after the filter decides which rows
      there are. */
  lemma ShapedSelectsOnlyFilter(s: Select, p: string)
    ensures ShapeOf(s, p).Some? ==>
              && !s.grouped && !s.having && !s.combined && s.top.None? && s.offset == 0 && s.where.Some?
              && (s.fetch.Some? ==> s.fetch == Some(0))
  {
  }

  lemma SelectKeepsAPage(s: Select, p: string)
    requires ShapeOf(s, p).Some?
    ensures forall rows: seq<Row> :: Paged(s, rows) == if s.fetch == Some(0) then [] else rows
  {
  }

  /** Wherever running the subquery for a value is not refused, looking the value
      up in one read of the inner table answers what running it does, exactly
      where the value is NULL or that read is not refused. */
  lemma LookingUpIsRunning(s: Select, shape: Shape, inner: Inner, p: string, v: Value, ps: Parameters, w: World)
    requires Rectangular(inner) && ShapeOf(s, p) == Some(shape) && !s.aggregated && ReadsMomentsByKey(w)
    requires RunForRow(s, inner, p, v, ps, w).Ok?
    ensures LookedUp(s, shape, inner, v, ps, w) == RunForRow(s, inner, p, v, ps, w)
       <==> v.Null? || CanBeRead(shape, inner, ps, w)
  {
    var qs := ps[p := v];
    var kept := Kept(s.where, inner.names, inner.rows, qs, w).value;
    SelectKeepsAPage(s, p);
    if v.Null? {
      NullKeepsNothing(s, shape, inner, p, ps, w);
    } else if CanBeRead(shape, inner, ps, w) {
      KeptAreRows(shape.rest, inner.names, inner.rows, ps, w);
      var probed := Kept(shape.rest, inner.names, inner.rows, ps, w).value;
      if s.fetch == Some(0) {
        assert Paged(s, probed) == [];
        NothingIsFound(v, w);
      } else {
        assert Paged(s, probed) == probed && Paged(s, kept) == kept;
        ProbedAreRead(s, shape, inner, p, v, ps, w, probed);
        FoundWhereKept(s, shape, inner, p, v, ps, w, kept, probed,
                       ReadEach(shape.matched, inner.names, probed, ps, w).value);
      }
    }
  }

  lemma NullKeepsNothing(s: Select, shape: Shape, inner: Inner, p: string, ps: Parameters, w: World)
    requires Rectangular(inner) && ShapeOf(s, p) == Some(shape)
    ensures var kept := Kept(s.where, inner.names, inner.rows, ps[p := Null], w); kept.Ok? ==> kept == Ok([])
  {
    var kept := Kept(s.where, inner.names, inner.rows, ps[p := Null], w);
    KeptAreRows(s.where, inner.names, inner.rows, ps[p := Null], w);
    KeptWhereEachPasses(s.where, inner.names, inner.rows, ps[p := Null], w);
    if kept.Ok? && kept.value != [] {
      var row := kept.value[0];
      assert row in kept.value;
      WhereIsRestAndMatching(s, p, shape, Null, Bind(inner.names, row), ps, w);
      MatchingComparesTheValue(s, p, shape, Null, Bind(inner.names, row), ps, w);
    }
  }

  /** A row the rest of the WHERE keeps has its matched column read, and compared
      with the value, by the run as by the lookup. */
  lemma ProbedAreRead(s: Select, shape: Shape, inner: Inner, p: string, v: Value, ps: Parameters, w: World,
                      probed: seq<Row>)
    requires Rectangular(inner) && ShapeOf(s, p) == Some(shape) && RunForRow(s, inner, p, v, ps, w).Ok?
    requires Kept(shape.rest, inner.names, inner.rows, ps, w) == Ok(probed)
    ensures forall row :: row in probed ==> |row| == |inner.names|
    ensures ReadEach(shape.matched, inner.names, probed, ps, w).Ok?
    ensures forall u :: u in ReadEach(shape.matched, inner.names, probed, ps, w).value
                        <==> IsReadOff(u, shape.matched, inner.names, probed, ps, w)
    ensures forall row :: row in probed ==> Asked(shape.matching, Bind(inner.names, row), ps[p := v], w).Ok?
  {
    KeptAreRows(s.where, inner.names, inner.rows, ps[p := v], w);
    KeptWhereEachPasses(s.where, inner.names, inner.rows, ps[p := v], w);
    KeptAreRows(shape.rest, inner.names, inner.rows, ps, w);
    forall row | row in probed
      ensures Asked(shape.matching, Bind(inner.names, row), ps[p := v], w).Ok?
      ensures Evaluate(shape.matched, Bind(inner.names, row), ps, w).Ok?
    {
      WhereIsRestAndMatching(s, p, shape, v, Bind(inner.names, row), ps, w);
      MatchingComparesTheValue(s, p, shape, v, Bind(inner.names, row), ps, w);
    }
    ReadEachReads(shape.matched, inner.names, probed, ps, w);
  }

  lemma NothingIsFound(v: Value, w: World)
    ensures Contains(NOBODY, v, w) == Ok(false)
  {
    assert LeftOver(NOBODY, v, w) == [];
  }

  lemma FoundWhereKept(s: Select, shape: Shape, inner: Inner, p: string, v: Value, ps: Parameters, w: World,
                       kept: seq<Row>, probed: seq<Row>, values: seq<Value>)
    requires Rectangular(inner) && ShapeOf(s, p) == Some(shape) && ReadsMomentsByKey(w) && !v.Null?
    requires Kept(s.where, inner.names, inner.rows, ps[p := v], w) == Ok(kept)
    requires Kept(shape.rest, inner.names, inner.rows, ps, w) == Ok(probed)
    requires forall row :: row in probed ==> |row| == |inner.names|
    requires forall row :: row in probed ==> Asked(shape.matching, Bind(inner.names, row), ps[p := v], w).Ok?
    requires forall u :: u in values <==> IsReadOff(u, shape.matched, inner.names, probed, ps, w)
    ensures Contains(CandidatesOf(values, w), v, w) == Ok(kept != [])
  {
    KeptAreRows(s.where, inner.names, inner.rows, ps[p := v], w);
    KeptWhereEachPasses(s.where, inner.names, inner.rows, ps[p := v], w);
    KeptAreRows(shape.rest, inner.names, inner.rows, ps, w);
    forall row | row in inner.rows
      ensures row in kept ==> row in probed
      ensures row in probed ==>
                && Evaluate(shape.matched, Bind(inner.names, row), ps, w).Ok?
                && var read := Evaluate(shape.matched, Bind(inner.names, row), ps, w).value;
                   && (read.Null? || Compare(Eq, v, read, w).Ok?)
                   && (row in kept <==> !read.Null? && Compare(Eq, v, read, w) == Ok(true))
    {
      WhereIsRestAndMatching(s, p, shape, v, Bind(inner.names, row), ps, w);
      if row in probed {
        MatchingComparesTheValue(s, p, shape, v, Bind(inner.names, row), ps, w);
      }
    }
    hide ShapeOf, Kept, Asked, Evaluate, Bind, Compare, CandidatesOf, Contains, Passes;
    if kept != [] {
      assert kept[0] in kept;
      var read := Evaluate(shape.matched, Bind(inner.names, kept[0]), ps, w).value;
      assert read in values;
      assert MatchesSome(v, values, w);
    }
    if MatchesSome(v, values, w) {
      var u :| u in values && !u.Null? && Compare(Eq, v, u, w) == Ok(true);
      var row :| row in probed && Evaluate(shape.matched, Bind(inner.names, row), ps, w) == Ok(u);
      assert row in kept;
    }
    assert !Refused(v, values, w);
    LookupSays(values, v, w);
  }

  lemma LookupSays(values: seq<Value>, v: Value, w: World)
    requires !v.Null? && ReadsMomentsByKey(w) && !Refused(v, values, w)
    ensures Contains(CandidatesOf(values, w), v, w) == Ok(MatchesSome(v, values, w))
  {
    if v.Moment? {
      LookupOfAMoment(values, v, w);
    } else {
      LookupIsComparingEach(values, v, w);
      PresentAreTheValues(values);
      AnyMatchSays(v, Present(values), w);
      assert MatchesSome(v, Present(values), w) == MatchesSome(v, values, w);
      assert Refused(v, Present(values), w) == Refused(v, values, w);
    }
  }

  // ---- a part read alone ---------------------------------------------------

  // EXISTS (SELECT 1 FROM t WHERE t.owner = p.id AND t.x > 3).
  const OWNER: Expr := Column(Reference(None, "owner"))
  const OWNED: Cond := Comparison(OWNER, Eq, Parameter("p"))
  const PAST_THREE: Cond := Comparison(Column(Reference(None, "x")), Gt, Literal(Int(3)))
  const GUARDED: Select := Select(Some(And(OWNED, PAST_THREE)), false, false, false, false, None, 0, None)
  const ONE_OWNER: Inner := Inner(["owner", "x"], [[Int(2), Text("abc")]])

  lemma OneOwnerReads()
    ensures var row := Bind(ONE_OWNER.names, ONE_OWNER.rows[0]);
            Read(OWNER.reference, row) == Ok(Int(2)) && Read(PAST_THREE.left.reference, row) == Ok(Text("abc"))
  {
    var names, values: Row := ["owner", "x"], [Int(2), Text("abc")];
    var one: Bindings, both: Bindings := [("owner", Int(2))], [("owner", Int(2)), ("x", Text("abc"))];
    assert names[..1] == ["owner"] && values[..1] == [Int(2)];
    assert ["owner"][..0] == [] && [Int(2)][..0] == [];
    assert Bind(["owner"], [Int(2)]) == one;
    assert one[1..] == [] && both[1..] == [("x", Text("abc"))];
    assert "owner"[0] != "x"[0];
    assert Bind(names, values) == Rebound(one, "x", Text("abc")) == both;
    assert |Fold("owner")| == 5 && |Fold("x")| == 1;
    assert Entry(both, "owner") == Some(Int(2));
    assert Entry(both[1..], "x") == Some(Text("abc"));
  }

  lemma GuardedShape()
    ensures ShapeOf(GUARDED, "p") == Some(Shape(OWNER, Some(PAST_THREE), OWNED))
  {
    assert Conjuncts(OWNED) == [OWNED] && Conjuncts(PAST_THREE) == [PAST_THREE];
    var parts := [OWNED, PAST_THREE];
    assert Conjuncts(And(OWNED, PAST_THREE)) == parts;
    assert parts[1..] == [PAST_THREE] && [PAST_THREE][1..] == [];
    assert Mentioning([PAST_THREE], "p") == [] && Without([PAST_THREE], "p") == [PAST_THREE];
    assert Mentioning(parts, "p") == [OWNED] && Without(parts, "p") == [PAST_THREE];
  }

  lemma KeptOfOne(where: Option<Cond>, names: seq<string>, row: Row, ps: Parameters, w: World)
    requires |row| == |names|
    ensures var passes := Passes(where, Bind(names, row), ps, w);
            && Kept(where, names, [row], ps, w).Ok? == passes.Ok?
            && (passes == Ok(false) ==> Kept(where, names, [row], ps, w) == Ok([]))
  {
    var rest: seq<Row> := [row][1..];
    assert rest == [] && Kept(where, names, rest, ps, w) == Ok(rest) && rest + rest == rest;
  }

  /** Over one row of another owner, whose x is no number: run for owner 1 the
      second part is never reached and the answer is 0, while the one read asks
      it of every row and is refused. */
  lemma UnguardedPartIsRefused(w: World)
    requires w.numberIn("abc").None?
    ensures var shape := Shape(OWNER, Some(PAST_THREE), OWNED);
            && ShapeOf(GUARDED, "p") == Some(shape) && Rectangular(ONE_OWNER)
            && RunForRow(GUARDED, ONE_OWNER, "p", Int(1), map[], w) == Ok(0)
            && LookedUp(GUARDED, shape, ONE_OWNER, Int(1), map[], w).Err?
  {
    GuardedShape();
    OneOwnerReads();
    hide Bind, Read, ShapeOf, CandidatesOf, Contains, ReadEach, CondMentions, Mentions;
    var row := Bind(ONE_OWNER.names, ONE_OWNER.rows[0]);
    assert Asked(OWNED, row, map["p" := Int(1)], w) == Ok(False);
    assert Asked(PAST_THREE, row, map[], w).Err?;
    assert ONE_OWNER.rows[1..] == [];
    assert Asked(And(OWNED, PAST_THREE), row, map["p" := Int(1)], w) == Ok(False);
    assert Passes(GUARDED.where, row, map["p" := Int(1)], w) == Ok(false);
    KeptOfOne(GUARDED.where, ONE_OWNER.names, ONE_OWNER.rows[0], map["p" := Int(1)], w);
    assert map[]["p" := Int(1)] == map["p" := Int(1)];
  }

  // ---- a list that aggregates ----------------------------------------------

  /** EXISTS (SELECT COUNT(*) FROM t WHERE t.owner = p.id) over an empty t: the
      subquery answers one row, and the shortcut finds nothing. */
  lemma AggregateIsLookedUpWrongly(w: World)
    ensures var owner := Column(Reference(None, "owner"));
            var s := Select(Some(Comparison(owner, Eq, Parameter("p"))), true, false, false, false, None, 0, None);
            var inner := Inner(["owner"], []);
            var shape := ShapeOf(s, "p");
            shape.Some? && Rectangular(inner) && CanBeRead(shape.value, inner, map[], w)
            && RunForRow(s, inner, "p", Int(1), map[], w) == Ok(1)
            && LookedUp(s, shape.value, inner, Int(1), map[], w) == Ok(0)
  {
    var owner := Column(Reference(None, "owner"));
    var matching := Comparison(owner, Eq, Parameter("p"));
    var s := Select(Some(matching), true, false, false, false, None, 0, None);
    var inner := Inner(["owner"], []);
    assert Conjuncts(matching) == [matching];
    assert CondMentions(matching, "p") && [matching][1..] == [];
    assert Mentioning([], "p") == [] && Without([], "p") == [];
    assert Mentioning([matching], "p") == [matching];
    assert Without([matching], "p") == [];
    assert ShapeOf(s, "p") == Some(Shape(owner, None, matching));
    NothingIsFound(Int(1), w);
    assert MatchingValues(s, Shape(owner, None, matching), inner, map[], w) == Ok([]);
  }

  /** The shortcut answers what the subquery does, whatever the inner rows and for
      every value that neither of them refuses, exactly where the list does not
      aggregate (or FETCH takes no row at all). Where it does, every inner table
      that can be run for NULL is answered wrongly for it. */
  lemma ShortcutHoldsWhereNothingAggregates(s: Select, shape: Shape, p: string, ps: Parameters, w: World)
    requires ShapeOf(s, p) == Some(shape) && ReadsMomentsByKey(w)
    ensures (forall inner, v :: Rectangular(inner) ==> AnsweredAlike(s, shape, inner, p, v, ps, w))
       <==> !s.aggregated || s.fetch == Some(0)
    ensures !(!s.aggregated || s.fetch == Some(0)) ==>
              forall inner :: Rectangular(inner) && RunForRow(s, inner, p, Null, ps, w).Ok? ==>
                !AnsweredAlike(s, shape, inner, p, Null, ps, w)
  {
    SelectKeepsAPage(s, p);
    if !s.aggregated || s.fetch == Some(0) {
      forall inner, v | Rectangular(inner) ensures AnsweredAlike(s, shape, inner, p, v, ps, w) {
        ListsAnswerAlike(s, shape, inner, p, v, ps, w);
      }
    } else {
      forall inner | Rectangular(inner) && RunForRow(s, inner, p, Null, ps, w).Ok?
        ensures !AnsweredAlike(s, shape, inner, p, Null, ps, w)
      {
        assert RunForRow(s, inner, p, Null, ps, w) == Ok(1);
      }
      var empty := Inner([], []);
      assert Rectangular(empty) && RunForRow(s, empty, p, Null, ps, w).Ok?;
    }
  }

  /** Unless one of them refuses, the shortcut answers what the subquery does. */
  predicate AnsweredAlike(s: Select, shape: Shape, inner: Inner, p: string, v: Value, ps: Parameters, w: World)
    requires Rectangular(inner)
  {
    var run, found := RunForRow(s, inner, p, v, ps, w), LookedUp(s, shape, inner, v, ps, w);
    run.Ok? && found.Ok? ==> found == run
  }

  lemma ListsAnswerAlike(s: Select, shape: Shape, inner: Inner, p: string, v: Value, ps: Parameters, w: World)
    requires Rectangular(inner) && ShapeOf(s, p) == Some(shape) && ReadsMomentsByKey(w)
    requires !s.aggregated || s.fetch == Some(0)
    ensures AnsweredAlike(s, shape, inner, p, v, ps, w)
  {
    SelectKeepsAPage(s, p);
    var listed := s.(aggregated := false);
    assert ShapeOf(listed, p) == Some(shape);
    assert forall rows: seq<Row> :: Paged(listed, rows) == Paged(s, rows);
    if RunForRow(s, inner, p, v, ps, w).Ok? {
      LookingUpIsRunning(listed, shape, inner, p, v, ps, w);
      assert RunForRow(listed, inner, p, v, ps, w) == RunForRow(s, inner, p, v, ps, w);
      assert LookedUp(listed, shape, inner, v, ps, w) == LookedUp(s, shape, inner, v, ps, w);
    }
  }
}
