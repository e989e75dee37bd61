/** Parsed expressions and conditions, and their evaluation against one row. */
module Expressions {
  import opened Outcomes
  import opened Values

  /** A column reference: the bare name, and the whole text where a qualifier
      was written in front of it. */
  datatype Reference = Reference(qualified: Option<string>, name: string)

  datatype Expr =
    | Column(reference: Reference)
    | Parameter(name: string)
    | Literal(value: Value)
    | Call(function_: string, arguments: seq<Expr>)

  datatype Cond =
    | Comparison(left: Expr, operator: Operator, right: Expr)
    | IsNull(operand: Expr, negated: bool)
    | Test(test: string, arguments: seq<Expr>)
    | And(first: Cond, second: Cond)
    | Or(first: Cond, second: Cond)
    | Not(inner: Cond)

  type Parameters = map<string, Value>

  // ---- a row under its columns' names --------------------------------------

  /** The dictionary made by pairing names with values: entries in the order
      each name first came, a repeated name holding the last of its values. */
  type Entries<T> = seq<(string, T)>

  type Bindings = Entries<Value>

  function Rebound<T>(bindings: Entries<T>, name: string, value: T): Entries<T> {
    if bindings == [] then [(name, value)]
    else if bindings[0].0 == name then [(name, value)] + bindings[1..]
    else [bindings[0]] + Rebound(bindings[1..], name, value)
  }

  function Bind<T>(names: seq<string>, values: seq<T>): Entries<T>
    requires |names| == |values|
  {
    if names == [] then []
    else Rebound(Bind(names[..|names| - 1], values[..|values| - 1]), names[|names| - 1], values[|values| - 1])
  }

  predicate SameName(a: string, b: string) {
    Fold(a) == Fold(b)
  }

  /** The first entry answering to a name, however either is cased. */
  function Entry<T>(bindings: Entries<T>, wanted: string): Option<T> {
    if bindings == [] then None
    else if SameName(bindings[0].0, wanted) then Some(bindings[0].1)
    else Entry(bindings[1..], wanted)
  }

  /** What follows the last dot, or None where there is no dot. */
  function LastPart(name: string): Option<string> {
    if name == [] then None
    else match LastPart(name[1..])
      case Some(part) => Some(part)
      case None => if name[0] == '.' then Some(name[1..]) else None
  }

  /** The values of the qualified columns whose last part is this name. */
  function Qualified<T>(bindings: Entries<T>, wanted: string): seq<T> {
    if bindings == [] then []
    else
      var part := LastPart(bindings[0].0);
      (if part.Some? && SameName(part.value, wanted) then [bindings[0].1] else [])
      + Qualified(bindings[1..], wanted)
  }

  /** What a reference finds: its qualified name, then its bare name, then the
      one column of a join that its bare name means. */
  function Place<T>(reference: Reference, bindings: Entries<T>): Option<T> {
    var whole := if reference.qualified.Some? then Entry(bindings, reference.qualified.value) else None;
    if whole.Some? then whole
    else
      var bare := Entry(bindings, reference.name);
      if bare.Some? then bare
      else
        var found := Qualified(bindings, reference.name);
        if reference.qualified.None? && |found| == 1 then Some(found[0]) else None
  }

  function Read(reference: Reference, bindings: Bindings): Result<Value> {
    var found := Place(reference, bindings);
    if found.Some? then Ok(found.value) else Err(Unreadable)
  }

  // ---- where a reference reads ---------------------------------------------

  function Ordinals(n: nat): (places: seq<nat>)
    ensures |places| == n
    ensures forall i :: 0 <= i < n ==> places[i] == i
  {
    seq(n, i => i)
  }

  /** The place of a row under these names that a reference reads, or None where
      it is refused: what it finds among the places themselves. */
  function ReadsAt(names: seq<string>, reference: Reference): Option<nat> {
    Place<nat>(reference, Bind<nat>(names, Ordinals(|names|)))
  }

  /** Places followed to the values that stand there. */
  function Through(places: Entries<nat>, row: Row): Bindings {
    seq(|places|, i requires 0 <= i < |places| => (places[i].0, ValueAt(row, places[i].1)))
  }

  function ValueAt(row: Row, at: nat): Value {
    if at < |row| then row[at] else Null
  }

  lemma {:induction false} ReboundThrough(places: Entries<nat>, name: string, at: nat, row: Row)
    ensures Rebound(Through(places, row), name, ValueAt(row, at)) == Through(Rebound(places, name, at), row)
  {
    if places != [] && places[0].0 != name {
      ReboundThrough(places[1..], name, at, row);
      assert Through(places, row)[1..] == Through(places[1..], row);
      assert Through(Rebound(places, name, at), row)[1..] == Through(Rebound(places, name, at)[1..], row);
    }
  }

  lemma {:induction false} BindThrough(names: seq<string>, places: seq<nat>, values: Row, row: Row)
    requires |names| == |places| == |values|
    requires forall i :: 0 <= i < |places| ==> values[i] == ValueAt(row, places[i])
    ensures Bind(names, values) == Through(Bind(names, places), row)
  {
    if names != [] {
      var n := |names| - 1;
      BindThrough(names[..n], places[..n], values[..n], row);
      ReboundThrough(Bind(names[..n], places[..n]), names[n], places[n], row);
    }
  }

  lemma {:induction false} EntryThrough(places: Entries<nat>, wanted: string, row: Row)
    ensures var at := Entry(places, wanted);
            Entry(Through(places, row), wanted) == if at.Some? then Some(ValueAt(row, at.value)) else None
  {
    if places != [] {
      EntryThrough(places[1..], wanted, row);
      assert Through(places, row)[1..] == Through(places[1..], row);
    }
  }

  lemma {:induction false} QualifiedThrough(places: Entries<nat>, wanted: string, row: Row)
    ensures var found, read := Qualified(places, wanted), Qualified(Through(places, row), wanted);
            |found| == |read| && forall i :: 0 <= i < |found| ==> read[i] == ValueAt(row, found[i])
  {
    if places != [] {
      QualifiedThrough(places[1..], wanted, row);
      assert Through(places, row)[1..] == Through(places[1..], row);
    }
  }

  /** Followed to the values, what a reference finds is what stands at the place it
      finds. */
  lemma ReadsThrough(places: Entries<nat>, reference: Reference, row: Row)
    ensures var at := Place(reference, places);
            Read(reference, Through(places, row)) == if at.Some? then Ok(ValueAt(row, at.value)) else Err(Unreadable)
  {
    if reference.qualified.Some? {
      EntryThrough(places, reference.qualified.value, row);
    }
    EntryThrough(places, reference.name, row);
    QualifiedThrough(places, reference.name, row);
  }

  /** What a reference reads of any row is what stands at one place, settled by
      the names alone. */
  lemma ReadsOnePlace(names: seq<string>, reference: Reference, row: Row)
    requires |names| == |row|
    ensures var at := ReadsAt(names, reference);
            Read(reference, Bind(names, row)) == if at.Some? then Ok(ValueAt(row, at.value)) else Err(Unreadable)
  {
    BindThrough(names, Ordinals(|names|), row, row);
    ReadsThrough(Bind(names, Ordinals(|names|)), reference, row);
  }

  predicate InRange(places: Entries<nat>, n: nat) {
    forall i :: 0 <= i < |places| ==> places[i].1 < n
  }

  lemma {:induction false} BoundInRange(names: seq<string>, places: seq<nat>, n: nat)
    requires |names| == |places| && forall i :: 0 <= i < |places| ==> places[i] < n
    ensures InRange(Bind<nat>(names, places), n)
  {
    if names != [] {
      var k := |names| - 1;
      BoundInRange(names[..k], places[..k], n);
      ReboundInRange(Bind<nat>(names[..k], places[..k]), names[k], places[k], n);
    }
  }

  lemma {:induction false} ReboundInRange(places: Entries<nat>, name: string, at: nat, n: nat)
    requires at < n && InRange(places, n)
    ensures InRange(Rebound<nat>(places, name, at), n)
  {
    if places != [] && places[0].0 != name {
      ReboundInRange(places[1..], name, at, n);
    }
  }

  lemma {:induction false} EntryInRange(places: Entries<nat>, wanted: string, n: nat)
    requires InRange(places, n)
    ensures var found := Entry<nat>(places, wanted); found.Some? ==> found.value < n
  {
    if places != [] {
      EntryInRange(places[1..], wanted, n);
    }
  }

  predicate AllBelow(places: seq<nat>, n: nat) {
    forall at :: at in places ==> at < n
  }

  lemma {:induction false} QualifiedInRange(places: Entries<nat>, wanted: string, n: nat)
    requires InRange(places, n)
    ensures AllBelow(Qualified<nat>(places, wanted), n)
  {
    if places != [] {
      QualifiedInRange(places[1..], wanted, n);
    }
  }

  lemma PlaceInRange(places: Entries<nat>, reference: Reference, n: nat)
    requires InRange(places, n)
    ensures var at := Place<nat>(reference, places); at.Some? ==> at.value < n
  {
    if reference.qualified.Some? {
      EntryInRange(places, reference.qualified.value, n);
    }
    EntryInRange(places, reference.name, n);
    QualifiedInRange(places, reference.name, n);
    var found := Qualified<nat>(places, reference.name);
    assert |found| == 1 ==> found[0] in found;
  }

  lemma ReadsInRange(names: seq<string>, reference: Reference)
    ensures var at := ReadsAt(names, reference); at.Some? ==> at.value < |names|
  {
    BoundInRange(names, Ordinals(|names|), |names|);
    PlaceInRange(Bind<nat>(names, Ordinals(|names|)), reference, |names|);
  }

  // ---- names that differ only in case --------------------------------------

  function FoldAll(names: seq<string>): (folded: seq<string>)
    ensures |folded| == |names|
    ensures forall i :: 0 <= i < |names| ==> folded[i] == Fold(names[i])
  {
    seq(|names|, i requires 0 <= i < |names| => Fold(names[i]))
  }

  /** No two names differ only in case. */
  predicate CasedAlike(names: seq<string>) {
    forall i, k :: 0 <= i < |names| && 0 <= k < |names| && Fold(names[i]) == Fold(names[k]) ==> names[i] == names[k]
  }

  function FoldKeys<T>(bindings: Entries<T>): (folded: Entries<T>)
    ensures |folded| == |bindings|
    ensures forall i :: 0 <= i < |bindings| ==> folded[i] == (Fold(bindings[i].0), bindings[i].1)
  {
    seq(|bindings|, i requires 0 <= i < |bindings| => (Fold(bindings[i].0), bindings[i].1))
  }

  predicate KeyedFrom<T>(bindings: Entries<T>, names: seq<string>) {
    forall i :: 0 <= i < |bindings| ==> bindings[i].0 in names
  }

  lemma {:induction false} ReboundFolded<T>(bindings: Entries<T>, name: string, value: T, names: seq<string>)
    requires CasedAlike(names) && KeyedFrom(bindings, names) && name in names
    ensures Rebound(FoldKeys(bindings), Fold(name), value) == FoldKeys(Rebound(bindings, name, value))
    ensures KeyedFrom(Rebound(bindings, name, value), names)
  {
    if bindings != [] {
      assert bindings[0].0 in names;
      assert FoldKeys(bindings)[1..] == FoldKeys(bindings[1..]);
      ReboundFolded(bindings[1..], name, value, names);
    }
  }

  lemma {:induction false} BindFolded<T>(names: seq<string>, values: seq<T>, all: seq<string>)
    requires |names| == |values| && CasedAlike(all) && forall name :: name in names ==> name in all
    ensures Bind(FoldAll(names), values) == FoldKeys(Bind(names, values))
    ensures KeyedFrom(Bind(names, values), all)
  {
    if names != [] {
      var n := |names| - 1;
      BindFolded(names[..n], values[..n], all);
      assert FoldAll(names)[..n] == FoldAll(names[..n]);
      ReboundFolded(Bind(names[..n], values[..n]), names[n], values[n], all);
    }
  }

  lemma FoldedTwice(s: string)
    ensures Fold(Fold(s)) == Fold(s)
  {
  }

  lemma {:induction false} LastPartFolded(name: string)
    ensures var part, folded := LastPart(name), LastPart(Fold(name));
            folded == if part.Some? then Some(Fold(part.value)) else None
  {
    if name != [] {
      LastPartFolded(name[1..]);
      assert Fold(name)[1..] == Fold(name[1..]);
      assert (Fold(name)[0] == '.') == (name[0] == '.');
    }
  }

  lemma {:induction false} FoundFolded<T>(bindings: Entries<T>, wanted: string)
    ensures Entry(FoldKeys(bindings), wanted) == Entry(bindings, wanted)
    ensures Qualified(FoldKeys(bindings), wanted) == Qualified(bindings, wanted)
  {
    if bindings != [] {
      FoundFolded(bindings[1..], wanted);
      assert FoldKeys(bindings)[1..] == FoldKeys(bindings[1..]);
      FoldedTwice(bindings[0].0);
      LastPartFolded(bindings[0].0);
      if LastPart(bindings[0].0).Some? {
        FoldedTwice(LastPart(bindings[0].0).value);
      }
    }
  }

  /** Where no two names differ only in case, a reference reads the same place
      under the names and under the names in lower case. */
  lemma FoldedNamesReadAlike(names: seq<string>, reference: Reference)
    requires CasedAlike(names)
    ensures ReadsAt(FoldAll(names), reference) == ReadsAt(names, reference)
  {
    var places := Bind<nat>(names, Ordinals(|names|));
    BindFolded<nat>(names, Ordinals(|names|), names);
    if reference.qualified.Some? {
      FoundFolded<nat>(places, reference.qualified.value);
    }
    FoundFolded<nat>(places, reference.name);
  }

  // ---- evaluation ----------------------------------------------------------

  function Evaluate(e: Expr, row: Bindings, ps: Parameters, w: World): Result<Value> {
    match e
    case Column(reference) => Read(reference, row)
    case Parameter(name) => Ok(if name in ps then ps[name] else Null)
    case Literal(v) => Ok(v)
    case Call(f, arguments) =>
      var values :- EvaluateAll(arguments, row, ps, w);
      w.call(f, values)
  }

  function EvaluateAll(es: seq<Expr>, row: Bindings, ps: Parameters, w: World): Result<seq<Value>> {
    if es == [] then Ok([])
    else
      var first :- Evaluate(es[0], row, ps, w);
      var rest :- EvaluateAll(es[1..], row, ps, w);
      Ok([first] + rest)
  }

  /** Every reference of an expression finds the same place in both. */
  predicate ReadsAlike(e: Expr, a: Entries<nat>, b: Entries<nat>) {
    match e
    case Column(reference) => Place<nat>(reference, a) == Place<nat>(reference, b)
    case Call(_, arguments) => forall argument :: argument in arguments ==> ReadsAlike(argument, a, b)
    case _ => true
  }

  /** Every reference of an expression finds a place. */
  predicate AllFound(e: Expr, places: Entries<nat>) {
    match e
    case Column(reference) => Place<nat>(reference, places).Some?
    case Call(_, arguments) => forall argument :: argument in arguments ==> AllFound(argument, places)
    case _ => true
  }

  lemma {:induction false} ReadAlikeIsWorthAlike(e: Expr, a: Entries<nat>, b: Entries<nat>, row: Row, ps: Parameters,
                                                 w: World)
    requires ReadsAlike(e, a, b)
    ensures Evaluate(e, Through(a, row), ps, w) == Evaluate(e, Through(b, row), ps, w)
    decreases e, 0
  {
    match e
    case Column(reference) =>
      ReadsThrough(a, reference, row);
      ReadsThrough(b, reference, row);
    case Call(_, arguments) =>
      AllReadAlikeAreWorthAlike(arguments, a, b, row, ps, w);
    case _ =>
  }

  lemma {:induction false} AllReadAlikeAreWorthAlike(es: seq<Expr>, a: Entries<nat>, b: Entries<nat>, row: Row,
                                                     ps: Parameters, w: World)
    requires forall e :: e in es ==> ReadsAlike(e, a, b)
    ensures EvaluateAll(es, Through(a, row), ps, w) == EvaluateAll(es, Through(b, row), ps, w)
    decreases es, 1
  {
    if es != [] {
      ReadAlikeIsWorthAlike(es[0], a, b, row, ps, w);
      AllReadAlikeAreWorthAlike(es[1..], a, b, row, ps, w);
    }
  }

  /** One reference that finds nothing refuses the whole expression. */
  lemma {:induction false} UnfoundIsRefused(e: Expr, places: Entries<nat>, row: Row, ps: Parameters, w: World)
    requires !AllFound(e, places)
    ensures Evaluate(e, Through(places, row), ps, w).Err?
    decreases e, 0
  {
    match e
    case Column(reference) =>
      ReadsThrough(places, reference, row);
    case Call(_, arguments) =>
      AnyUnfoundIsRefused(arguments, places, row, ps, w);
  }

  lemma {:induction false} AnyUnfoundIsRefused(es: seq<Expr>, places: Entries<nat>, row: Row, ps: Parameters, w: World)
    requires exists e :: e in es && !AllFound(e, places)
    ensures EvaluateAll(es, Through(places, row), ps, w).Err?
    decreases es, 1
  {
    if !AllFound(es[0], places) {
      UnfoundIsRefused(es[0], places, row, ps, w);
    } else {
      AnyUnfoundIsRefused(es[1..], places, row, ps, w);
    }
  }

  function Asked(c: Cond, row: Bindings, ps: Parameters, w: World): Result<Ternary> {
    match c
    case Comparison(l, op, r) =>
      var a :- Evaluate(l, row, ps, w);
      var b :- Evaluate(r, row, ps, w);
      if a.Null? || b.Null? then Ok(Unknown)
      else
        var holds :- Compare(op, a, b, w);
        Ok(if holds then True else False)
    case IsNull(e, negated) =>
      var v :- Evaluate(e, row, ps, w);
      Ok(if v.Null? != negated then True else False)
    case Test(test, arguments) =>
      var values :- EvaluateAll(arguments, row, ps, w);
      w.test(test, values)
    case And(x, y) =>
      var a :- Asked(x, row, ps, w);
      if a == False then Ok(False)
      else
        var b :- Asked(y, row, ps, w);
        Ok(if b == False then False else if a == Unknown || b == Unknown then Unknown else True)
    case Or(x, y) =>
      var a :- Asked(x, row, ps, w);
      if a == True then Ok(True)
      else
        var b :- Asked(y, row, ps, w);
        Ok(if b == True then True else if a == Unknown || b == Unknown then Unknown else False)
    case Not(x) =>
      var a :- Asked(x, row, ps, w);
      Ok(if a == True then False else if a == False then True else Unknown)
  }

  /** Whether a row satisfies a condition: only true passes. */
  function Matches(c: Cond, row: Bindings, ps: Parameters, w: World): Result<bool> {
    var t :- Asked(c, row, ps, w);
    Ok(t == True)
  }

  /** A missing WHERE keeps every row. */
  function Passes(where: Option<Cond>, row: Bindings, ps: Parameters, w: World): Result<bool> {
    if where.None? then Ok(true) else Matches(where.value, row, ps, w)
  }

  // ---- what AND, OR and NOT say --------------------------------------------

  /** False, unknown and true, in that order. */
  function Degree(t: Ternary): nat {
    match t case False => 0 case Unknown => 1 case True => 2
  }

  predicate Reaches(r: Result<Ternary>, degree: int) {
    r.Ok? && Degree(r.value) == degree
  }

  /** AND says the lesser of its parts where neither refuses. The second is reached
      only where the first is not false, and a part that is reached and refuses
      refuses the whole. */
  predicate IsTheLesser(a: Result<Ternary>, b: Result<Ternary>, both: Result<Ternary>) {
    && (a.Ok? && b.Ok? ==>
          Reaches(both, if Degree(a.value) <= Degree(b.value) then Degree(a.value) else Degree(b.value)))
    && (both.Err? <==> a.Err? || (a != Ok(False) && b.Err?))
  }

  /** OR says the greater, its second part reached only where the first is not true. */
  predicate IsTheGreater(a: Result<Ternary>, b: Result<Ternary>, either: Result<Ternary>) {
    && (a.Ok? && b.Ok? ==>
          Reaches(either, if Degree(a.value) <= Degree(b.value) then Degree(b.value) else Degree(a.value)))
    && (either.Err? <==> a.Err? || (a != Ok(True) && b.Err?))
  }

  lemma ThreeValuesAreOrdered(x: Cond, y: Cond, row: Bindings, ps: Parameters, w: World)
    ensures IsTheLesser(Asked(x, row, ps, w), Asked(y, row, ps, w), Asked(And(x, y), row, ps, w))
    ensures IsTheGreater(Asked(x, row, ps, w), Asked(y, row, ps, w), Asked(Or(x, y), row, ps, w))
  {
    var a, b := Asked(x, row, ps, w), Asked(y, row, ps, w);
    var both, either := Asked(And(x, y), row, ps, w), Asked(Or(x, y), row, ps, w);
    assert both == (if a.Err? then a else if a == Ok(False) then a else if b.Err? then b
                    else if b == Ok(False) then b else if a == Ok(Unknown) then a else b);
    assert either == (if a.Err? then a else if a == Ok(True) then a else if b.Err? then b
                      else if b == Ok(True) then b else if a == Ok(Unknown) then a else b);
    hide Asked;
  }

  /** NOT says as far from true as its part is from false. */
  lemma NotIsTheOpposite(x: Cond, row: Bindings, ps: Parameters, w: World)
    ensures var a, not := Asked(x, row, ps, w), Asked(Not(x), row, ps, w);
            if a.Ok? then Reaches(not, 2 - Degree(a.value)) else not == a
  {
  }

  /** NOT over AND is OR over NOT and the other way round, refusals and all. */
  lemma NotTurnsAndIntoOr(x: Cond, y: Cond, row: Bindings, ps: Parameters, w: World)
    ensures Asked(Not(And(x, y)), row, ps, w) == Asked(Or(Not(x), Not(y)), row, ps, w)
    ensures Asked(Not(Or(x, y)), row, ps, w) == Asked(And(Not(x), Not(y)), row, ps, w)
    ensures Asked(Not(Not(x)), row, ps, w) == Asked(x, row, ps, w)
  {
  }

  /** A comparison with NULL on either side says neither, and IS NULL tells it. */
  lemma NullIsUnknown(l: Expr, op: Operator, r: Expr, row: Bindings, ps: Parameters, w: World)
    requires Evaluate(l, row, ps, w).Ok? && Evaluate(r, row, ps, w).Ok?
    ensures Evaluate(l, row, ps, w).value.Null? || Evaluate(r, row, ps, w).value.Null? ==>
              Asked(Comparison(l, op, r), row, ps, w) == Ok(Unknown)
    ensures Asked(IsNull(l, false), row, ps, w) == Ok(if Evaluate(l, row, ps, w).value.Null? then True else False)
    ensures Asked(IsNull(l, true), row, ps, w) == Ok(if Evaluate(l, row, ps, w).value.Null? then False else True)
  {
  }

  // ---- the parts ANDed at the top ------------------------------------------

  function Conjuncts(c: Cond): (parts: seq<Cond>)
    ensures parts != []
  {
    if c.And? then Conjuncts(c.first) + Conjuncts(c.second) else [c]
  }

  function AllOf(parts: seq<Cond>): (c: Option<Cond>)
    ensures c.Some? <==> parts != []
  {
    if parts == [] then None
    else if |parts| == 1 then Some(parts[0])
    else Some(And(AllOf(parts[..|parts| - 1]).value, parts[|parts| - 1]))
  }

  predicate AllTrue(parts: seq<Cond>, row: Bindings, ps: Parameters, w: World) {
    forall part :: part in parts ==> Asked(part, row, ps, w) == Ok(True)
  }

  predicate NoneRefuses(parts: seq<Cond>, row: Bindings, ps: Parameters, w: World) {
    forall part :: part in parts ==> Asked(part, row, ps, w).Ok?
  }

  /** A condition is true exactly where every part ANDed in it is. */
  lemma {:induction false} TrueWhereEveryPartIs(c: Cond, row: Bindings, ps: Parameters, w: World)
    ensures Asked(c, row, ps, w) == Ok(True) <==> AllTrue(Conjuncts(c), row, ps, w)
    ensures NoneRefuses(Conjuncts(c), row, ps, w) ==> Asked(c, row, ps, w).Ok?
  {
    if c.And? {
      TrueWhereEveryPartIs(c.first, row, ps, w);
      TrueWhereEveryPartIs(c.second, row, ps, w);
      AndIsBoth(c.first, c.second, row, ps, w);
    }
  }

  /** ANDing parts back together keeps what they say as one. */
  lemma {:induction false} AllOfIsTrueWhereEveryPartIs(parts: seq<Cond>, row: Bindings, ps: Parameters, w: World)
    ensures Passes(AllOf(parts), row, ps, w) == Ok(true) <==> AllTrue(parts, row, ps, w)
    ensures NoneRefuses(parts, row, ps, w) ==> Passes(AllOf(parts), row, ps, w).Ok?
  {
    if |parts| > 1 {
      var n := |parts| - 1;
      var init, last := parts[..n], parts[n];
      AllOfIsTrueWhereEveryPartIs(init, row, ps, w);
      assert parts == init + [last];
      AndIsBoth(AllOf(init).value, last, row, ps, w);
      assert last in parts;
    }
  }

  lemma AndIsBoth(x: Cond, y: Cond, row: Bindings, ps: Parameters, w: World)
    ensures Asked(And(x, y), row, ps, w) == Ok(True)
       <==> Asked(x, row, ps, w) == Ok(True) && Asked(y, row, ps, w) == Ok(True)
    ensures Asked(x, row, ps, w).Ok? && Asked(y, row, ps, w).Ok? ==> Asked(And(x, y), row, ps, w).Ok?
  {
  }

  // ---- parameters ----------------------------------------------------------

  predicate Mentions(e: Expr, p: string) {
    match e
    case Parameter(name) => name == p
    case Call(_, arguments) => exists a :: a in arguments && Mentions(a, p)
    case _ => false
  }

  predicate CondMentions(c: Cond, p: string) {
    match c
    case Comparison(l, _, r) => Mentions(l, p) || Mentions(r, p)
    case IsNull(e, _) => Mentions(e, p)
    case Test(_, arguments) => exists a :: a in arguments && Mentions(a, p)
    case And(x, y) => CondMentions(x, p) || CondMentions(y, p)
    case Or(x, y) => CondMentions(x, p) || CondMentions(y, p)
    case Not(x) => CondMentions(x, p)
  }

  /** An expression reads no parameter it does not mention. */
  lemma {:induction false} UnmentionedIsUnread(e: Expr, p: string, v: Value, row: Bindings, ps: Parameters, w: World)
    requires !Mentions(e, p)
    ensures Evaluate(e, row, ps[p := v], w) == Evaluate(e, row, ps, w)
    decreases e, 0
  {
    if e.Call? {
      AllUnmentionedAreUnread(e.arguments, p, v, row, ps, w);
    }
  }

  lemma {:induction false} AllUnmentionedAreUnread(es: seq<Expr>, p: string, v: Value, row: Bindings, ps: Parameters,
                                                   w: World)
    requires forall e :: e in es ==> !Mentions(e, p)
    ensures EvaluateAll(es, row, ps[p := v], w) == EvaluateAll(es, row, ps, w)
    decreases es, 1
  {
    if es != [] {
      UnmentionedIsUnread(es[0], p, v, row, ps, w);
      AllUnmentionedAreUnread(es[1..], p, v, row, ps, w);
    }
  }

  lemma {:induction false} UnmentionedIsUnasked(c: Cond, p: string, v: Value, row: Bindings, ps: Parameters, w: World)
    requires !CondMentions(c, p)
    ensures Asked(c, row, ps[p := v], w) == Asked(c, row, ps, w)
  {
    match c
    case Comparison(l, _, r) =>
      UnmentionedIsUnread(l, p, v, row, ps, w);
      UnmentionedIsUnread(r, p, v, row, ps, w);
    case IsNull(e, _) => UnmentionedIsUnread(e, p, v, row, ps, w);
    case Test(_, arguments) => AllUnmentionedAreUnread(arguments, p, v, row, ps, w);
    case And(x, y) =>
      UnmentionedIsUnasked(x, p, v, row, ps, w);
      UnmentionedIsUnasked(y, p, v, row, ps, w);
    case Or(x, y) =>
      UnmentionedIsUnasked(x, p, v, row, ps, w);
      UnmentionedIsUnasked(y, p, v, row, ps, w);
    case Not(x) => UnmentionedIsUnasked(x, p, v, row, ps, w);
  }
}
