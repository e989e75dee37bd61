/** Exactly when TOP ... WITH TIES keeps the ties of its sort: the sort and the
    scan for ties look an expression's columns up each in a way of its own. */
module Ties {
  import opened Outcomes
  import opened Values
  import opened Expressions
  import opened StableSorting
  import opened OrderBy

  /** Where the rows can be sorted, the scan over them reaches the ties of the
      sort and is not refused. */
  predicate TiesAreTheSorts(rows: seq<Row>, keys: seq<OrderKey>, s: Statement, limit: nat) {
    var sorted := SortedRows(rows, keys, s);
    sorted.Ok? && 0 < limit < |sorted.value| ==> ScansTheTies(sorted.value, keys, s, limit)
  }

  lemma TieAlikeSuffices(rows: seq<Row>, keys: seq<OrderKey>, s: Statement, limit: nat)
    requires SortedRows(rows, keys, s).Ok? ==> TieAlike(rows, keys, s)
    ensures TiesAreTheSorts(rows, keys, s, limit)
  {
    var sorted := SortedRows(rows, keys, s);
    if sorted.Ok? && 0 < limit < |sorted.value| {
      SortedAreTheRows(rows, keys, s);
      hide SortedRows, Said, CanBeSaid;
      TieAlikeScansTheTies(sorted.value, keys, s, limit);
    }
  }

  /** Two rows that tie under one reading and not under the other, or that the scan
      cannot read, are scanned wrongly. */
  lemma TwoRowsApart(x: Row, y: Row, keys: seq<OrderKey>, s: Statement)
    requires Orderable([x, y], keys, Sorting(s))
    requires (CanBeSaid(x, keys, Scanning(s)) && CanBeSaid(y, keys, Scanning(s))) ==>
               (Said(x, keys, Sorting(s)) == Said(y, keys, Sorting(s)))
               != (Said(x, keys, Scanning(s)) == Said(y, keys, Scanning(s)))
    requires CanBeSaid(x, keys, Scanning(s)) == CanBeSaid(y, keys, Scanning(s))
    ensures !TiesAreTheSorts([x, y], keys, s, 1)
  {
    SortedAreTheRows([x, y], keys, s);
    var sorted := SortedRows([x, y], keys, s).value;
    hide SortedRows, Said, CanBeSaid, Orderable, Lexicographic, Sorted;
    assert sorted == [sorted[0], sorted[1]];
    TwoOfTwo(sorted[0], sorted[1], x, y);
    assert ReachFrom(sorted, keys, Sorting(s), Said(sorted[0], keys, Sorting(s)), 2) == 2;
    assert CanBeSaid(x, keys, Scanning(s)) ==>
        ScanFrom(sorted, keys, Scanning(s), Said(sorted[0], keys, Scanning(s)), 2) == Ok(2);
  }

  lemma TwoOfTwo(a: Row, b: Row, x: Row, y: Row)
    requires multiset([a, b]) == multiset([x, y])
    ensures (a == x && b == y) || (a == y && b == x)
  {
    assert a in multiset([x, y]) && b in multiset([x, y]) && x in multiset([a, b]) && y in multiset([a, b]);
  }

  // ---- a world that spells out what it is handed ---------------------------

  function Spelled(v: Value): string {
    if v.Text? then v.s else []
  }

  function SpelledAll(values: seq<Value>): string {
    if values == [] then [] else Spelled(values[0]) + SpelledAll(values[1..])
  }

  /** Functions answer their arguments written one after another, but for one as
      long as the goal: that is "1" where it is the goal and "0" where it is not. */
  function Spelling(goal: string): World {
    World(text => None, v => None, (f, values) => Ok(Text(Answered(SpelledAll(values) + ".", goal))),
          (test, values) => Err(Unreadable))
  }

  function Answered(written: string, goal: string): string {
    if |written| < |goal| then written else if written == goal then "1" else "0"
  }

  function Spell(e: Expr, places: Entries<nat>, row: Row, ps: Parameters): string {
    match e
    case Column(reference) =>
      var at := Place<nat>(reference, places);
      if at.Some? then Spelled(ValueAt(row, at.value)) else []
    case Parameter(name) => Spelled(if name in ps then ps[name] else Null)
    case Literal(v) => Spelled(v)
    case Call(_, arguments) => SpellAll(arguments, places, row, ps) + "."
  }

  function SpellAll(es: seq<Expr>, places: Entries<nat>, row: Row, ps: Parameters): string {
    if es == [] then [] else Spell(es[0], places, row, ps) + SpellAll(es[1..], places, row, ps)
  }

  lemma {:induction false} SpellsOut(e: Expr, places: Entries<nat>, row: Row, ps: Parameters, goal: string)
    requires AllFound(e, places) && (e.Call? ==> |Spell(e, places, row, ps)| < |goal|)
    ensures var v := Evaluate(e, Through(places, row), ps, Spelling(goal));
            v.Ok? && Spelled(v.value) == Spell(e, places, row, ps)
    decreases e, 0
  {
    match e
    case Column(reference) =>
      ReadsThrough(places, reference, row);
    case Call(_, arguments) =>
      AllSpellOut(arguments, places, row, ps, goal);
    case _ =>
  }

  lemma {:induction false} AllSpellOut(es: seq<Expr>, places: Entries<nat>, row: Row, ps: Parameters, goal: string)
    requires (forall e :: e in es ==> AllFound(e, places)) && |SpellAll(es, places, row, ps)| < |goal|
    ensures var values := EvaluateAll(es, Through(places, row), ps, Spelling(goal));
            values.Ok? && SpelledAll(values.value) == SpellAll(es, places, row, ps)
    decreases es, 1
  {
    if es != [] {
      SpellsOut(es[0], places, row, ps, goal);
      AllSpellOut(es[1..], places, row, ps, goal);
      var first := Evaluate(es[0], Through(places, row), ps, Spelling(goal)).value;
      var rest := EvaluateAll(es[1..], Through(places, row), ps, Spelling(goal)).value;
      assert ([first] + rest)[1..] == rest;
    }
  }

  /** A call as long as the goal says whether it is the goal. */
  lemma GoalIsTold(e: Expr, places: Entries<nat>, row: Row, ps: Parameters, goal: string)
    requires e.Call? && AllFound(e, places) && |Spell(e, places, row, ps)| == |goal|
    ensures Evaluate(e, Through(places, row), ps, Spelling(goal))
         == Ok(Text(if Spell(e, places, row, ps) == goal then "1" else "0"))
  {
    AllSpellOut(e.arguments, places, row, ps, goal);
  }

  // ---- two rows unlike at one place ----------------------------------------

  function Zeros(width: nat): (row: Row)
    ensures |row| == width && forall i :: 0 <= i < width ==> row[i] == Text("0")
  {
    seq(width, i => Text("0"))
  }

  function OneAt(width: nat, p: nat): (row: Row)
    ensures |row| == width
    ensures forall i :: 0 <= i < width ==> row[i] == Text(if i == p then "1" else "0")
  {
    seq(width, i => Text(if i == p then "1" else "0"))
  }

  predicate OneLetterEach(row: Row) {
    forall i :: 0 <= i < |row| ==> row[i].Text? && |row[i].s| == 1
  }

  /** Over rows of one letter a column an expression spells out as long, wherever
      it reads. */
  lemma {:induction false} SameLength(e: Expr, a: Entries<nat>, x: Row, b: Entries<nat>, y: Row, ps: Parameters)
    requires AllFound(e, a) && AllFound(e, b) && InRange(a, |x|) && InRange(b, |y|)
    requires OneLetterEach(x) && OneLetterEach(y)
    ensures |Spell(e, a, x, ps)| == |Spell(e, b, y, ps)|
    decreases e, 0
  {
    match e
    case Column(reference) =>
      PlaceInRange(a, reference, |x|);
      PlaceInRange(b, reference, |y|);
    case Call(_, arguments) =>
      AllSameLength(arguments, a, x, b, y, ps);
    case _ =>
  }

  lemma {:induction false} AllSameLength(es: seq<Expr>, a: Entries<nat>, x: Row, b: Entries<nat>, y: Row,
                                         ps: Parameters)
    requires forall e :: e in es ==> AllFound(e, a) && AllFound(e, b)
    requires InRange(a, |x|) && InRange(b, |y|) && OneLetterEach(x) && OneLetterEach(y)
    ensures |SpellAll(es, a, x, ps)| == |SpellAll(es, b, y, ps)|
    decreases es, 1
  {
    if es != [] {
      SameLength(es[0], a, x, b, y, ps);
      AllSameLength(es[1..], a, x, b, y, ps);
    }
  }

  /** Some reference reads p in the one and not in the other. */
  predicate ReadsElsewhere(e: Expr, a: Entries<nat>, b: Entries<nat>, p: nat) {
    match e
    case Column(reference) => Place<nat>(reference, a) == Some(p) != Place<nat>(reference, b)
    case Call(_, arguments) => exists argument :: argument in arguments && ReadsElsewhere(argument, a, b, p)
    case _ => false
  }

  lemma {:induction false} SomeReadElsewhere(e: Expr, a: Entries<nat>, b: Entries<nat>, width: nat) returns (p: nat)
    requires AllFound(e, a) && !ReadsAlike(e, a, b) && InRange(a, width)
    ensures p < width && ReadsElsewhere(e, a, b, p)
  {
    match e
    case Column(reference) =>
      PlaceInRange(a, reference, width);
      p := Place<nat>(reference, a).value;
    case Call(_, arguments) =>
      var argument :| argument in arguments && !ReadsAlike(argument, a, b);
      p := SomeReadElsewhere(argument, a, b, width);
  }

  /** Read where p is looked at, the row with a one at p spells what neither row
      does read elsewhere, nor the row of noughts read there. */
  predicate Elsewhere(a: Entries<nat>, b: Entries<nat>, p: nat, there: Entries<nat>, row: Row) {
    (there == a && row == Zeros(|row|)) || (there == b && (row == Zeros(|row|) || row == OneAt(|row|, p)))
  }

  lemma {:induction false} SpelledApart(e: Expr, a: Entries<nat>, b: Entries<nat>, p: nat, there: Entries<nat>,
                                        row: Row, ps: Parameters)
    requires p < |row| && InRange(a, |row|) && InRange(there, |row|) && AllFound(e, a) && AllFound(e, there)
    requires ReadsElsewhere(e, a, b, p) && Elsewhere(a, b, p, there, row)
    ensures Spell(e, a, OneAt(|row|, p), ps) != Spell(e, there, row, ps)
    decreases e, 0
  {
    match e
    case Column(reference) =>
      PlaceInRange(there, reference, |row|);
      assert "1"[0] != "0"[0];
    case Call(_, arguments) =>
      AllSpelledApart(arguments, a, b, p, there, row, ps);
      ApartTogether(SpellAll(arguments, a, OneAt(|row|, p), ps), ".", SpellAll(arguments, there, row, ps), ".");
  }

  lemma {:induction false} AllSpelledApart(es: seq<Expr>, a: Entries<nat>, b: Entries<nat>, p: nat,
                                           there: Entries<nat>, row: Row, ps: Parameters)
    requires p < |row| && InRange(a, |row|) && InRange(there, |row|)
    requires forall e :: e in es ==> AllFound(e, a) && AllFound(e, there)
    requires (exists e :: e in es && ReadsElsewhere(e, a, b, p)) && Elsewhere(a, b, p, there, row)
    ensures |SpellAll(es, a, OneAt(|row|, p), ps)| == |SpellAll(es, there, row, ps)|
    ensures SpellAll(es, a, OneAt(|row|, p), ps) != SpellAll(es, there, row, ps)
    decreases es, 1
  {
    var one := OneAt(|row|, p);
    SameLength(es[0], a, one, there, row, ps);
    AllSameLength(es, a, one, there, row, ps);
    if ReadsElsewhere(es[0], a, b, p) {
      SpelledApart(es[0], a, b, p, there, row, ps);
    } else {
      AllSpelledApart(es[1..], a, b, p, there, row, ps);
    }
    ApartTogether(Spell(es[0], a, one, ps), SpellAll(es[1..], a, one, ps),
                  Spell(es[0], there, row, ps), SpellAll(es[1..], there, row, ps));
  }

  lemma ApartTogether(x: string, y: string, u: string, v: string)
    ensures |x| == |u| && (x != u || y != v) ==> x + y != u + v
  {
    assert (x + y)[..|x|] == x && (x + y)[|x|..] == y;
    assert (u + v)[..|u|] == u && (u + v)[|u|..] == v;
  }

  // ---- one key -------------------------------------------------------------

  /** In the world whose goal is what the sort reads of the one at p, the sort
      tells the two rows apart and the scan does not. */
  lemma ValuesApart(e: Expr, a: Entries<nat>, b: Entries<nat>, p: nat, width: nat, ps: Parameters)
    requires p < width && InRange(a, width) && InRange(b, width)
    requires AllFound(e, a) && AllFound(e, b) && ReadsElsewhere(e, a, b, p)
    ensures var w, zeros, one := Spelling(Spell(e, a, OneAt(width, p), ps)), Zeros(width), OneAt(width, p);
            && Evaluate(e, Through(a, one), ps, w) == Ok(Text("1"))
            && Evaluate(e, Through(a, zeros), ps, w) == Ok(Text("0"))
            && Evaluate(e, Through(b, one), ps, w) == Ok(Text("0"))
            && Evaluate(e, Through(b, zeros), ps, w) == Ok(Text("0"))
  {
    var zeros, one := Zeros(width), OneAt(width, p);
    var goal := Spell(e, a, one, ps);
    match e
    case Column(reference) =>
      ReadsThrough(a, reference, one);
      ReadsThrough(a, reference, zeros);
      ReadsThrough(b, reference, one);
      ReadsThrough(b, reference, zeros);
      PlaceInRange(b, reference, width);
    case Call(_, _) =>
      SpelledApart(e, a, b, p, a, zeros, ps);
      SpelledApart(e, a, b, p, b, zeros, ps);
      SpelledApart(e, a, b, p, b, one, ps);
      SameLength(e, a, one, a, zeros, ps);
      SameLength(e, a, one, b, zeros, ps);
      SameLength(e, a, one, b, one, ps);
      hide Spell, AllFound, Evaluate, ReadsElsewhere, Spelling;
      GoalIsTold(e, a, one, ps, goal);
      GoalIsTold(e, a, zeros, ps, goal);
      GoalIsTold(e, b, one, ps, goal);
      GoalIsTold(e, b, zeros, ps, goal);
  }

  /** A sort by one expression, whatever it computes: WITH TIES keeps the ties of
      the sort in every world and over all rows of so many columns, exactly where
      every column it names is found at the place the sort finds it, or the sort
      does not find one of them at all and refuses. */
  lemma OneKeyTiesExactly(e: Expr, descending: bool, sorting: Entries<nat>, scanning: Entries<nat>, ps: Parameters,
                          width: nat)
    requires InRange(sorting, width) && InRange(scanning, width)
    ensures (forall w, rows, limit ::
               OfWidth(rows, Statement(sorting, scanning, ps, w), width) && 0 < limit < |rows| ==>
                 TiesAreTheSorts(rows, [OrderKey(Worked(e), descending)], Statement(sorting, scanning, ps, w), limit))
       <==> !AllFound(e, sorting) || ReadsAlike(e, sorting, scanning)
  {
    var keys := [OrderKey(Worked(e), descending)];
    if !AllFound(e, sorting) || ReadsAlike(e, sorting, scanning) {
      forall w, rows, limit: nat
        | OfWidth(rows, Statement(sorting, scanning, ps, w), width) && 0 < limit < |rows|
        ensures TiesAreTheSorts(rows, keys, Statement(sorting, scanning, ps, w), limit)
      {
        OneKeyScansTheTies(e, descending, rows, Statement(sorting, scanning, ps, w), width, limit);
      }
    } else {
      var w, x, y := OneKeyScannedWrongly(e, descending, sorting, scanning, ps, width);
      var s := Statement(sorting, scanning, ps, w);
      assert OfWidth([x, y], s, width);
      assert !TiesAreTheSorts([x, y], keys, s, 1);
    }
  }

  lemma OneKeyScansTheTies(e: Expr, descending: bool, rows: seq<Row>, s: Statement, width: nat, limit: nat)
    requires OfWidth(rows, s, width) && rows != [] && (!AllFound(e, s.sorting) || ReadsAlike(e, s.sorting, s.scanning))
    ensures TiesAreTheSorts(rows, [OrderKey(Worked(e), descending)], s, limit)
  {
    var keys := [OrderKey(Worked(e), descending)];
    if SortedRows(rows, keys, s).Ok? {
      assert CanOrder(rows, keys[0], Sorting(s)) && rows[0] in rows;
      if !AllFound(e, s.sorting) {
        UnfoundIsRefused(e, s.sorting, rows[0], s.ps, s.w);
      }
      ReadAlikeTieAlike(rows, keys, s, width);
    }
    TieAlikeSuffices(rows, keys, s, limit);
  }

  lemma OneKeyScannedWrongly(e: Expr, descending: bool, sorting: Entries<nat>, scanning: Entries<nat>, ps: Parameters,
                             width: nat) returns (w: World, x: Row, y: Row)
    requires InRange(sorting, width) && InRange(scanning, width)
    requires AllFound(e, sorting) && !ReadsAlike(e, sorting, scanning)
    ensures |x| == width && |y| == width
    ensures !TiesAreTheSorts([x, y], [OrderKey(Worked(e), descending)], Statement(sorting, scanning, ps, w), 1)
  {
    hide AllFound, ReadsAlike, Spell, WorkedApart, TiesAreTheSorts, Spelling;
    if AllFound(e, scanning) {
      var p := SomeReadElsewhere(e, sorting, scanning, width);
      w, x, y := Spelling(Spell(e, sorting, OneAt(width, p), ps)), Zeros(width), OneAt(width, p);
      WorkedElsewhere(e, sorting, scanning, p, width, ps);
    } else {
      x, y := Zeros(width), Zeros(width);
      w := Spelling(Spell(e, sorting, x, ps) + ".");
      WorkedByTheSortAlone(e, sorting, scanning, x, ps);
    }
    OneKeyApart(e, OrderKey(Worked(e), descending), Statement(sorting, scanning, ps, w), x, y);
  }

  lemma WorkedElsewhere(e: Expr, a: Entries<nat>, b: Entries<nat>, p: nat, width: nat, ps: Parameters)
    requires p < width && InRange(a, width) && InRange(b, width)
    requires AllFound(e, a) && AllFound(e, b) && ReadsElsewhere(e, a, b, p)
    ensures var w := Spelling(Spell(e, a, OneAt(width, p), ps));
            WorkedApart(e, Statement(a, b, ps, w), Zeros(width), OneAt(width, p))
  {
    ValuesApart(e, a, b, p, width, ps);
    hide Evaluate, AllFound, ReadsElsewhere, Spell, Spelling;
    assert "1"[0] != "0"[0];
    assert Zeros(width)[p] != OneAt(width, p)[p];
    assert Collated(Text("0")) != Collated(Text("1")) by {
      assert Fold("0")[0] == '0' && Fold("1")[0] == '1';
    }
  }

  lemma WorkedByTheSortAlone(e: Expr, a: Entries<nat>, b: Entries<nat>, row: Row, ps: Parameters)
    requires AllFound(e, a) && !AllFound(e, b)
    ensures WorkedApart(e, Statement(a, b, ps, Spelling(Spell(e, a, row, ps) + ".")), row, row)
  {
    var goal := Spell(e, a, row, ps) + ".";
    SpellsOut(e, a, row, ps, goal);
    UnfoundIsRefused(e, b, row, ps, Spelling(goal));
  }

  /** For two rows the sort works out text, unless they are one, and then the scan
      is refused; it works out the same of both and the scan does not, or the scan
      does and it does not. */
  predicate WorkedApart(e: Expr, s: Statement, x: Row, y: Row) {
    var a, b := Evaluate(e, Through(s.sorting, x), s.ps, s.w), Evaluate(e, Through(s.sorting, y), s.ps, s.w);
    var c, d := Evaluate(e, Through(s.scanning, x), s.ps, s.w), Evaluate(e, Through(s.scanning, y), s.ps, s.w);
    && a.Ok? && b.Ok?
    && if x == y then c.Err?
       else
         && a.value.Text? && b.value.Text? && c.Ok? && d.Ok?
         && (Collated(a.value) == Collated(b.value)) != (Collated(c.value) == Collated(d.value))
  }

  lemma OneKeyApart(e: Expr, key: OrderKey, s: Statement, x: Row, y: Row)
    requires key.plan == Worked(e) && InRange(s.sorting, |x|) && InRange(s.scanning, |x|) && |y| == |x|
    requires WorkedApart(e, s, x, y)
    ensures !TiesAreTheSorts([x, y], [key], s, 1)
  {
    var keys := [key];
    hide Evaluate;
    assert forall row, r :: Said(row, keys, r) == [KeyOf(key.plan, row, r)] + Said(row, keys[1..], r);
    assert keys[1..] == [];
    assert forall row, r :: Said(row, keys, r) == [KeyOf(key.plan, row, r)];
    assert CanOrder([x, y], key, Sorting(s));
    TwoRowsApart(x, y, keys, s);
  }

  // ---- keys that are columns -----------------------------------------------

  function PlaceOf(plan: Plan, places: Entries<nat>): Option<nat> {
    match plan
    case At(i) => Some(i)
    case Worked(e) => if e.Column? then Place<nat>(e.reference, places) else None
  }

  /** Every key is a column or a position. */
  predicate Plain(keys: seq<OrderKey>) {
    forall i :: 0 <= i < |keys| ==> keys[i].plan.At? || keys[i].plan.e.Column?
  }

  predicate AllPlaced(keys: seq<OrderKey>, places: Entries<nat>, width: nat) {
    forall i :: 0 <= i < |keys| ==> var at := PlaceOf(keys[i].plan, places); at.Some? && at.value < width
  }

  function PlacesRead(keys: seq<OrderKey>, places: Entries<nat>): set<nat> {
    if keys == [] then {}
    else
      var at := PlaceOf(keys[0].plan, places);
      (if at.Some? then {at.value} else {}) + PlacesRead(keys[1..], places)
  }

  lemma {:induction false} PlacedInRange(keys: seq<OrderKey>, places: Entries<nat>, width: nat)
    requires AllPlaced(keys, places, width)
    ensures forall p :: p in PlacesRead(keys, places) ==> p < width
  {
    if keys != [] {
      PlacedInRange(keys[1..], places, width);
    }
  }

  lemma PlainValue(plan: Plan, r: Reading, row: Row)
    requires (plan.At? || plan.e.Column?) && InRange(r.places, |row|)
    ensures var at := PlaceOf(plan, r.places);
            ValueOf(plan, row, r) == if at.Some? && at.value < |row| then Ok(row[at.value]) else Err(Unreadable)
  {
    if plan.Worked? {
      PlaceInRange(r.places, plan.e.reference, |row|);
      ReadsThrough(r.places, plan.e.reference, row);
    }
  }

  lemma PlainSaid(keys: seq<OrderKey>, r: Reading, row: Row)
    requires Plain(keys) && InRange(r.places, |row|)
    ensures CanBeSaid(row, keys, r) <==> AllPlaced(keys, r.places, |row|)
  {
    forall i | 0 <= i < |keys|
      ensures ValueOf(keys[i].plan, row, r).Ok? <==>
              var at := PlaceOf(keys[i].plan, r.places); at.Some? && at.value < |row|
    {
      PlainValue(keys[i].plan, r, row);
    }
  }

  /** Rows say the same of such keys exactly where they hold the same at each place
      the keys read. */
  lemma {:induction false} SaidByPlaces(keys: seq<OrderKey>, r: Reading, x: Row, y: Row)
    requires Plain(keys) && |x| == |y| && InRange(r.places, |x|) && AllPlaced(keys, r.places, |x|)
    ensures (forall p :: p in PlacesRead(keys, r.places) ==> p < |x|)
    ensures Said(x, keys, r) == Said(y, keys, r)
       <==> forall p :: p in PlacesRead(keys, r.places) ==> Collated(x[p]) == Collated(y[p])
  {
    PlacedInRange(keys, r.places, |x|);
    if keys != [] {
      SaidByPlaces(keys[1..], r, x, y);
      PlainValue(keys[0].plan, r, x);
      PlainValue(keys[0].plan, r, y);
      hide PlaceOf, ValueOf, Collated;
      assert Said(x, keys, r)[0] == KeyOf(keys[0].plan, x, r) && Said(y, keys, r)[0] == KeyOf(keys[0].plan, y, r);
      assert Said(x, keys, r)[1..] == Said(x, keys[1..], r) && Said(y, keys, r)[1..] == Said(y, keys[1..], r);
    }
  }

  /** A sort by any number of columns and positions: WITH TIES keeps the ties of
      the sort over all rows of so many columns, exactly where the sort does not
      find one of them and refuses, or the scan finds all of them, at the same
      places taken together. */
  lemma PlainKeysTieExactly(keys: seq<OrderKey>, s: Statement, width: nat)
    requires Plain(keys) && InRange(s.sorting, width) && InRange(s.scanning, width)
    ensures (forall rows, limit ::
               OfWidth(rows, s, width) && 0 < limit < |rows| ==> TiesAreTheSorts(rows, keys, s, limit))
       <==> !AllPlaced(keys, s.sorting, width) || ReadsTheSamePlaces(keys, s, width)
  {
    if !AllPlaced(keys, s.sorting, width) || ReadsTheSamePlaces(keys, s, width) {
      forall rows, limit: nat | OfWidth(rows, s, width) && 0 < limit < |rows|
        ensures TiesAreTheSorts(rows, keys, s, limit)
      {
        PlainKeysScanTheTies(keys, s, width, rows, limit);
      }
    } else {
      var x, y := PlainKeysScannedWrongly(keys, s, width);
      assert OfWidth([x, y], s, width) && !TiesAreTheSorts([x, y], keys, s, 1);
    }
  }

  predicate ReadsTheSamePlaces(keys: seq<OrderKey>, s: Statement, width: nat) {
    AllPlaced(keys, s.scanning, width) && PlacesRead(keys, s.sorting) == PlacesRead(keys, s.scanning)
  }

  lemma PlainKeysScanTheTies(keys: seq<OrderKey>, s: Statement, width: nat, rows: seq<Row>, limit: nat)
    requires Plain(keys) && OfWidth(rows, s, width) && rows != []
    requires !AllPlaced(keys, s.sorting, width) || ReadsTheSamePlaces(keys, s, width)
    ensures TiesAreTheSorts(rows, keys, s, limit)
  {
    hide AllPlaced, PlacesRead, Said, CanBeSaid;
    if SortedRows(rows, keys, s).Ok? {
      assert rows[0] in rows;
      PlainSaid(keys, Sorting(s), rows[0]);
      OrderableIsSaid(rows, keys, Sorting(s), rows[0]);
      forall row | row in rows ensures CanBeSaid(row, keys, Scanning(s)) {
        PlainSaid(keys, Scanning(s), row);
      }
      forall x, y | x in rows && y in rows
        ensures Said(x, keys, Sorting(s)) == Said(y, keys, Sorting(s))
           <==> Said(x, keys, Scanning(s)) == Said(y, keys, Scanning(s))
      {
        SaidByPlaces(keys, Sorting(s), x, y);
        SaidByPlaces(keys, Scanning(s), x, y);
      }
    }
    TieAlikeSuffices(rows, keys, s, limit);
  }

  lemma OrderableIsSaid(rows: seq<Row>, keys: seq<OrderKey>, r: Reading, row: Row)
    requires Orderable(rows, keys, r) && row in rows
    ensures CanBeSaid(row, keys, r)
  {
    forall i | 0 <= i < |keys| ensures ValueOf(keys[i].plan, row, r).Ok? {
      assert CanOrder(rows, keys[i], r);
    }
  }

  lemma PlainKeysScannedWrongly(keys: seq<OrderKey>, s: Statement, width: nat) returns (x: Row, y: Row)
    requires Plain(keys) && InRange(s.sorting, width) && InRange(s.scanning, width)
    requires AllPlaced(keys, s.sorting, width) && !ReadsTheSamePlaces(keys, s, width)
    ensures |x| == width && |y| == width && !TiesAreTheSorts([x, y], keys, s, 1)
  {
    hide AllPlaced, PlacesRead, Said, CanBeSaid, TiesAreTheSorts;
    x, y := Zeros(width), Zeros(width);
    if AllPlaced(keys, s.scanning, width) {
      var p :| (p in PlacesRead(keys, s.sorting)) != (p in PlacesRead(keys, s.scanning));
      PlacedInRange(keys, s.sorting, width);
      PlacedInRange(keys, s.scanning, width);
      y := OneAt(width, p);
      ZerosAndOne(width, p);
      SaidByPlaces(keys, Sorting(s), x, y);
      SaidByPlaces(keys, Scanning(s), x, y);
    }
    LettersCanBeOrdered(keys, s, x, y);
    PlainSaid(keys, Scanning(s), x);
    PlainSaid(keys, Scanning(s), y);
    TwoRowsApart(x, y, keys, s);
  }

  lemma ZerosAndOne(width: nat, p: nat)
    requires p < width
    ensures forall i :: 0 <= i < width ==> (Collated(Zeros(width)[i]) == Collated(OneAt(width, p)[i]) <==> i != p)
  {
    assert Fold("0")[0] == '0' && Fold("1")[0] == '1';
  }

  lemma LettersCanBeOrdered(keys: seq<OrderKey>, s: Statement, x: Row, y: Row)
    requires Plain(keys) && |x| == |y| && InRange(s.sorting, |x|) && AllPlaced(keys, s.sorting, |x|)
    requires OneLetterEach(x) && OneLetterEach(y)
    ensures Orderable([x, y], keys, Sorting(s))
  {
    forall i | 0 <= i < |keys| ensures CanOrder([x, y], keys[i], Sorting(s)) {
      PlainValue(keys[i].plan, Sorting(s), x);
      PlainValue(keys[i].plan, Sorting(s), y);
    }
  }

  // ---- statements that tie otherwise than they sort ------------------------

  // A key that computes what it is handed, over one column.
  const SAME: World :=
    World(text => None, v => None, (f, values) => if |values| == 1 then Ok(values[0]) else Err(Unreadable),
          (test, values) => Err(Unreadable))

  function Over(column: string): Expr {
    Call("plus", [Column(Reference(None, column))])
  }

  lemma OverReads(column: string, places: Entries<nat>, row: Row, ps: Parameters)
    ensures var at := Place<nat>(Reference(None, column), places);
            && AllFound(Over(column), places) == at.Some?
            && Evaluate(Over(column), Through(places, row), ps, SAME)
               == if at.Some? then Ok(ValueAt(row, at.value)) else Err(Unreadable)
  {
    var reference := Reference(None, column);
    ReadsThrough(places, reference, row);
    var e, found := Column(reference), Place<nat>(reference, places);
    assert AllFound(e, places) == found.Some? && [e][0] == e && [e][1..] == [];
    assert Evaluate(e, Through(places, row), ps, SAME)
        == if found.Some? then Ok(ValueAt(row, found.value)) else Err(Unreadable);
    assert EvaluateAll([], Through(places, row), ps, SAME) == Ok([]);
    hide Place, ValueAt;
    if found.Some? {
      var v := ValueAt(row, found.value);
      assert EvaluateAll([e], Through(places, row), ps, SAME) == Ok([v] + []);
      assert [v] + [] == [v];
    }
  }

  // Two columns k and K, ordered by a value of k: the sort reads the last of them,
  // the scan the first.
  lemma CasedPlaces()
    ensures var s := OverTable(["k", "K"], map[], SAME);
            && Place<nat>(Reference(None, "k"), s.sorting) == Some(1)
            && Place<nat>(Reference(None, "k"), s.scanning) == Some(0)
  {
    BoundInTwo("k", "K");
    assert Fold("k")[0] == 'k' && Fold("K")[0] == 'k' && "k"[0] != "K"[0];
    assert Fold("k") == "k" && Fold("K") == "k";
    assert FoldAll(["k", "K"]) == ["k", "k"];
    BoundInTwo("k", "k");
  }

  lemma BoundInTwo(a: string, b: string)
    ensures Bind<nat>([a, b], Ordinals(2)) == if a == b then [(a, 1)] else [(a, 0), (b, 1)]
  {
    var names, places := [a, b], Ordinals(2);
    assert places == [0, 1] && names[..1] == [a] && places[..1] == [0];
    assert [a][..0] == [] && [0][..0] == [];
    var none: Entries<nat>, one: Entries<nat> := [], [(a, 0)];
    assert Bind<nat>([], []) == none && Rebound<nat>(none, a, 0) == one;
    assert Bind<nat>([a], [0]) == one;
    assert one[1..] == none && Rebound<nat>(none, b, 1) == [(b, 1)];
    assert Rebound<nat>(one, b, 1) == if a == b then [(a, 1)] else [(a, 0), (b, 1)];
    assert Bind<nat>(names, places) == Rebound<nat>(one, b, 1);
  }

  /** TOP 1 WITH TIES keeps a second row that sorts after the first. */
  lemma CaseTiesOnAnotherColumn()
    ensures var s, keys := OverTable(["k", "K"], map[], SAME), [OrderKey(Worked(Over("k")), false)];
            var rows: seq<Row> := [[Int(0), Int(1)], [Int(0), Int(2)]];
            && SortedRows(rows, keys, s) == Ok(rows) && Tied(1, rows, keys, Scanning(s)) == Ok(rows)
            && !Lexicographic(OrdersOf(keys, Sorting(s)))(rows[1], rows[0])
  {
    var s, key := OverTable(["k", "K"], map[], SAME), OrderKey(Worked(Over("k")), false);
    var a: Row, b: Row := [Int(0), Int(1)], [Int(0), Int(2)];
    CasedPlaces();
    forall row: Row | |row| == 2
      ensures ValueOf(key.plan, row, Sorting(s)) == Ok(row[1]) && ValueOf(key.plan, row, Scanning(s)) == Ok(row[0])
    {
      BoundInRange(FoldAll(["k", "K"]), Ordinals(2), 2);
      BoundInRange(["k", "K"], Ordinals(2), 2);
      OverReads("k", s.sorting, row, s.ps);
      OverReads("k", s.scanning, row, s.ps);
    }
    hide ValueOf, OverTable, Place, FoldAll;
    TwoInOrder(a, b, key, s);
  }

  lemma PairInOrder<T>(a: T, b: T, leq: Order<T>)
    requires leq(a, b)
    ensures StableSort([a, b], leq) == [a, b]
  {
    assert [a, b][1..] == [b] && [b][1..] == [];
    assert StableSort([b], leq) == [b];
    assert Insert(a, [b], leq) == [a] + [b];
  }

  lemma TwoInOrder(a: Row, b: Row, key: OrderKey, s: Statement)
    requires ValueOf(key.plan, a, Sorting(s)) == Ok(Int(1)) && ValueOf(key.plan, b, Sorting(s)) == Ok(Int(2))
    requires ValueOf(key.plan, a, Scanning(s)) == ValueOf(key.plan, b, Scanning(s)) == Ok(Int(0)) && !key.descending
    ensures SortedRows([a, b], [key], s) == Ok([a, b]) && Tied(1, [a, b], [key], Scanning(s)) == Ok([a, b])
    ensures !Lexicographic(OrdersOf([key], Sorting(s)))(b, a)
  {
    hide ValueOf;
    var z, c, keys, rows := Sorting(s), Scanning(s), [key], [a, b];
    var leq := Lexicographic(OrdersOf(keys, z));
    assert OrdersOf(keys, z)[1..] == [] && keys[1..] == [];
    assert leq(a, b) && !leq(b, a);
    PairInOrder(a, b, leq);
    assert CanOrder(rows, key, z);
    assert Said(a, keys, c) == [KeyOf(key.plan, a, c)] + Said(a, [], c);
    assert Said(b, keys, c) == [KeyOf(key.plan, b, c)] + Said(b, [], c);
    assert Said(a, keys, c) == Said(b, keys, c) && CanBeSaid(a, keys, c) && CanBeSaid(b, keys, c);
    assert ScanFrom(rows, keys, c, Said(a, keys, c), 2) == Ok(2);
    assert ScanFrom(rows, keys, c, Said(a, keys, c), 1) == Ok(2);
    assert Scan(rows, keys, c, 1) == Ok(2);
  }

  // Two columns t.k and t.K, ordered by a value of k: in lower case they are one
  // column, which the bare name means, and as they are it means neither.
  lemma AmbiguousPlaces(ps: Parameters, w: World)
    ensures var s := OverTable(["t.k", "t.K"], ps, w);
            && Place<nat>(Reference(None, "k"), s.sorting) == Some(1)
            && Place<nat>(Reference(None, "k"), s.scanning) == None
  {
    FoldedNames();
    BoundInTwo("t.k", "t.k");
    BoundInTwo("t.k", "t.K");
    LastPartIs("t.k", 'k');
    LastPartIs("t.K", 'K');
    hide FoldAll, Fold, LastPart, Bind;
    var one: Entries<nat>, two: Entries<nat> := [("t.k", 1)], [("t.k", 0), ("t.K", 1)];
    assert one[1..] == [] && two[1..] == [("t.K", 1)] && two[1..][1..] == [];
    assert Qualified<nat>(one, "k") == [1];
    assert Qualified<nat>(two, "k") == [0, 1];
  }

  lemma FoldedNames()
    ensures FoldAll(["t.k", "t.K"]) == ["t.k", "t.k"] && "t.k" != "t.K"
    ensures Fold("k") == Fold("K") && Fold("t.k") != Fold("k") && Fold("t.K") != Fold("k")
  {
    assert Fold("t.k") == "t.k" && Fold("t.K") == "t.k" && "t.k"[2] != "t.K"[2];
    assert |Fold("k")| == 1 && Fold("k")[0] == 'k' && Fold("K")[0] == 'k';
  }

  lemma LastPartIs(name: string, c: char)
    requires |name| == 3 && name[1] == '.' && name[2] == c && c != '.'
    ensures LastPart(name) == Some([c])
  {
    var tail := name[1..];
    assert tail[1..] == [c] && [c][1..] == [];
    assert LastPart([]) == None && LastPart([c]) == None;
    assert LastPart(tail) == Some([c]);
  }

  /** A table so ordered sorts, and the scan for its ties is refused. */
  lemma AmbiguousTieIsRefused(rows: seq<Row>, ps: Parameters, limit: nat)
    requires (forall row :: row in rows ==> |row| == 2) && 0 < limit < |rows|
    ensures var s, keys := OverTable(["t.k", "t.K"], ps, SAME), [OrderKey(Worked(Over("k")), false)];
            && (forall row :: row in rows ==> ValueOf(keys[0].plan, row, Sorting(s)) == Ok(row[1]))
            && Tied(limit, rows, keys, Scanning(s)).Err?
  {
    var s := OverTable(["t.k", "t.K"], ps, SAME);
    AmbiguousPlaces(ps, SAME);
    BoundInRange(FoldAll(["t.k", "t.K"]), Ordinals(2), 2);
    SortedAndRefused("k", rows, s, limit);
  }

  /** What the sort reads at the second place and the scan does not find. */
  lemma SortedAndRefused(column: string, rows: seq<Row>, s: Statement, limit: nat)
    requires s.w == SAME && InRange(s.sorting, 2) && Place<nat>(Reference(None, column), s.sorting) == Some(1)
    requires Place<nat>(Reference(None, column), s.scanning) == None
    requires (forall row :: row in rows ==> |row| == 2) && 0 < limit < |rows|
    ensures var keys := [OrderKey(Worked(Over(column)), false)];
            && (forall row :: row in rows ==> ValueOf(keys[0].plan, row, Sorting(s)) == Ok(row[1]))
            && Tied(limit, rows, keys, Scanning(s)).Err?
  {
    var keys := [OrderKey(Worked(Over(column)), false)];
    hide Place, Over, Evaluate;
    forall row | row in rows ensures ValueOf(keys[0].plan, row, Sorting(s)) == Ok(row[1]) {
      OverReads(column, s.sorting, row, s.ps);
    }
    OverReads(column, s.scanning, rows[limit - 1], s.ps);
    assert ValueOf(keys[0].plan, rows[limit - 1], Scanning(s)).Err?;
  }

  // SELECT team, COUNT(*) AS n, grouped by team, ordered by a value of COUNT(*).
  const ANSWERS: seq<seq<string>> := [["team", "team"], ["n", "count(*)"]]

  lemma GroupedPlaces(ps: Parameters, w: World)
    ensures var s := OverGroups(ANSWERS, ["team", "n"], ps, w);
            && s.sorting == [("team", 0), ("n", 1), ("count(*)", 1)]
            && Place<nat>(Reference(None, "count(*)"), s.sorting) == Some(1)
            && Place<nat>(Reference(None, "count(*)"), s.scanning) == None
  {
    BoundInTwo("team", "n");
    FoldedAlready();
    FirstAnswers();
    NoDots();
    assert |Fold("team")| == 4 && |Fold("n")| == 1 && |Fold("count(*)")| == 8;
    var sorting: Entries<nat> := [("team", 0), ("n", 1), ("count(*)", 1)];
    var scanning: Entries<nat> := [("team", 0), ("n", 1)];
    assert sorting[1..][1..] == [("count(*)", 1)] && scanning[1..] == [("n", 1)] && scanning[1..][1..] == [];
    assert Entry<nat>(sorting, "count(*)") == Some(1) && Entry<nat>(scanning, "count(*)") == None;
    assert Qualified<nat>(scanning, "count(*)") == [];
  }

  lemma FoldedAlready()
    ensures Fold("team") == "team" && Fold("n") == "n" && Fold("count(*)") == "count(*)"
  {
  }

  lemma NoDots()
    ensures LastPart("team") == None && LastPart("n") == None
  {
    assert "team"[1..] == "eam" && "eam"[1..] == "am" && "am"[1..] == "m" && "m"[1..] == "" && "n"[1..] == "";
  }

  lemma FirstAnswers()
    ensures FirstToAnswer(ANSWERS, 2) == [("team", 0), ("n", 1), ("count(*)", 1)]
  {
    FoldedAlready();
    var team, one: Entries<nat> := ["team", "team"], [("team", 0)];
    assert team[..1] == ["team"] && ["team"][..0] == [];
    assert Answering([], ["team"], 0) == one;
    assert one[0].0 == "team";
    assert Answering([], team, 0) == one;
    var n, two: Entries<nat> := ["n", "count(*)"], [("team", 0), ("n", 1)];
    assert n[..1] == ["n"] && ["n"][..0] == [];
    assert |"team"| == 4 && |"n"| == 1 && |"count(*)"| == 8;
    assert Answering(one, ["n"], 1) == two;
    assert Answering(one, n, 1) == [("team", 0), ("n", 1), ("count(*)", 1)];
    assert FirstToAnswer(ANSWERS, 1) == one;
  }

  /** A grouped result so ordered sorts by the count, and the scan for its ties is
      refused. */
  lemma GroupedTieIsRefused(rows: seq<Row>, ps: Parameters, limit: nat)
    requires (forall row :: row in rows ==> |row| == 2) && 0 < limit < |rows|
    ensures var s, keys := OverGroups(ANSWERS, ["team", "n"], ps, SAME), [OrderKey(Worked(Over("count(*)")), false)];
            && (forall row :: row in rows ==> ValueOf(keys[0].plan, row, Sorting(s)) == Ok(row[1]))
            && Tied(limit, rows, keys, Scanning(s)).Err?
  {
    GroupedPlaces(ps, SAME);
    SortedAndRefused("count(*)", rows, OverGroups(ANSWERS, ["team", "n"], ps, SAME), limit);
  }
}
