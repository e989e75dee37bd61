/** Joining two tables: every pair tried under the ON, or a hash on the
    equalities the ON offers, which must be the same rows in the same order. */
module Join {
  import opened Outcomes
  import opened Values
  import opened Expressions
  import opened NestedLoop

  datatype Kind = Integer | Float | NVarChar | DateTime
  datatype Field = Field(name: string, kind: Kind)
  datatype Table = Table(columns: seq<Field>, rows: seq<Row>)
  datatype JoinKind = INNER | LEFT | RIGHT | FULL | CROSS

  /** Two tables whose columns are already qualified by their aliases, the ON,
      and the statement's parameters. */
  datatype Joining = Joining(left: Table, right: Table, kind: JoinKind, on: Option<Cond>, ps: Parameters, w: World) {
    function Names(): seq<string> {
      ColumnNames(left.columns + right.columns)
    }

    predicate IsCross() {
      kind.CROSS? || on.None?
    }
  }

  predicate OfKind(kind: Kind, v: Value) {
    match v
    case Null => true
    case Int(_) => kind.Integer? || kind.Float?
    case Real(_) => kind.Float?
    case Text(_) => kind.NVarChar?
    case Moment(_) => kind.DateTime?
  }

  /** Every row has a value for every column, each of its column's kind. */
  predicate Typed(t: Table) {
    forall row :: row in t.rows ==>
      |row| == |t.columns| && forall i :: 0 <= i < |row| ==> OfKind(t.columns[i].kind, row[i])
  }

  function ColumnNames(fields: seq<Field>): (names: seq<string>)
    ensures |names| == |fields|
    ensures forall i :: 0 <= i < |fields| ==> names[i] == fields[i].name
  {
    seq(|fields|, i requires 0 <= i < |fields| => fields[i].name)
  }

  // ---- the equalities an ON offers -----------------------------------------

  function AfterDot(name: string): string {
    if name == [] then [] else if name[0] == '.' then name[1..] else AfterDot(name[1..])
  }

  /** The first column answering to a name, or to what follows its alias where
      the reference was written bare. */
  function Find(fields: seq<Field>, wanted: string, bare: bool): (at: Option<nat>)
    ensures at.Some? ==> at.value < |fields|
  {
    if fields == [] then None
    else if SameName(fields[0].name, wanted) || (bare && SameName(AfterDot(fields[0].name), wanted)) then Some(0)
    else
      var later := Find(fields[1..], wanted, bare);
      if later.Some? then Some(later.value + 1) else None
  }

  /** Where a reference lands in a table, or None if it is not this one. */
  function IndexOf(t: Table, r: Reference): (at: Option<nat>)
    ensures at.Some? ==> at.value < |t.columns|
  {
    var whole :=
      if r.qualified.Some? && r.qualified.value != "" then Find(t.columns, r.qualified.value, false) else None;
    if whole.Some? then whole
    else if r.name == "" then None
    else Find(t.columns, r.name, r.qualified.None?)
  }

  /** Whether two columns can be bucketed against each other: of one kind, or
      both numbers. */
  predicate BucketsAlike(a: Kind, b: Kind) {
    ((a.Integer? || a.Float?) && (b.Integer? || b.Float?)) || a == b
  }

  type Pairs = seq<(nat, nat)>

  /** The pair one comparison joins on, whichever way round it was written. */
  function PairOf(c: Cond, left: Table, right: Table): Pairs {
    if !c.Comparison? || c.operator != Eq || !c.left.Column? || !c.right.Column? then []
    else
      var a, b := c.left.reference, c.right.reference;
      if IndexOf(left, a).Some? && IndexOf(right, b).Some? then
        Alike(left, right, IndexOf(left, a).value, IndexOf(right, b).value)
      else if IndexOf(left, b).Some? && IndexOf(right, a).Some? then
        Alike(left, right, IndexOf(left, b).value, IndexOf(right, a).value)
      else []
  }

  function Alike(left: Table, right: Table, i: nat, k: nat): Pairs
    requires i < |left.columns| && k < |right.columns|
  {
    if BucketsAlike(left.columns[i].kind, right.columns[k].kind) then [(i, k)] else []
  }

  function PairsOf(parts: seq<Cond>, left: Table, right: Table): Pairs {
    if parts == [] then []
    else PairsOf(parts[..|parts| - 1], left, right) + PairOf(parts[|parts| - 1], left, right)
  }

  function Backwards(pending: seq<Cond>): seq<Cond> {
    if pending == [] then [] else ConjunctsBackwards(pending[|pending| - 1]) + Backwards(pending[..|pending| - 1])
  }

  function ConjunctsBackwards(c: Cond): seq<Cond> {
    if c.And? then ConjunctsBackwards(c.second) + ConjunctsBackwards(c.first) else [c]
  }

  function Weight(c: Cond): nat {
    if c.And? then 1 + Weight(c.first) + Weight(c.second) else 1
  }

  function TotalWeight(pending: seq<Cond>): nat {
    if pending == [] then 0 else TotalWeight(pending[..|pending| - 1]) + Weight(pending[|pending| - 1])
  }

  lemma BackwardsOf(rest: seq<Cond>, node: Cond)
    ensures Backwards(rest + [node]) == ConjunctsBackwards(node) + Backwards(rest)
    ensures TotalWeight(rest + [node]) == TotalWeight(rest) + Weight(node)
  {
    assert (rest + [node])[..|rest|] == rest;
  }

  lemma BackwardsOfAnd(rest: seq<Cond>, node: Cond)
    requires node.And?
    ensures Backwards(rest + [node.first] + [node.second]) == Backwards(rest + [node])
    ensures TotalWeight(rest + [node.first] + [node.second]) < TotalWeight(rest + [node])
  {
    assert Weight(node) == 1 + Weight(node.first) + Weight(node.second);
    assert ConjunctsBackwards(node) == ConjunctsBackwards(node.second) + ConjunctsBackwards(node.first);
    hide *;
    BackwardsOf(rest, node);
    BackwardsOf(rest, node.first);
    BackwardsOf(rest + [node.first], node.second);
  }

  lemma LeafMovesAcross(done: seq<Cond>, rest: seq<Cond>, node: Cond)
    requires !node.And?
    ensures (done + [node]) + Backwards(rest) == done + Backwards(rest + [node])
    ensures TotalWeight(rest) < TotalWeight(rest + [node])
  {
    BackwardsOf(rest, node);
  }

  lemma PairsOfOneMore(parts: seq<Cond>, part: Cond, left: Table, right: Table)
    ensures PairsOf(parts + [part], left, right) == PairsOf(parts, left, right) + PairOf(part, left, right)
  {
    assert (parts + [part])[..|parts|] == parts;
  }

  /** The (left, right) columns an ON condition joins on: the column to column
      equalities among its top-level ANDs, opened out from a stack. */
  method Equalities(on: Cond, left: Table, right: Table) returns (pairs: Pairs)
    ensures pairs == PairsOf(ConjunctsBackwards(on), left, right)
  {
    pairs := [];
    var pending := [on];
    ghost var done: seq<Cond> := [];
    ghost var all := ConjunctsBackwards(on);
    assert Backwards([on]) == all by {
      assert [] + [on] == [on];
      BackwardsOf([], on);
      assert all + Backwards([]) == all;
    }
    while pending != []
      invariant done + Backwards(pending) == all
      invariant pairs == PairsOf(done, left, right)
      decreases TotalWeight(pending)
    {
      var n := |pending| - 1;
      var node, rest := pending[n], pending[..n];
      assert pending == rest + [node];
      if node.And? {
        BackwardsOfAnd(rest, node);
        pending := rest + [node.first] + [node.second];
      } else {
        LeafMovesAcross(done, rest, node);
        PairsOfOneMore(done, node, left, right);
        pairs := pairs + PairOf(node, left, right);
        done := done + [node];
        pending := rest;
      }
    }
    assert done + Backwards([]) == done;
  }

  lemma {:induction false} BackwardsAreTheConjuncts(c: Cond)
    ensures forall part :: part in ConjunctsBackwards(c) <==> part in Conjuncts(c)
  {
    if c.And? {
      BackwardsAreTheConjuncts(c.first);
      BackwardsAreTheConjuncts(c.second);
    }
  }

  // ---- an index is what the ON reads ---------------------------------------

  /** The two columns a part is hashed on are the two its references read,
      whichever way round; a part with a reference that reads nothing is refused
      of every pair. */
  predicate HashedAsRead(names: seq<string>, width: nat, c: Cond, pair: (nat, nat)) {
    c.Comparison? && c.left.Column? && c.right.Column? ==>
      var p, q := ReadsAt(names, c.left.reference), ReadsAt(names, c.right.reference);
      p.Some? && q.Some? ==>
        (p.value == pair.0 && q.value == width + pair.1) || (q.value == pair.0 && p.value == width + pair.1)
  }

  predicate HashesWhatItReads(j: Joining) {
    j.on.Some? ==>
      forall part, pair :: part in Conjuncts(j.on.value) && pair in PairOf(part, j.left, j.right) ==>
        HashedAsRead(j.Names(), |j.left.columns|, part, pair)
  }

  predicate Dotted(name: string) {
    exists i :: 0 <= i < |name| && name[i] == '.'
  }

  predicate DistinctNames(names: seq<string>) {
    forall i, j {:trigger SameName(names[i], names[j])} :: 0 <= i < j < |names| ==> !SameName(names[i], names[j])
  }

  predicate AllDotted(names: seq<string>) {
    forall name :: name in names ==> Dotted(name)
  }

  /** No column is called, alias and all, what a reference is called without
      its qualifier. */
  predicate NoneCalled(names: seq<string>, r: Reference) {
    forall name :: name in names ==> !SameName(name, r.name)
  }

  predicate NoneCalledAs(names: seq<string>, e: Expr) {
    e.Column? ==> NoneCalled(names, e.reference)
  }

  /** What the tables of a join are usually handed as: every column qualified by
      an alias, no two of one name, and none whose whole name is the bare name of
      a reference the ON compares. */
  ghost predicate Qualifies(j: Joining) {
    && DistinctNames(j.Names()) && AllDotted(j.Names())
    && (j.on.Some? ==> forall part :: part in Conjuncts(j.on.value) && part.Comparison? ==>
          NoneCalledAs(j.Names(), part.left) && NoneCalledAs(j.Names(), part.right))
  }

  function Zip<T>(names: seq<string>, values: seq<T>): (pairs: Entries<T>)
    requires |names| == |values|
    ensures |pairs| == |values|
    ensures forall i :: 0 <= i < |values| ==> pairs[i] == (names[i], values[i])
  {
    seq(|values|, i requires 0 <= i < |values| => (names[i], values[i]))
  }

  lemma {:induction false} ReboundAtEnd<T>(bindings: Entries<T>, name: string, v: T)
    requires forall i :: 0 <= i < |bindings| ==> bindings[i].0 != name
    ensures Rebound(bindings, name, v) == bindings + [(name, v)]
  {
    if bindings != [] {
      ReboundAtEnd(bindings[1..], name, v);
      assert bindings == [bindings[0]] + bindings[1..];
    }
  }

  lemma {:induction false} DistinctNamesBindInPlace<T>(names: seq<string>, values: seq<T>)
    requires |names| == |values| && DistinctNames(names)
    ensures Bind(names, values) == Zip(names, values)
  {
    if names != [] {
      var n := |names| - 1;
      var init := names[..n];
      forall i, k | 0 <= i < k < n ensures !SameName(init[i], init[k]) {
        assert !SameName(names[i], names[k]);
      }
      DistinctNamesBindInPlace(init, values[..n]);
      forall i | 0 <= i < n ensures names[i] != names[n] {
        assert !SameName(names[i], names[n]);
      }
      ReboundAtEnd(Zip(init, values[..n]), names[n], values[n]);
      assert Zip(init, values[..n]) + [(names[n], values[n])] == Zip(names, values);
    }
  }

  lemma {:induction false} EntryInPlace<T>(names: seq<string>, values: seq<T>, wanted: string, at: nat)
    requires |names| == |values| && DistinctNames(names) && at < |names| && SameName(names[at], wanted)
    ensures Entry(Zip(names, values), wanted) == Some(values[at])
  {
    if at > 0 {
      assert !SameName(names[0], names[at]);
      EntryInPlace(names[1..], values[1..], wanted, at - 1);
      assert Zip(names, values)[1..] == Zip(names[1..], values[1..]);
    }
  }

  lemma {:induction false} NoEntry<T>(names: seq<string>, values: seq<T>, wanted: string)
    requires |names| == |values| && forall name :: name in names ==> !SameName(name, wanted)
    ensures Entry(Zip(names, values), wanted) == None
  {
    if names != [] {
      NoEntry(names[1..], values[1..], wanted);
      assert Zip(names, values)[1..] == Zip(names[1..], values[1..]);
    }
  }

  lemma {:induction false} QualifiedHoldsIt<T>(names: seq<string>, values: seq<T>, wanted: string, at: nat)
    requires |names| == |values| && at < |names|
    requires LastPart(names[at]).Some? && SameName(LastPart(names[at]).value, wanted)
    ensures values[at] in Qualified(Zip(names, values), wanted)
  {
    assert Zip(names, values)[1..] == Zip(names[1..], values[1..]);
    if at > 0 {
      QualifiedHoldsIt(names[1..], values[1..], wanted, at - 1);
    }
  }

  lemma {:induction false} NoneQualified<T>(names: seq<string>, values: seq<T>, wanted: string)
    requires |names| == |values| && Dotted(wanted)
    ensures Qualified(Zip(names, values), wanted) == []
  {
    if names != [] {
      assert Zip(names, values)[1..] == Zip(names[1..], values[1..]);
      NoneQualified(names[1..], values[1..], wanted);
      LastPartHoldsNoDot(names[0]);
      if LastPart(names[0]).Some? && SameName(LastPart(names[0]).value, wanted) {
        FoldKeepsDots(LastPart(names[0]).value, wanted);
      }
    }
  }

  lemma {:induction false} LastPartHoldsNoDot(name: string)
    ensures LastPart(name).Some? ==> !Dotted(LastPart(name).value)
    ensures LastPart(name).None? ==> !Dotted(name)
  {
    if name != [] {
      LastPartHoldsNoDot(name[1..]);
      if LastPart(name[1..]).None? {
        assert forall i :: 1 <= i < |name| ==> name[i] == name[1..][i - 1];
      }
    }
  }

  lemma {:induction false} FindFinds(fields: seq<Field>, wanted: string, bare: bool)
    ensures var at := Find(fields, wanted, bare);
            at.Some? ==>
              SameName(fields[at.value].name, wanted) || (bare && SameName(AfterDot(fields[at.value].name), wanted))
  {
    if fields != [] {
      FindFinds(fields[1..], wanted, bare);
    }
  }

  lemma FoldKeepsDots(a: string, b: string)
    requires SameName(a, b)
    ensures Dotted(a) == Dotted(b)
  {
    assert |a| == |b| by { assert |Fold(a)| == |Fold(b)|; }
    forall i | 0 <= i < |a| ensures (a[i] == '.') == (b[i] == '.') {
      assert Fold(a)[i] == Fold(b)[i];
      assert Lower(a[i]) == Lower(b[i]);
    }
  }

  lemma {:induction false} TheOnlyDotIsTheLast(name: string)
    requires Dotted(name) && !Dotted(AfterDot(name))
    ensures LastPart(name) == Some(AfterDot(name))
  {
    if name[0] == '.' {
      LastPartHoldsNoDot(name[1..]);
      NoDotNoPart(name[1..]);
    } else {
      var i :| 0 <= i < |name| && name[i] == '.';
      assert name[1..][i - 1] == '.';
      TheOnlyDotIsTheLast(name[1..]);
    }
  }

  lemma {:induction false} NoDotNoPart(name: string)
    requires !Dotted(name)
    ensures LastPart(name).None?
  {
    if name != [] {
      assert forall i :: 0 <= i < |name| - 1 ==> name[1..][i] == name[i + 1];
      NoDotNoPart(name[1..]);
    }
  }

  /** The columns of a table stand among the columns of the pair from start on. */
  predicate Segment(t: Table, names: seq<string>, start: nat) {
    start + |t.columns| <= |names| && ColumnNames(t.columns) == names[start..start + |t.columns|]
  }

  lemma QualifiedIndexIsRead(t: Table, r: Reference, names: seq<string>, start: nat)
    requires DistinctNames(names) && Segment(t, names, start) && NoneCalled(names, r)
    requires r.qualified.Some? && IndexOf(t, r).Some?
    ensures Place<nat>(r, Zip<nat>(names, Ordinals(|names|))) == Some(start + IndexOf(t, r).value)
  {
    var i := IndexOf(t, r).value;
    var at := start + i;
    assert names[at] == ColumnNames(t.columns)[i] == t.columns[i].name;
    assert names[at] in names;
    FindFinds(t.columns, r.qualified.value, false);
    FindFinds(t.columns, r.name, false);
    EntryInPlace<nat>(names, Ordinals(|names|), r.qualified.value, at);
  }

  lemma BareIndexIsRead(t: Table, r: Reference, names: seq<string>, start: nat)
    requires AllDotted(names) && Segment(t, names, start) && NoneCalled(names, r)
    requires r.qualified.None? && IndexOf(t, r).Some?
    ensures Place<nat>(r, Zip<nat>(names, Ordinals(|names|))) in {None, Some(start + IndexOf(t, r).value)}
  {
    var i := IndexOf(t, r).value;
    var at := start + i;
    assert names[at] == ColumnNames(t.columns)[i] == t.columns[i].name;
    assert names[at] in names;
    NoEntry<nat>(names, Ordinals(|names|), r.name);
    FindFinds(t.columns, r.name, true);
    if Dotted(r.name) {
      NoneQualified<nat>(names, Ordinals(|names|), r.name);
    } else {
      FoldKeepsDots(AfterDot(names[at]), r.name);
      TheOnlyDotIsTheLast(names[at]);
      QualifiedHoldsIt<nat>(names, Ordinals(|names|), r.name, at);
    }
  }

  /** A reference an index was found for reads that index, where it reads
      anything at all. */
  lemma IndexIsWhatIsRead(t: Table, r: Reference, names: seq<string>, start: nat)
    requires DistinctNames(names) && AllDotted(names) && Segment(t, names, start) && NoneCalled(names, r)
    requires IndexOf(t, r).Some?
    ensures ReadsAt(names, r) in {None, Some(start + IndexOf(t, r).value)}
  {
    DistinctNamesBindInPlace<nat>(names, Ordinals(|names|));
    if r.qualified.Some? {
      QualifiedIndexIsRead(t, r, names, start);
    } else {
      BareIndexIsRead(t, r, names, start);
    }
  }

  lemma SegmentsOfAPair(j: Joining)
    ensures Segment(j.left, j.Names(), 0) && Segment(j.right, j.Names(), |j.left.columns|)
  {
    var n := |j.left.columns|;
    assert ColumnNames(j.left.columns) == j.Names()[..n];
    assert ColumnNames(j.right.columns) == j.Names()[n..];
  }

  /** Columns qualified by alias, of different names, are hashed as they are
      read, nested names and all, where no column is called what a reference is
      called without its qualifier. */
  lemma QualifiedColumnsAreHashedAsRead(j: Joining)
    requires Qualifies(j)
    ensures HashesWhatItReads(j)
  {
    SegmentsOfAPair(j);
    if j.on.Some? {
      forall part, pair | part in Conjuncts(j.on.value) && pair in PairOf(part, j.left, j.right)
        ensures HashedAsRead(j.Names(), |j.left.columns|, part, pair)
      {
        PairIsRead(j, part, pair);
      }
    }
  }

  lemma PairIsRead(j: Joining, part: Cond, pair: (nat, nat))
    requires DistinctNames(j.Names()) && AllDotted(j.Names()) && pair in PairOf(part, j.left, j.right)
    requires NoneCalledAs(j.Names(), part.left) && NoneCalledAs(j.Names(), part.right)
    ensures HashedAsRead(j.Names(), |j.left.columns|, part, pair)
  {
    SegmentsOfAPair(j);
    var a, b, n := part.left.reference, part.right.reference, |j.left.columns|;
    if IndexOf(j.left, a).Some? && IndexOf(j.right, b).Some? {
      IndexIsWhatIsRead(j.left, a, j.Names(), 0);
      IndexIsWhatIsRead(j.right, b, j.Names(), n);
    } else {
      IndexIsWhatIsRead(j.left, b, j.Names(), 0);
      IndexIsWhatIsRead(j.right, a, j.Names(), n);
    }
  }

  // ---- the bucket is a safe filter -----------------------------------------

  lemma EqualMeansEqualKeys(a: Value, b: Value, k: Kind, l: Kind, w: World)
    requires OfKind(k, a) && OfKind(l, b) && BucketsAlike(k, l) && !a.Null? && !b.Null?
    ensures Compare(Eq, a, b, w) == Ok(Collated(a) == Collated(b))
    ensures Collated(a) != Nothing
  {
  }

  function KeyAt(row: Row, at: nat): Key {
    if at < |row| then Collated(row[at]) else Nothing
  }

  function LeftKey(row: Row, pairs: Pairs): (key: seq<Key>)
    ensures |key| == |pairs|
  {
    seq(|pairs|, i requires 0 <= i < |pairs| => KeyAt(row, pairs[i].0))
  }

  function RightKey(row: Row, pairs: Pairs): (key: seq<Key>)
    ensures |key| == |pairs|
  {
    seq(|pairs|, i requires 0 <= i < |pairs| => KeyAt(row, pairs[i].1))
  }

  /** Whether the ON is true of a pair, or its refusal. */
  function Ask(j: Joining, l: Row, r: Row): Result<bool> {
    if j.on.Some? && |l| + |r| == |j.Names()| then
      var answer := Matches(j.on.value, Bind(j.Names(), l + r), j.ps, j.w);
      if answer.Ok? then answer else Err(Unreadable)
    else Ok(false)
  }

  /** Where two references an index was found for read values that compare
      equal, the two rows' keys are equal and not NULL. */
  lemma ColumnsAgree(j: Joining, l: Row, r: Row, i: nat, k: nat)
    requires Typed(j.left) && Typed(j.right) && l in j.left.rows && r in j.right.rows && i < |l| && k < |r|
    requires BucketsAlike(j.left.columns[i].kind, j.right.columns[k].kind) && !l[i].Null? && !r[k].Null?
    requires Compare(Eq, l[i], r[k], j.w) == Ok(true) || Compare(Eq, r[k], l[i], j.w) == Ok(true)
    ensures KeyAt(l, i) == KeyAt(r, k) != Nothing
  {
    EqualMeansEqualKeys(l[i], r[k], j.left.columns[i].kind, j.right.columns[k].kind, j.w);
    EqualMeansEqualKeys(r[k], l[i], j.right.columns[k].kind, j.left.columns[i].kind, j.w);
  }

  /** An equality of columns is true of a row where the two places it reads
      compare equal. */
  lemma EqualityReadsTwoPlaces(names: seq<string>, c: Cond, row: Row, ps: Parameters, w: World)
    requires |names| == |row| && c.Comparison? && c.operator == Eq && c.left.Column? && c.right.Column?
    requires Asked(c, Bind(names, row), ps, w) == Ok(True)
    ensures var p, q := ReadsAt(names, c.left.reference), ReadsAt(names, c.right.reference);
            && p.Some? && q.Some? && !ValueAt(row, p.value).Null? && !ValueAt(row, q.value).Null?
            && Compare(Eq, ValueAt(row, p.value), ValueAt(row, q.value), w) == Ok(true)
  {
    ReadsOnePlace(names, c.left.reference, row);
    ReadsOnePlace(names, c.right.reference, row);
    hide Bind, ReadsAt, Compare, Read;
  }

  lemma PairAgrees(j: Joining, part: Cond, l: Row, r: Row, pair: (nat, nat))
    requires Typed(j.left) && Typed(j.right) && l in j.left.rows && r in j.right.rows && |l + r| == |j.Names()|
    requires pair in PairOf(part, j.left, j.right) && HashedAsRead(j.Names(), |j.left.columns|, part, pair)
    requires Asked(part, Bind(j.Names(), l + r), j.ps, j.w) == Ok(True)
    ensures KeyAt(l, pair.0) == KeyAt(r, pair.1) != Nothing
  {
    hide PairOf, Bind, ReadsAt, Typed, Asked, Compare, KeyAt, BucketsAlike;
    PairIsInRange(part, j.left, j.right);
    EqualityReadsTwoPlaces(j.Names(), part, l + r, j.ps, j.w);
    PlacesAgree(j, l, r, pair, ReadsAt(j.Names(), part.left.reference).value,
                ReadsAt(j.Names(), part.right.reference).value);
  }

  lemma PlacesAgree(j: Joining, l: Row, r: Row, pair: (nat, nat), p: nat, q: nat)
    requires Typed(j.left) && Typed(j.right) && l in j.left.rows && r in j.right.rows
    requires pair.0 < |j.left.columns| && pair.1 < |j.right.columns|
    requires BucketsAlike(j.left.columns[pair.0].kind, j.right.columns[pair.1].kind)
    requires var n := |j.left.columns|; (p == pair.0 && q == n + pair.1) || (q == pair.0 && p == n + pair.1)
    requires !ValueAt(l + r, p).Null? && !ValueAt(l + r, q).Null?
    requires Compare(Eq, ValueAt(l + r, p), ValueAt(l + r, q), j.w) == Ok(true)
    ensures KeyAt(l, pair.0) == KeyAt(r, pair.1) != Nothing
  {
    assert |l| == |j.left.columns| && |r| == |j.right.columns|;
    hide Typed, Compare, KeyAt, BucketsAlike;
    PairStandsAt(l, r, pair);
    ColumnsAgree(j, l, r, pair.0, pair.1);
  }

  lemma PairStandsAt(l: Row, r: Row, pair: (nat, nat))
    requires pair.0 < |l| && pair.1 < |r|
    ensures ValueAt(l + r, pair.0) == l[pair.0] && ValueAt(l + r, |l| + pair.1) == r[pair.1]
  {
  }

  lemma PairIsInRange(part: Cond, left: Table, right: Table)
    ensures forall pair :: pair in PairOf(part, left, right) ==>
              && part.Comparison? && part.operator == Eq && part.left.Column? && part.right.Column?
              && pair.0 < |left.columns| && pair.1 < |right.columns|
              && BucketsAlike(left.columns[pair.0].kind, right.columns[pair.1].kind)
  {
  }

  lemma {:induction false} PairComesFromAPart(parts: seq<Cond>, left: Table, right: Table, pair: (nat, nat))
    requires pair in PairsOf(parts, left, right)
    ensures exists part :: part in parts && pair in PairOf(part, left, right)
  {
    var n := |parts| - 1;
    assert parts[n] in parts;
    if pair !in PairOf(parts[n], left, right) {
      PairComesFromAPart(parts[..n], left, right, pair);
    }
  }

  function Offered(j: Joining): Pairs {
    if j.on.Some? then PairsOf(ConjunctsBackwards(j.on.value), j.left, j.right) else []
  }

  /** A pair the ON is true of is never kept apart by its bucket. */
  lemma SatisfiedPairsShareABucket(j: Joining, l: Row, r: Row)
    requires Typed(j.left) && Typed(j.right) && HashesWhatItReads(j)
    requires l in j.left.rows && r in j.right.rows && Ask(j, l, r) == Ok(true)
    ensures LeftKey(l, Offered(j)) == RightKey(r, Offered(j)) && Nothing !in LeftKey(l, Offered(j))
  {
    var pairs, on, row := Offered(j), j.on.value, Bind(j.Names(), l + r);
    var parts := ConjunctsBackwards(on);
    TrueWhereEveryPartIs(on, row, j.ps, j.w);
    BackwardsAreTheConjuncts(on);
    forall i | 0 <= i < |pairs| ensures LeftKey(l, pairs)[i] == RightKey(r, pairs)[i] != Nothing {
      PairComesFromAPart(parts, j.left, j.right, pairs[i]);
      var part :| part in parts && pairs[i] in PairOf(part, j.left, j.right);
      PairAgrees(j, part, l, r, pairs[i]);
    }
  }

  // ---- the join ------------------------------------------------------------

  /** The rows joined, asked the ON of their positions. */
  function GridOf(j: Joining): Grid {
    Grid(j.left.rows, j.right.rows, |j.left.columns|, |j.right.columns|,
         j.kind.LEFT? || j.kind.FULL?, j.kind.RIGHT? || j.kind.FULL?,
         (i: nat, at: nat) => Ask(j, At(j.left.rows, i), At(j.right.rows, at)))
  }

  lemma GridAsks(j: Joining, i: nat, at: nat)
    requires i < |j.left.rows| && at < |j.right.rows|
    ensures GridOf(j).ask(i, at) == Ask(j, j.left.rows[i], j.right.rows[at])
  {
  }

  function KeysOf(pairs: Pairs): Keys {
    Keys((row: Row) => LeftKey(row, pairs), (row: Row) => RightKey(row, pairs))
  }

  /** The same, asked only within the buckets of the equalities the ON offers. */
  function HashedGrid(j: Joining): Grid {
    Filtered(GridOf(j), KeysOf(Offered(j)))
  }

  lemma OfferedKeysAreSafe(j: Joining)
    requires Typed(j.left) && Typed(j.right) && HashesWhatItReads(j)
    ensures SafeFilter(GridOf(j), KeysOf(Offered(j)))
  {
    var g := GridOf(j);
    forall i: nat, at: nat | i < |g.left| && at < |g.right| && g.ask(i, at) == Ok(true)
      ensures var key := LeftKey(g.left[i], Offered(j)); key == RightKey(g.right[at], Offered(j)) && Nothing !in key
    {
      assert g.ask(i, at) == Ask(j, g.left[i], g.right[at]);
      SatisfiedPairsShareABucket(j, g.left[i], g.right[at]);
    }
  }

  /** Where every equality is hashed on what it reads, the join by buckets is the
      join. */
  lemma HashedJoinIsTheJoin(j: Joining)
    requires Typed(j.left) && Typed(j.right) && HashesWhatItReads(j)
    ensures JoinRows(HashedGrid(j)) == JoinRows(GridOf(j))
    ensures Clean(GridOf(j)) ==> Clean(HashedGrid(j))
  {
    hide HashesWhatItReads, GridOf, KeysOf, JoinRows, Clean, Typed;
    OfferedKeysAreSafe(j);
    FilteredJoinIsTheJoin(GridOf(j), KeysOf(Offered(j)));
    if Clean(GridOf(j)) {
      CleanStaysClean(GridOf(j), KeysOf(Offered(j)));
    }
  }

  // ---- where the hash and the ON part --------------------------------------

  /** Tables of these columns joined on one equality of columns. */
  function OnOneEquality(lc: seq<Field>, rc: seq<Field>, l: seq<Row>, r: seq<Row>, kind: JoinKind,
                         a: Reference, b: Reference, ps: Parameters, w: World): Joining {
    Joining(Table(lc, l), Table(rc, r), kind, Some(Comparison(Column(a), Eq, Column(b))), ps, w)
  }

  lemma OneEqualityOffers(j: Joining)
    requires j.on.Some? && !j.on.value.And?
    ensures Offered(j) == PairOf(j.on.value, j.left, j.right)
    ensures Conjuncts(j.on.value) == [j.on.value]
  {
    assert ConjunctsBackwards(j.on.value) == [j.on.value];
    assert [j.on.value][..0] == [];
    assert PairsOf([], j.left, j.right) == [];
  }

  lemma OneRowEach(g: Grid)
    requires |g.left| == 1 && |g.right| == 1 && !g.keepsLeft && !g.keepsRight
    ensures JoinRows(g) == if g.ask(0, 0) == Ok(true) then [g.left[0] + g.right[0]] else []
  {
    assert Positions(1) == [0];
    HitsAppend(g, 0, [], 0);
    assert [] + [0] == [0];
    var hits := AllHits(g, 0);
    assert hits == if g.ask(0, 0) == Ok(true) then [0] else [];
    assert Beside(g, g.left[0], []) == [];
    assert [0][..0] == [];
    assert Blocks(g, 1) == Blocks(g, 0) + BlockOf(g, At(g.left, 0), hits);
  }

  /** One row on each side, of which the ON is true and whose keys differ: the
      join holds the pair and the join by buckets nothing. */
  lemma KeptApart(j: Joining)
    requires |j.left.rows| == 1 && |j.right.rows| == 1 && j.kind.INNER?
    requires Ask(j, j.left.rows[0], j.right.rows[0]) == Ok(true)
    requires LeftKey(j.left.rows[0], Offered(j)) != RightKey(j.right.rows[0], Offered(j))
    ensures JoinRows(GridOf(j)) == [j.left.rows[0] + j.right.rows[0]] && JoinRows(HashedGrid(j)) == []
  {
    var g, h := GridOf(j), HashedGrid(j);
    assert g.ask(0, 0) == Ask(j, j.left.rows[0], j.right.rows[0]);
    AskedWithin(g, KeysOf(Offered(j)), 0, 0);
    OneRowEach(g);
    OneRowEach(h);
  }

  predicate JoinsOneRowEach(j: Joining, l: Row, r: Row) {
    j.left.rows == [l] && j.right.rows == [r] && j.kind.INNER? && |l| + |r| == |j.Names()|
  }

  /** The ON is one equality of columns, reading these places. */
  predicate ReadsTwoPlaces(j: Joining, p: nat, q: nat) {
    && j.on.Some? && j.on.value.Comparison? && j.on.value.operator == Eq
    && j.on.value.left.Column? && j.on.value.right.Column?
    && ReadsAt(j.Names(), j.on.value.left.reference) == Some(p)
    && ReadsAt(j.Names(), j.on.value.right.reference) == Some(q)
  }

  /** An equality that reads one value in two places is true; where the columns
      it is hashed on differ, the join holds the pair and the join by buckets
      nothing. */
  lemma ReadAlikeHashedApart(j: Joining, l: Row, r: Row, pair: (nat, nat), p: nat, q: nat)
    requires JoinsOneRowEach(j, l, r) && ReadsTwoPlaces(j, p, q)
    requires ValueAt(l + r, p) == ValueAt(l + r, q) != Null
    requires Offered(j) == [pair] && pair.0 < |l| && pair.1 < |r| && Collated(l[pair.0]) != Collated(r[pair.1])
    ensures JoinRows(GridOf(j)) == [l + r] && JoinRows(HashedGrid(j)) == []
  {
    assert LeftKey(l, [pair])[0] == Collated(l[pair.0]) && RightKey(r, [pair])[0] == Collated(r[pair.1]);
    hide GridOf, HashedGrid, JoinRows, Offered, LeftKey, RightKey, ReadsAt, Collated, Bind, Read;
    ReadsOnePlace(j.Names(), j.on.value.left.reference, l + r);
    ReadsOnePlace(j.Names(), j.on.value.right.reference, l + r);
    KeptApart(j);
  }

  /** Two values of one kind that differ. */
  function OneOf(kind: Kind): Value {
    match kind case Integer => Int(0) case Float => Real(0.0) case NVarChar => Text("a") case DateTime => Moment(0)
  }

  function OtherOf(kind: Kind): Value {
    match kind case Integer => Int(1) case Float => Real(1.0) case NVarChar => Text("b") case DateTime => Moment(1)
  }

  lemma TheyDiffer(kind: Kind)
    ensures Collated(OneOf(kind)) != Collated(OtherOf(kind))
  {
    if kind.NVarChar? {
      assert Fold("a")[0] == 'a' && Fold("b")[0] == 'b';
    }
  }

  predicate OfOneKind(fields: seq<Field>, kind: Kind) {
    forall i :: 0 <= i < |fields| ==> fields[i].kind == kind
  }

  /** What is offered is settled by the columns and the ON. */
  lemma SameOffered(i: Joining, j: Joining)
    requires i.on == j.on && i.left.columns == j.left.columns && i.right.columns == j.right.columns
    ensures Offered(i) == Offered(j) && i.Names() == j.Names()
  {
    if i.on.Some? {
      SamePairs(ConjunctsBackwards(i.on.value), i, j);
    }
  }

  lemma {:induction false} SamePairs(parts: seq<Cond>, i: Joining, j: Joining)
    requires i.left.columns == j.left.columns && i.right.columns == j.right.columns
    ensures PairsOf(parts, i.left, i.right) == PairsOf(parts, j.left, j.right)
  {
    if parts != [] {
      SamePairs(parts[..|parts| - 1], i, j);
      SamePair(parts[|parts| - 1], i, j);
      hide PairOf;
    }
  }

  lemma SamePair(part: Cond, i: Joining, j: Joining)
    requires i.left.columns == j.left.columns && i.right.columns == j.right.columns
    ensures PairOf(part, i.left, i.right) == PairOf(part, j.left, j.right)
  {
  }

  /** The join by buckets holds what the join does. */
  ghost predicate JoinedRightly(j: Joining) {
    JoinRows(HashedGrid(j)) == JoinRows(GridOf(j))
  }

  // Two columns of one name: a table joined to itself under one alias, ON
  // t.id = t.id.
  const SHARED := Reference(Some("t.id"), "id")

  function SelfJoin(ps: Parameters, w: World): Joining {
    var id := Field("t.id", Integer);
    OnOneEquality([id], [id], [[Int(1)]], [[Int(2)]], INNER, SHARED, SHARED, ps, w)
  }

  lemma SelfJoinReads()
    ensures ReadsAt(["t.id", "t.id"], SHARED) == Some(1)
  {
    var names, places := ["t.id", "t.id"], Ordinals(2);
    assert places == [0, 1] && names[..1] == ["t.id"] && places[..1] == [0];
    assert Bind<nat>(["t.id"], [0]) == [("t.id", 0)];
    assert Bind<nat>(names, [0, 1]) == [("t.id", 1)];
  }

  /** The ON reads the right row's value for both references and is true of every
      pair, while the hash compares the two rows: the join of 1 and 2 holds the
      pair, and the join by buckets nothing. */
  lemma OneNameTwiceIsHashedWrongly(ps: Parameters, w: World)
    ensures var j := SelfJoin(ps, w);
            && Offered(j) == [(0, 0)] && Typed(j.left) && Typed(j.right)
            && JoinRows(GridOf(j)) == [[Int(1), Int(2)]] && JoinRows(HashedGrid(j)) == []
  {
    hide *;
    var l: Row, r: Row := [Int(1)], [Int(2)];
    assert l + r == [Int(1), Int(2)];
    TheseTwoDiffer(1, 2);
    SelfJoinIs(ps, w);
    SelfJoinOffers(ps, w);
    ReadAlikeHashedApart(SelfJoin(ps, w), l, r, (0, 0), 1, 1);
  }

  lemma TheseTwoDiffer(i: int, k: int)
    ensures i != k ==> Collated(Int(i)) != Collated(Int(k))
  {
  }

  lemma SelfJoinIs(ps: Parameters, w: World)
    ensures var j := SelfJoin(ps, w);
            && Typed(j.left) && Typed(j.right)
            && JoinsOneRowEach(j, [Int(1)], [Int(2)]) && ReadsTwoPlaces(j, 1, 1)
    ensures ValueAt([Int(1)] + [Int(2)], 1) == Int(2)
  {
    assert SelfJoin(ps, w).Names() == ["t.id", "t.id"];
    SelfJoinReads();
    hide ReadsAt;
  }

  lemma SelfJoinOffers(ps: Parameters, w: World)
    ensures Offered(SelfJoin(ps, w)) == [(0, 0)]
  {
    var j := SelfJoin(ps, w);
    OneEqualityOffers(j);
    assert Find([Field("t.id", Integer)], "t.id", false) == Some(0);
    hide Offered;
  }

  // Names all different and all qualified, but a column of the left is called,
  // alias and all, what one of the right's is called without its alias: a.c
  // beside o.[a.c], ON o.[a.c] = o.x.
  const NESTED := Reference(Some("o.a.c"), "a.c")
  const PLAIN := Reference(Some("o.x"), "x")

  function NestedJoin(ps: Parameters, w: World): Joining {
    OnOneEquality([Field("a.c", Integer)], [Field("o.a.c", Integer), Field("o.x", Integer)],
                  [[Int(1)]], [[Int(2), Int(2)]], INNER, NESTED, PLAIN, ps, w)
  }

  lemma NestedJoinReads()
    ensures ReadsAt(["a.c", "o.a.c", "o.x"], NESTED) == Some(1)
    ensures ReadsAt(["a.c", "o.a.c", "o.x"], PLAIN) == Some(2)
  {
    var names, places := ["a.c", "o.a.c", "o.x"], Ordinals(3);
    NestedNamesDiffer();
    DistinctNamesBindInPlace<nat>(names, places);
    EntryInPlace<nat>(names, places, "o.a.c", 1);
    EntryInPlace<nat>(names, places, "o.x", 2);
  }

  lemma NestedNamesDiffer()
    ensures DistinctNames(["a.c", "o.a.c", "o.x"]) && AllDotted(["a.c", "o.a.c", "o.x"])
  {
    assert "a.c"[1] == '.' && "o.a.c"[1] == '.' && "o.x"[1] == '.';
    assert |Fold("a.c")| == 3 && |Fold("o.a.c")| == 5 && |Fold("o.x")| == 3;
    assert Fold("a.c")[0] == 'a' && Fold("o.x")[0] == 'o';
  }

  /** The hash takes the left's column for the one the ON reads of the right. */
  lemma NestedNameIsHashedWrongly(ps: Parameters, w: World)
    ensures var j := NestedJoin(ps, w);
            && DistinctNames(j.Names()) && AllDotted(j.Names()) && Typed(j.left) && Typed(j.right)
            && Offered(j) == [(0, 1)]
            && JoinRows(GridOf(j)) == [[Int(1), Int(2), Int(2)]] && JoinRows(HashedGrid(j)) == []
  {
    hide *;
    var l: Row, r: Row := [Int(1)], [Int(2), Int(2)];
    assert l + r == [Int(1), Int(2), Int(2)];
    TheseTwoDiffer(1, 2);
    NestedJoinIs(ps, w);
    NestedJoinOffers(ps, w);
    ReadAlikeHashedApart(NestedJoin(ps, w), l, r, (0, 1), 1, 2);
  }

  lemma NestedJoinIs(ps: Parameters, w: World)
    ensures var j := NestedJoin(ps, w);
            && DistinctNames(j.Names()) && AllDotted(j.Names()) && Typed(j.left) && Typed(j.right)
            && JoinsOneRowEach(j, [Int(1)], [Int(2), Int(2)]) && ReadsTwoPlaces(j, 1, 2)
    ensures var row: Row := [Int(1)] + [Int(2), Int(2)]; ValueAt(row, 1) == ValueAt(row, 2) == Int(2)
  {
    hide ReadsAt, DistinctNames, AllDotted, Typed, Fold;
    NestedJoinIsCalled(ps, w);
    NestedJoinReads();
    NestedNamesDiffer();
    NestedJoinIsTyped(ps, w);
  }

  lemma NestedJoinIsCalled(ps: Parameters, w: World)
    ensures NestedJoin(ps, w).Names() == ["a.c", "o.a.c", "o.x"]
  {
  }

  lemma NestedJoinIsTyped(ps: Parameters, w: World)
    ensures Typed(NestedJoin(ps, w).left) && Typed(NestedJoin(ps, w).right)
  {
  }

  lemma NestedJoinOffers(ps: Parameters, w: World)
    ensures Offered(NestedJoin(ps, w)) == [(0, 1)]
  {
    var j := NestedJoin(ps, w);
    NestedPair(j.left, j.right, j.on.value);
    OneEqualityOffers(j);
    hide Offered, PairOf;
  }

  lemma NestedPair(left: Table, right: Table, on: Cond)
    requires left.columns == [Field("a.c", Integer)]
             && right.columns == [Field("o.a.c", Integer), Field("o.x", Integer)]
    requires on == Comparison(Column(NESTED), Eq, Column(PLAIN))
    ensures PairOf(on, left, right) == [(0, 1)]
  {
    var ac, oac, ox := left.columns[0], right.columns[0], right.columns[1];
    NestedNamesDiffer();
    var names := ["a.c", "o.a.c", "o.x"];
    assert !SameName(names[0], names[1]) && !SameName(names[1], names[2]);
    assert Find([], "o.a.c", false) == None;
    assert Find([ac], "o.a.c", false) == None && Find([ac], "a.c", false) == Some(0);
    assert right.columns[1..] == [ox];
    assert Find([ox], "o.x", false) == Some(0);
    assert Find(right.columns, "o.x", false) == Some(1);
  }
}
