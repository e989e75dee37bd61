/** Exactly when a hashed join is the join, for an ON of equalities of columns: each
    pair of columns hashed together is one the equalities read make equal. */
module JoinExactly {
  import opened Outcomes
  import opened Values
  import opened Expressions
  import opened NestedLoop
  import opened Join

  /** Every part is an equality of two columns. */
  predicate OnlyEqualities(on: Cond) {
    forall part :: part in Conjuncts(on) ==>
      part.Comparison? && part.operator == Eq && part.left.Column? && part.right.Column?
  }

  /** Tables of these columns joined on this. */
  function On(lc: seq<Field>, rc: seq<Field>, l: seq<Row>, r: seq<Row>, kind: JoinKind, on: Cond, ps: Parameters,
              w: World): Joining {
    Joining(Table(lc, l), Table(rc, r), kind, Some(on), ps, w)
  }

  // ---- the places an ON makes equal ----------------------------------------

  /** Every reference of these equalities reads some place. */
  predicate AllRead(names: seq<string>, parts: seq<Cond>) {
    forall part :: part in parts && part.Comparison? && part.left.Column? && part.right.Column? ==>
      ReadsAt(names, part.left.reference).Some? && ReadsAt(names, part.right.reference).Some?
  }

  /** The two places each equality reads. */
  function PlacesRead(names: seq<string>, parts: seq<Cond>): Pairs {
    if parts == [] then []
    else PlacesRead(names, parts[..|parts| - 1]) + PairRead(names, parts[|parts| - 1])
  }

  function PairRead(names: seq<string>, part: Cond): Pairs {
    if part.Comparison? && part.left.Column? && part.right.Column? then
      var p, q := ReadsAt(names, part.left.reference), ReadsAt(names, part.right.reference);
      if p.Some? && q.Some? then [(p.value, q.value)] else []
    else []
  }

  /** A class for each place: two places are of one class where a chain of these
      pairs joins them. */
  function Classes(pairs: Pairs, n: nat): (classes: seq<nat>)
    ensures |classes| == n
  {
    if pairs == [] then Ordinals(n)
    else Merged(Classes(pairs[..|pairs| - 1], n), pairs[|pairs| - 1].0, pairs[|pairs| - 1].1)
  }

  function Merged(classes: seq<nat>, p: nat, q: nat): (merged: seq<nat>)
    ensures |merged| == |classes|
  {
    if p < |classes| && q < |classes| then
      seq(|classes|, i requires 0 <= i < |classes| => if classes[i] == classes[q] then classes[p] else classes[i])
    else classes
  }

  lemma {:induction false} PairsShareAClass(pairs: Pairs, n: nat, pair: (nat, nat))
    requires pair in pairs && pair.0 < n && pair.1 < n
    ensures Classes(pairs, n)[pair.0] == Classes(pairs, n)[pair.1]
  {
    var m := |pairs| - 1;
    if pair in pairs[..m] {
      PairsShareAClass(pairs[..m], n, pair);
    } else {
      assert pair == pairs[m];
    }
  }

  /** Two places hold one key, which is not that of NULL. */
  predicate Agree(keys: seq<Key>, a: nat, b: nat)
    requires a < |keys| && b < |keys|
  {
    keys[a] == keys[b] != Nothing
  }

  /** What the pairs make equal is equal throughout a class. */
  lemma {:induction false} ClassesAgree(pairs: Pairs, keys: seq<Key>, a: nat, b: nat)
    requires forall pair :: pair in pairs && pair.0 < |keys| && pair.1 < |keys| ==> Agree(keys, pair.0, pair.1)
    requires a < |keys| && b < |keys| && a != b && Classes(pairs, |keys|)[a] == Classes(pairs, |keys|)[b]
    ensures Agree(keys, a, b)
  {
    if pairs != [] {
      var m := |pairs| - 1;
      var before, p, q := Classes(pairs[..m], |keys|), pairs[m].0, pairs[m].1;
      assert forall pair :: pair in pairs[..m] ==> pair in pairs;
      if before[a] == before[b] {
        ClassesAgree(pairs[..m], keys, a, b);
      } else {
        assert pairs[m] in pairs && Agree(keys, p, q);
        var x, y := if before[a] == before[q] then a else b, if before[a] == before[q] then b else a;
        assert before[x] == before[q] && before[y] == before[p];
        if x != q {
          ClassesAgree(pairs[..m], keys, x, q);
        }
        if y != p {
          ClassesAgree(pairs[..m], keys, y, p);
        }
      }
    }
  }

  /** Each pair of columns hashed together is of one class. */
  predicate HashedInOneClass(j: Joining)
    requires j.on.Some?
  {
    forall pair :: pair in Offered(j) ==>
      var classes := Classes(PlacesRead(j.Names(), Conjuncts(j.on.value)), |j.Names()|);
      pair.0 < |classes| && |j.left.columns| + pair.1 < |classes|
      && classes[pair.0] == classes[|j.left.columns| + pair.1]
  }

  lemma {:induction false} ReadComesFromAPart(names: seq<string>, parts: seq<Cond>, pair: (nat, nat))
    returns (part: Cond)
    requires pair in PlacesRead(names, parts)
    ensures part in parts && PairRead(names, part) == [pair]
  {
    var m := |parts| - 1;
    if pair in PairRead(names, parts[m]) {
      part := parts[m];
    } else {
      part := ReadComesFromAPart(names, parts[..m], pair);
    }
  }

  lemma {:induction false} PartIsAmongReads(names: seq<string>, parts: seq<Cond>, part: Cond)
    requires part in parts
    ensures forall pair :: pair in PairRead(names, part) ==> pair in PlacesRead(names, parts)
  {
    var m := |parts| - 1;
    if part != parts[m] {
      PartIsAmongReads(names, parts[..m], part);
    }
  }

  // ---- where it is right ---------------------------------------------------

  /** Typed tables of one kind joined on equalities. */
  predicate JoinsOneKind(j: Joining, kind: Kind) {
    && j.on.Some? && OnlyEqualities(j.on.value) && Typed(j.left) && Typed(j.right)
    && OfOneKind(j.left.columns, kind) && OfOneKind(j.right.columns, kind)
  }

  /** The two rows hold one key at the places each equality reads. */
  predicate RowsAgree(j: Joining, l: Row, r: Row)
    requires j.on.Some?
  {
    && |l| == |j.left.columns| && |r| == |j.right.columns|
    && forall pair :: pair in PlacesRead(j.Names(), Conjuncts(j.on.value)) && pair.0 < |l + r| && pair.1 < |l + r| ==>
         Agree(Signature(l + r), pair.0, pair.1)
  }

  /** Rows an ON of equalities is true of do. */
  lemma TrueRowsAgree(j: Joining, l: Row, r: Row, kind: Kind)
    requires JoinsOneKind(j, kind) && l in j.left.rows && r in j.right.rows && Ask(j, l, r) == Ok(true)
    ensures AllRead(j.Names(), Conjuncts(j.on.value)) && RowsAgree(j, l, r)
  {
    var names, row, parts := j.Names(), l + r, Conjuncts(j.on.value);
    TrueWhereEveryPartIs(j.on.value, Bind(names, row), j.ps, j.w);
    forall part | part in parts
      ensures ReadsAt(names, part.left.reference).Some? && ReadsAt(names, part.right.reference).Some?
    {
      EqualityReadsTwoPlaces(names, part, row, j.ps, j.w);
    }
    forall pair | pair in PlacesRead(names, parts) && pair.0 < |row| && pair.1 < |row|
      ensures Agree(Signature(row), pair.0, pair.1)
    {
      var part := ReadComesFromAPart(names, parts, pair);
      EqualityReadsTwoPlaces(names, part, row, j.ps, j.w);
      OfKindThroughout(j, l, r, kind);
      EqualMeansEqualKeys(row[pair.0], row[pair.1], kind, kind, j.w);
    }
  }

  lemma OfKindThroughout(j: Joining, l: Row, r: Row, kind: Kind)
    requires OfOneKind(j.left.columns, kind) && OfOneKind(j.right.columns, kind) && Typed(j.left) && Typed(j.right)
    requires l in j.left.rows && r in j.right.rows
    ensures forall i :: 0 <= i < |l + r| ==> OfKind(kind, (l + r)[i])
  {
  }

  lemma OneClassIsSafe(j: Joining, kind: Kind)
    requires JoinsOneKind(j, kind) && (!AllRead(j.Names(), Conjuncts(j.on.value)) || HashedInOneClass(j))
    ensures SafeFilter(GridOf(j), KeysOf(Offered(j)))
  {
    var g := GridOf(j);
    hide JoinsOneKind, AllRead, HashedInOneClass, LeftKey, RightKey, Offered, Ask;
    forall i: nat, at: nat | i < |g.left| && at < |g.right| && g.ask(i, at) == Ok(true)
      ensures var key := LeftKey(g.left[i], Offered(j)); key == RightKey(g.right[at], Offered(j)) && Nothing !in key
    {
      GridAsks(j, i, at);
      PairIsSafe(j, g.left[i], g.right[at], kind);
    }
  }

  lemma PairIsSafe(j: Joining, l: Row, r: Row, kind: Kind)
    requires JoinsOneKind(j, kind) && (!AllRead(j.Names(), Conjuncts(j.on.value)) || HashedInOneClass(j))
    requires l in j.left.rows && r in j.right.rows && Ask(j, l, r) == Ok(true)
    ensures LeftKey(l, Offered(j)) == RightKey(r, Offered(j)) && Nothing !in LeftKey(l, Offered(j))
  {
    assert j.on.Some?;
    hide *;
    TrueRowsAgree(j, l, r, kind);
    KeysAreShared(j, l, r);
  }

  lemma KeysAreShared(j: Joining, l: Row, r: Row)
    requires j.on.Some? && HashedInOneClass(j) && RowsAgree(j, l, r)
    ensures LeftKey(l, Offered(j)) == RightKey(r, Offered(j)) && Nothing !in LeftKey(l, Offered(j))
  {
    var pairs, keys := Offered(j), Signature(l + r);
    hide Classes, PlacesRead, Offered, Agree;
    forall i | 0 <= i < |pairs| ensures LeftKey(l, pairs)[i] == RightKey(r, pairs)[i] != Nothing {
      assert pairs[i] in pairs;
      OfferedInRange(j, pairs[i]);
      ClassesAgree(PlacesRead(j.Names(), Conjuncts(j.on.value)), keys, pairs[i].0, |l| + pairs[i].1);
      AgreeingKeys(l, r, pairs[i]);
    }
  }

  lemma OneClassIsRight(j: Joining, kind: Kind)
    requires JoinsOneKind(j, kind) && (!AllRead(j.Names(), Conjuncts(j.on.value)) || HashedInOneClass(j))
    ensures JoinedRightly(j)
  {
    OneClassIsSafe(j, kind);
    FilteredJoinIsTheJoin(GridOf(j), KeysOf(Offered(j)));
  }

  lemma AgreeingKeys(l: Row, r: Row, pair: (nat, nat))
    requires pair.0 < |l| && pair.1 < |r| && Agree(Signature(l + r), pair.0, |l| + pair.1)
    ensures KeyAt(l, pair.0) == KeyAt(r, pair.1) != Nothing
  {
  }

  lemma OfferedInRange(j: Joining, pair: (nat, nat))
    requires pair in Offered(j)
    ensures pair.0 < |j.left.columns| && pair.1 < |j.right.columns|
  {
    PairComesFromAPart(ConjunctsBackwards(j.on.value), j.left, j.right, pair);
    var part :| part in ConjunctsBackwards(j.on.value) && pair in PairOf(part, j.left, j.right);
    PairIsInRange(part, j.left, j.right);
  }

  // ---- where it is wrong ---------------------------------------------------

  /** One value at every place of a class and another elsewhere. */
  function Coloured(classes: seq<nat>, class_: nat, kind: Kind): (row: Row)
    ensures |row| == |classes|
    ensures forall i :: 0 <= i < |classes| ==> row[i] == if classes[i] == class_ then OtherOf(kind) else OneOf(kind)
  {
    seq(|classes|, i requires 0 <= i < |classes| => if classes[i] == class_ then OtherOf(kind) else OneOf(kind))
  }

  lemma ColouredIsTyped(fields: seq<Field>, row: Row, kind: Kind)
    requires OfOneKind(fields, kind) && |row| == |fields|
    requires forall i :: 0 <= i < |row| ==> row[i] == OneOf(kind) || row[i] == OtherOf(kind)
    ensures Typed(Table(fields, [row]))
  {
    assert OfKind(kind, OneOf(kind)) && OfKind(kind, OtherOf(kind));
  }

  /** An ON of equalities is true of rows that hold one value throughout each class. */
  lemma TrueOfTheColoured(j: Joining, l: Row, r: Row, classes: seq<nat>, class_: nat, kind: Kind)
    requires j.on.Some? && OnlyEqualities(j.on.value) && AllRead(j.Names(), Conjuncts(j.on.value))
    requires classes == Classes(PlacesRead(j.Names(), Conjuncts(j.on.value)), |j.Names()|)
    requires l + r == Coloured(classes, class_, kind)
    ensures Ask(j, l, r) == Ok(true)
  {
    var names, row, parts := j.Names(), l + r, Conjuncts(j.on.value);
    forall part | part in parts ensures Asked(part, Bind(names, row), j.ps, j.w) == Ok(True) {
      ColouredPartIsTrue(names, row, parts, part, classes, class_, kind, j.ps, j.w);
    }
    TrueWhereEveryPartIs(j.on.value, Bind(names, row), j.ps, j.w);
    hide Asked, Bind;
  }

  lemma ColouredPartIsTrue(names: seq<string>, row: Row, parts: seq<Cond>, part: Cond, classes: seq<nat>, class_: nat,
                           kind: Kind, ps: Parameters, w: World)
    requires part in parts && part.Comparison? && part.operator == Eq && part.left.Column? && part.right.Column?
    requires AllRead(names, parts) && classes == Classes(PlacesRead(names, parts), |names|)
    requires row == Coloured(classes, class_, kind)
    ensures Asked(part, Bind(names, row), ps, w) == Ok(True)
  {
    var p, q := ReadsAt(names, part.left.reference).value, ReadsAt(names, part.right.reference).value;
    ReadsInRange(names, part.left.reference);
    ReadsInRange(names, part.right.reference);
    PartIsAmongReads(names, parts, part);
    assert (p, q) in PairRead(names, part);
    PairsShareAClass(PlacesRead(names, parts), |names|, (p, q));
    ReadsOnePlace(names, part.left.reference, row);
    ReadsOnePlace(names, part.right.reference, row);
    hide Bind, Classes, PlacesRead, ReadsAt, Read;
    assert row[p] == row[q] && row[p] != Null;
  }

  lemma ApartIsJoinedWrongly(lc: seq<Field>, rc: seq<Field>, on: Cond, kind: Kind, ps: Parameters, w: World)
    returns (l: Row, r: Row)
    requires OfOneKind(lc, kind) && OfOneKind(rc, kind) && OnlyEqualities(on)
    requires var j := On(lc, rc, [], [], INNER, on, ps, w);
             AllRead(j.Names(), Conjuncts(on)) && !HashedInOneClass(j)
    ensures Typed(Table(lc, [l])) && Typed(Table(rc, [r]))
    ensures !JoinedRightly(On(lc, rc, [l], [r], INNER, on, ps, w))
  {
    hide *;
    var empty := On(lc, rc, [], [], INNER, on, ps, w);
    IsOn(lc, rc, on, ps, w);
    var pair, classes := ApartPair(empty);
    l, r := ColouredRows(lc, rc, classes, pair, kind);
    var j := On(lc, rc, [l], [r], INNER, on, ps, w);
    OnlyRowsDiffer(lc, rc, l, r, on, ps, w);
    ColouredIsKeptApart(j, l, r, classes, pair, kind);
  }

  lemma IsOn(lc: seq<Field>, rc: seq<Field>, on: Cond, ps: Parameters, w: World)
    ensures var j := On(lc, rc, [], [], INNER, on, ps, w);
            j.on == Some(on) && j.left.columns == lc && j.right.columns == rc
  {
  }

  lemma OnlyRowsDiffer(lc: seq<Field>, rc: seq<Field>, l: Row, r: Row, on: Cond, ps: Parameters, w: World)
    ensures var i, j := On(lc, rc, [], [], INNER, on, ps, w), On(lc, rc, [l], [r], INNER, on, ps, w);
            && i.on == j.on == Some(on) && i.Names() == j.Names() && Offered(i) == Offered(j)
            && j.left.rows == [l] && j.right.rows == [r] && j.kind.INNER?
            && i.left.columns == lc && i.right.columns == rc
  {
    SameOffered(On(lc, rc, [], [], INNER, on, ps, w), On(lc, rc, [l], [r], INNER, on, ps, w));
  }

  lemma ColouredRows(lc: seq<Field>, rc: seq<Field>, classes: seq<nat>, pair: (nat, nat), kind: Kind)
    returns (l: Row, r: Row)
    requires OfOneKind(lc, kind) && OfOneKind(rc, kind) && |classes| == |lc| + |rc|
    requires pair.0 < |lc| && pair.1 < |rc| && classes[pair.0] != classes[|lc| + pair.1]
    ensures Typed(Table(lc, [l])) && Typed(Table(rc, [r])) && |l| == |lc| && |r| == |rc|
    ensures l + r == Coloured(classes, classes[pair.0], kind) && Collated(l[pair.0]) != Collated(r[pair.1])
  {
    var row := Coloured(classes, classes[pair.0], kind);
    l, r := row[..|lc|], row[|lc|..];
    assert l + r == row;
    ColouredIsTyped(lc, l, kind);
    ColouredIsTyped(rc, r, kind);
    TheyDiffer(kind);
    assert l[pair.0] == row[pair.0] && r[pair.1] == row[|lc| + pair.1];
    hide Collated, Typed, OfOneKind;
  }

  lemma ColouredIsKeptApart(j: Joining, l: Row, r: Row, classes: seq<nat>, pair: (nat, nat), kind: Kind)
    requires j.on.Some? && OnlyEqualities(j.on.value) && AllRead(j.Names(), Conjuncts(j.on.value))
    requires classes == Classes(PlacesRead(j.Names(), Conjuncts(j.on.value)), |j.Names()|) && pair.0 < |classes|
    requires l + r == Coloured(classes, classes[pair.0], kind) && j.left.rows == [l] && j.right.rows == [r]
    requires j.kind.INNER? && pair in Offered(j) && pair.0 < |l| && pair.1 < |r|
    requires Collated(l[pair.0]) != Collated(r[pair.1])
    ensures !JoinedRightly(j)
  {
    hide *;
    TrueOfTheColoured(j, l, r, classes, classes[pair.0], kind);
    KeysDiffer(l, r, Offered(j), pair);
    KeptApart(j);
    NotJoinedRightly(j, l + r);
  }

  lemma NotJoinedRightly(j: Joining, row: Row)
    requires JoinRows(GridOf(j)) == [row] && JoinRows(HashedGrid(j)) == []
    ensures !JoinedRightly(j)
  {
  }

  lemma ApartPair(j: Joining) returns (pair: (nat, nat), classes: seq<nat>)
    requires j.on.Some? && !HashedInOneClass(j)
    ensures pair in Offered(j) && pair.0 < |j.left.columns| && pair.1 < |j.right.columns|
    ensures classes == Classes(PlacesRead(j.Names(), Conjuncts(j.on.value)), |j.Names()|)
    ensures |classes| == |j.left.columns| + |j.right.columns|
    ensures classes[pair.0] != classes[|j.left.columns| + pair.1]
  {
    classes := Classes(PlacesRead(j.Names(), Conjuncts(j.on.value)), |j.Names()|);
    var wrong :| wrong in Offered(j)
                 && !(wrong.0 < |classes| && |j.left.columns| + wrong.1 < |classes|
                      && classes[wrong.0] == classes[|j.left.columns| + wrong.1]);
    OfferedInRange(j, wrong);
    pair := wrong;
  }

  lemma KeysDiffer(l: Row, r: Row, pairs: Pairs, pair: (nat, nat))
    requires pair in pairs && pair.0 < |l| && pair.1 < |r| && Collated(l[pair.0]) != Collated(r[pair.1])
    ensures LeftKey(l, pairs) != RightKey(r, pairs)
  {
    var i :| 0 <= i < |pairs| && pairs[i] == pair;
    assert LeftKey(l, pairs)[i] != RightKey(r, pairs)[i];
  }

  // ---- exactly -------------------------------------------------------------

  /** A join on equalities of columns, of one kind, joins all rows rightly by
      buckets exactly where each pair of columns hashed together is one that the
      equalities as they are read make equal, or one of them reads nothing and
      the ON is true of no pair. */
  lemma EqualitiesAreHashedRightlyExactly(lc: seq<Field>, rc: seq<Field>, on: Cond, kind: Kind, ps: Parameters,
                                          w: World)
    requires OfOneKind(lc, kind) && OfOneKind(rc, kind) && OnlyEqualities(on)
    ensures (forall l, r, joined: JoinKind :: Typed(Table(lc, l)) && Typed(Table(rc, r)) ==>
              JoinedRightly(On(lc, rc, l, r, joined, on, ps, w)))
       <==> var j := On(lc, rc, [], [], INNER, on, ps, w);
            !AllRead(j.Names(), Conjuncts(on)) || HashedInOneClass(j)
  {
    hide *;
    var empty := On(lc, rc, [], [], INNER, on, ps, w);
    IsOn(lc, rc, on, ps, w);
    if !AllRead(empty.Names(), Conjuncts(on)) || HashedInOneClass(empty) {
      forall l, r, joined: JoinKind | Typed(Table(lc, l)) && Typed(Table(rc, r))
        ensures JoinedRightly(On(lc, rc, l, r, joined, on, ps, w))
      {
        RightForThese(lc, rc, l, r, joined, on, kind, ps, w);
      }
    } else {
      var l, r := ApartIsJoinedWrongly(lc, rc, on, kind, ps, w);
      assert !JoinedRightly(On(lc, rc, [l], [r], INNER, on, ps, w));
    }
  }

  lemma RightForThese(lc: seq<Field>, rc: seq<Field>, l: seq<Row>, r: seq<Row>, joined: JoinKind, on: Cond, kind: Kind,
                      ps: Parameters, w: World)
    requires OfOneKind(lc, kind) && OfOneKind(rc, kind) && OnlyEqualities(on)
    requires Typed(Table(lc, l)) && Typed(Table(rc, r))
    requires var j := On(lc, rc, [], [], INNER, on, ps, w);
             j.on == Some(on) && (!AllRead(j.Names(), Conjuncts(on)) || HashedInOneClass(j))
    ensures JoinedRightly(On(lc, rc, l, r, joined, on, ps, w))
  {
    hide *;
    IsOn(lc, rc, on, ps, w);
    SameClasses(lc, rc, l, r, joined, on, kind, ps, w);
    OneClassIsRight(On(lc, rc, l, r, joined, on, ps, w), kind);
  }

  lemma SameClasses(lc: seq<Field>, rc: seq<Field>, l: seq<Row>, r: seq<Row>, joined: JoinKind, on: Cond, kind: Kind,
                    ps: Parameters, w: World)
    requires OfOneKind(lc, kind) && OfOneKind(rc, kind) && OnlyEqualities(on)
    requires Typed(Table(lc, l)) && Typed(Table(rc, r))
    ensures var i, j := On(lc, rc, [], [], INNER, on, ps, w), On(lc, rc, l, r, joined, on, ps, w);
            && i.on == j.on == Some(on) && i.Names() == j.Names() && JoinsOneKind(j, kind)
            && HashedInOneClass(i) == HashedInOneClass(j)
  {
    HashedAlike(On(lc, rc, [], [], INNER, on, ps, w), On(lc, rc, l, r, joined, on, ps, w));
    hide Offered, Classes, PlacesRead, OnlyEqualities, Typed, OfOneKind, HashedInOneClass;
  }

  lemma HashedAlike(i: Joining, j: Joining)
    requires i.on == j.on && i.on.Some? && i.left.columns == j.left.columns && i.right.columns == j.right.columns
    ensures i.Names() == j.Names() && HashedInOneClass(i) == HashedInOneClass(j)
  {
    SameOffered(i, j);
    hide Offered, Classes, PlacesRead, Conjuncts;
  }

  /** One equality makes equal only the two places it reads: it is hashed rightly
      exactly where those are the columns hashed. */
  lemma OneEqualityIsHashedRightlyExactly(lc: seq<Field>, rc: seq<Field>, a: Reference, b: Reference, kind: Kind,
                                          ps: Parameters, w: World)
    requires OfOneKind(lc, kind) && OfOneKind(rc, kind)
    requires Offered(OnOneEquality(lc, rc, [], [], INNER, a, b, ps, w)) != []
    ensures (forall l, r, joined: JoinKind :: Typed(Table(lc, l)) && Typed(Table(rc, r)) ==>
              JoinedRightly(OnOneEquality(lc, rc, l, r, joined, a, b, ps, w)))
       <==> HashesWhatItReads(OnOneEquality(lc, rc, [], [], INNER, a, b, ps, w))
  {
    var on := Comparison(Column(a), Eq, Column(b));
    var j := On(lc, rc, [], [], INNER, on, ps, w);
    OneEqualityOffers(j);
    EqualitiesAreHashedRightlyExactly(lc, rc, on, kind, ps, w);
    assert forall l, r, joined: JoinKind ::
        OnOneEquality(lc, rc, l, r, joined, a, b, ps, w) == On(lc, rc, l, r, joined, on, ps, w);
    OneClassOfTwo(j, a, b);
  }

  lemma OneClassOfTwo(j: Joining, a: Reference, b: Reference)
    requires j.on == Some(Comparison(Column(a), Eq, Column(b))) && Offered(j) != []
    ensures HashesWhatItReads(j) <==> !AllRead(j.Names(), Conjuncts(j.on.value)) || HashedInOneClass(j)
  {
    hide *;
    var pair := OnePairOffered(j);
    OneIsRead(j.Names(), j.on.value);
    OneIsHashed(j, pair);
    OneClassMeans(j.Names(), |j.left.columns|, j.on.value, pair);
  }

  lemma OneClassMeans(names: seq<string>, width: nat, on: Cond, pair: (nat, nat))
    requires on.Comparison? && on.left.Column? && on.right.Column?
    requires pair.0 < width && width + pair.1 < |names|
    ensures HashedAsRead(names, width, on, pair)
       <==> (ReadsAt(names, on.left.reference).Some? && ReadsAt(names, on.right.reference).Some? ==>
               var classes := Classes(PlacesRead(names, [on]), |names|); classes[pair.0] == classes[width + pair.1])
  {
    hide ReadsAt, Classes, PlacesRead;
    ReadsInRange(names, on.left.reference);
    ReadsInRange(names, on.right.reference);
    if ReadsAt(names, on.left.reference).Some? && ReadsAt(names, on.right.reference).Some? {
      ClassesOfOne(names, on, pair.0, width + pair.1);
    }
  }

  lemma OneIsHashed(j: Joining, pair: (nat, nat))
    requires j.on.Some? && Offered(j) == [pair] && pair.0 < |j.left.columns| && pair.1 < |j.right.columns|
    ensures var classes := Classes(PlacesRead(j.Names(), Conjuncts(j.on.value)), |j.Names()|);
            HashedInOneClass(j) <==> classes[pair.0] == classes[|j.left.columns| + pair.1]
  {
    hide Offered, Classes, PlacesRead, Conjuncts;
    assert pair in Offered(j);
  }

  lemma OneIsRead(names: seq<string>, on: Cond)
    requires on.Comparison? && on.left.Column? && on.right.Column?
    ensures Conjuncts(on) == [on]
    ensures AllRead(names, [on])
       <==> ReadsAt(names, on.left.reference).Some? && ReadsAt(names, on.right.reference).Some?
  {
    assert on in [on];
  }

  lemma OnePairOffered(j: Joining) returns (pair: (nat, nat))
    requires j.on.Some? && j.on.value.Comparison? && Offered(j) != []
    ensures Offered(j) == [pair] && pair.0 < |j.left.columns| && pair.1 < |j.right.columns|
    ensures |j.Names()| == |j.left.columns| + |j.right.columns|
    ensures HashesWhatItReads(j) <==> HashedAsRead(j.Names(), |j.left.columns|, j.on.value, pair)
  {
    OneEqualityOffers(j);
    pair := Offered(j)[0];
    assert pair in Offered(j);
    OfferedInRange(j, pair);
    OneOffered(j.on.value, j.left, j.right);
    hide PairOf, Offered, HashedAsRead;
  }

  lemma OneOffered(c: Cond, left: Table, right: Table)
    ensures |PairOf(c, left, right)| <= 1
  {
  }

  lemma ClassesOfOne(names: seq<string>, on: Cond, x: nat, y: nat)
    requires on.Comparison? && on.left.Column? && on.right.Column? && x < |names| && y < |names| && x != y
    requires var p, q := ReadsAt(names, on.left.reference), ReadsAt(names, on.right.reference);
             p.Some? && q.Some? && p.value < |names| && q.value < |names|
    ensures var p, q := ReadsAt(names, on.left.reference).value, ReadsAt(names, on.right.reference).value;
            var classes := Classes(PlacesRead(names, [on]), |names|);
            classes[x] == classes[y] <==> (p == x && q == y) || (q == x && p == y)
  {
    var p, q := ReadsAt(names, on.left.reference).value, ReadsAt(names, on.right.reference).value;
    var parts, read := [on], [(p, q)];
    assert parts[..0] == [] && PlacesRead(names, []) == [];
    assert PlacesRead(names, parts) == [] + PairRead(names, on) == read;
    assert read[..0] == [];
    assert Classes(read, |names|) == Merged(Ordinals(|names|), p, q);
  }
}
