/** UNION, UNION ALL, EXCEPT and INTERSECT, folded over a chain of SELECTs in
    the order they are written. */
module SetOperators {
  import opened Values

  datatype SetOperator = UnionAll | Union | Except | Intersect

  /** A SELECT after the first, with the operator in front of it, its rows
      already brought to the statement's column types. */
  datatype Part = Part(operator: SetOperator, rows: seq<Row>)

  /** What makes two rows the same row under the collation. */
  function Signatures(rows: seq<Row>): (keys: seq<seq<Key>>)
    ensures |keys| == |rows|
    ensures forall i :: 0 <= i < |rows| ==> keys[i] == Signature(rows[i])
  {
    seq(|rows|, i requires 0 <= i < |rows| => Signature(rows[i]))
  }

  /** Repeated rows dropped, keeping the order they first appeared in. */
  function Distinct(rows: seq<Row>): seq<Row> {
    if rows == [] then []
    else
      var n := |rows| - 1;
      if Signature(rows[n]) in Signatures(rows[..n]) then Distinct(rows[..n])
      else Distinct(rows[..n]) + [rows[n]]
  }

  method DropRepeats(rows: seq<Row>) returns (kept: seq<Row>)
    ensures kept == Distinct(rows)
  {
    kept := [];
    var seen: set<seq<Key>> := {};
    for at := 0 to |rows|
      invariant kept == Distinct(rows[..at])
      invariant forall key :: key in seen <==> key in Signatures(rows[..at])
    {
      var signature := Signature(rows[at]);
      SignaturesAdd(rows, at);
      assert rows[..at + 1][..at] == rows[..at];
      if signature in seen {
        continue;
      }
      seen := seen + {signature};
      kept := kept + [rows[at]];
    }
    assert rows[..|rows|] == rows;
  }

  lemma SignaturesAdd(rows: seq<Row>, at: nat)
    requires at < |rows|
    ensures Signatures(rows[..at + 1]) == Signatures(rows[..at]) + [Signature(rows[at])]
  {
  }

  /** The rows whose signatures are, or are not, among another's. */
  function Among(rows: seq<Row>, theirs: set<seq<Key>>, wanted: bool): seq<Row> {
    if rows == [] then []
    else
      var n := |rows| - 1;
      Among(rows[..n], theirs, wanted) + (if (Signature(rows[n]) in theirs) == wanted then [rows[n]] else [])
  }

  function Theirs(rows: seq<Row>): set<seq<Key>> {
    set key | key in Signatures(rows)
  }

  function Apply(rows: seq<Row>, part: Part): seq<Row> {
    match part.operator
    case UnionAll => rows + part.rows
    case Union => Distinct(rows + part.rows)
    case Except => Distinct(Among(rows, Theirs(part.rows), false))
    case Intersect => Distinct(Among(rows, Theirs(part.rows), true))
  }

  /** The chain as it is written, folded left to right. */
  function Chain(first: seq<Row>, parts: seq<Part>): seq<Row> {
    if parts == [] then first else Apply(Chain(first, parts[..|parts| - 1]), parts[|parts| - 1])
  }

  method Combine(first: seq<Row>, parts: seq<Part>) returns (rows: seq<Row>)
    ensures rows == Chain(first, parts)
  {
    rows := first;
    for at := 0 to |parts|
      invariant rows == Chain(first, parts[..at])
    {
      var part := parts[at];
      assert parts[..at + 1][..at] == parts[..at];
      match part.operator
      case UnionAll =>
        rows := rows + part.rows;
      case Union =>
        rows := DropRepeats(rows + part.rows);
      case Except =>
        rows := DropRepeats(Among(rows, Theirs(part.rows), false));
      case Intersect =>
        rows := DropRepeats(Among(rows, Theirs(part.rows), true));
    }
    assert parts[..|parts|] == parts;
  }

  // ---- the algebra ---------------------------------------------------------

  /** How often each signature is answered. */
  function Counts(rows: seq<Row>): multiset<seq<Key>> {
    multiset(Signatures(rows))
  }

  function Support(m: multiset<seq<Key>>): set<seq<Key>> {
    set key | key in m
  }

  function Once(m: multiset<seq<Key>>): multiset<seq<Key>> {
    multiset(Support(m))
  }

  /** What each operator means of multiplicities. */
  function Meaning(operator: SetOperator, a: multiset<seq<Key>>, b: multiset<seq<Key>>): multiset<seq<Key>> {
    match operator
    case UnionAll => a + b
    case Union => multiset(Support(a) + Support(b))
    case Except => multiset(Support(a) - Support(b))
    case Intersect => multiset(Support(a) * Support(b))
  }

  function MeaningOfChain(first: multiset<seq<Key>>, parts: seq<Part>): multiset<seq<Key>> {
    if parts == [] then first
    else
      var n := |parts| - 1;
      Meaning(parts[n].operator, MeaningOfChain(first, parts[..n]), Counts(parts[n].rows))
  }

  lemma CountsAppend(a: seq<Row>, b: seq<Row>)
    ensures Counts(a + b) == Counts(a) + Counts(b)
    ensures Counts([]) == multiset{}
  {
    assert Signatures(a + b) == Signatures(a) + Signatures(b);
  }

  lemma CountsAddOne(rows: seq<Row>, row: Row)
    ensures Counts(rows + [row]) == Counts(rows) + multiset{Signature(row)}
  {
    assert Signatures(rows + [row]) == Signatures(rows) + [Signature(row)];
  }

  lemma CountedIsThere(rows: seq<Row>, key: seq<Key>)
    ensures key in Counts(rows) <==> key in Signatures(rows)
    ensures key in Theirs(rows) <==> key in Counts(rows)
  {
  }

  /** Dropping repeats leaves each signature once, and loses none. */
  lemma {:induction false} DistinctLeavesOne(rows: seq<Row>)
    ensures Counts(Distinct(rows)) == Once(Counts(rows))
  {
    if rows == [] {
      CountsAppend([], []);
    } else {
      var n := |rows| - 1;
      var before, row := rows[..n], rows[n];
      DistinctLeavesOne(before);
      assert rows == before + [row];
      CountsAddOne(before, row);
      CountedIsThere(before, Signature(row));
      CountsAddOne(Distinct(before), row);
    }
  }

  lemma {:induction false} AmongKeeps(rows: seq<Row>, theirs: set<seq<Key>>, wanted: bool)
    ensures forall key ::
              key in Counts(Among(rows, theirs, wanted)) <==> key in Counts(rows) && (key in theirs) == wanted
  {
    if rows == [] {
      CountsAppend([], []);
    } else {
      var n := |rows| - 1;
      var before, row := rows[..n], rows[n];
      AmongKeeps(before, theirs, wanted);
      assert rows == before + [row];
      CountsAddOne(before, row);
      CountsAddOne(Among(before, theirs, wanted), row);
      assert Among(before, theirs, wanted) + [] == Among(before, theirs, wanted);
    }
  }

  lemma ApplyMeans(rows: seq<Row>, part: Part)
    ensures Counts(Apply(rows, part)) == Meaning(part.operator, Counts(rows), Counts(part.rows))
  {
    hide Distinct, Among, Counts, Theirs;
    match part.operator
    case UnionAll =>
      CountsAppend(rows, part.rows);
    case Union =>
      CountsAppend(rows, part.rows);
      DistinctLeavesOne(rows + part.rows);
      assert Support(Counts(rows) + Counts(part.rows)) == Support(Counts(rows)) + Support(Counts(part.rows));
    case Except =>
      SideMeans(rows, part.rows, false);
    case Intersect =>
      SideMeans(rows, part.rows, true);
  }

  lemma SideMeans(rows: seq<Row>, other: seq<Row>, wanted: bool)
    ensures Counts(Distinct(Among(rows, Theirs(other), wanted)))
         == multiset(if wanted then Support(Counts(rows)) * Support(Counts(other))
                     else Support(Counts(rows)) - Support(Counts(other)))
  {
    hide Distinct, Among;
    var kept := Among(rows, Theirs(other), wanted);
    AmongKeeps(rows, Theirs(other), wanted);
    DistinctLeavesOne(kept);
    forall key ensures key in Theirs(other) <==> key in Counts(other) {
      CountedIsThere(other, key);
    }
    assert Support(Counts(kept)) == if wanted then Support(Counts(rows)) * Support(Counts(other))
                                    else Support(Counts(rows)) - Support(Counts(other));
  }

  /** A whole chain answers each signature as often as the algebra says: UNION
      ALL adds, and the others leave the union, the difference and the
      intersection, each signature once. */
  lemma {:induction false} ChainFollowsTheAlgebra(first: seq<Row>, parts: seq<Part>)
    ensures Counts(Chain(first, parts)) == MeaningOfChain(Counts(first), parts)
  {
    if parts != [] {
      var n := |parts| - 1;
      ChainFollowsTheAlgebra(first, parts[..n]);
      ApplyMeans(Chain(first, parts[..n]), parts[n]);
    }
  }

  // ---- which rows survive --------------------------------------------------

  /** The rows at these positions of the first n, in order. */
  function Picked(rows: seq<Row>, keep: set<nat>, n: nat): seq<Row>
    requires n <= |rows|
  {
    if n == 0 then [] else Picked(rows, keep, n - 1) + (if n - 1 in keep then [rows[n - 1]] else [])
  }

  predicate IsAt(rows: seq<Row>, p: nat, key: seq<Key>) {
    p < |rows| && Signature(rows[p]) == key
  }

  /** Of the rows at these positions, those that none before among them repeats. */
  predicate IsFirst(rows: seq<Row>, among: set<nat>, p: nat) {
    p in among && p < |rows| && forall q :: 0 <= q < p && q in among ==> !IsAt(rows, q, Signature(rows[p]))
  }

  function Firsts(rows: seq<Row>, among: set<nat>): set<nat> {
    set p | p in among && IsFirst(rows, among, p)
  }

  function Span(start: nat, n: nat): (positions: set<nat>)
    ensures forall p :: p in positions <==> start <= p < start + n
  {
    if n == 0 then {} else Span(start, n - 1) + {start + n - 1}
  }

  lemma {:induction false} PickedHolds(rows: seq<Row>, keep: set<nat>, n: nat, key: seq<Key>)
    requires n <= |rows|
    ensures key in Signatures(Picked(rows, keep, n)) <==> exists q :: 0 <= q < n && q in keep && IsAt(rows, q, key)
  {
    if n > 0 {
      PickedHolds(rows, keep, n - 1, key);
      var before := Picked(rows, keep, n - 1);
      assert IsAt(rows, n - 1, Signature(rows[n - 1]));
      if n - 1 in keep {
        assert Signatures(before + [rows[n - 1]]) == Signatures(before) + [Signature(rows[n - 1])];
      } else {
        assert before + [] == before;
      }
    }
  }

  lemma {:induction false} FirstsSurvive(rows: seq<Row>, keep: set<nat>, n: nat)
    requires n <= |rows|
    ensures Distinct(Picked(rows, keep, n)) == Picked(rows, Firsts(rows, keep), n)
  {
    if n > 0 {
      FirstsSurvive(rows, keep, n - 1);
      PickedHolds(rows, keep, n - 1, Signature(rows[n - 1]));
      var before := Picked(rows, keep, n - 1);
      assert (before + [rows[n - 1]])[..|before|] == before && before + [] == before;
      assert Picked(rows, Firsts(rows, keep), n - 1) + [] == Picked(rows, Firsts(rows, keep), n - 1);
    }
  }

  lemma {:induction false} AllPicked(rows: seq<Row>, keep: set<nat>, n: nat)
    requires n <= |rows| && forall p :: 0 <= p < n ==> p in keep
    ensures Picked(rows, keep, n) == rows[..n]
  {
    if n > 0 {
      AllPicked(rows, keep, n - 1);
    }
  }

  /** What survives are the first occurrences, each as it stood, in order. */
  lemma FirstOccurrencesSurvive(rows: seq<Row>)
    ensures Distinct(rows) == Picked(rows, Firsts(rows, Span(0, |rows|)), |rows|)
  {
    FirstsSurvive(rows, Span(0, |rows|), |rows|);
    AllPicked(rows, Span(0, |rows|), |rows|);
    assert rows[..|rows|] == rows;
  }

  /** Every row written, one SELECT's after another's. */
  function AllWritten(first: seq<Row>, parts: seq<Part>): seq<Row> {
    if parts == [] then first else AllWritten(first, parts[..|parts| - 1]) + parts[|parts| - 1].rows
  }

  /** The positions offered to a chain's last operator: those that survived the
      chain before it, with the new rows under a UNION, and those of them alone
      that the new rows hold or do not hold under the others. */
  ghost predicate IsOffered(first: seq<Row>, parts: seq<Part>, p: nat)
    requires parts != []
    decreases |parts|, 0
  {
    var before, part := parts[..|parts| - 1], parts[|parts| - 1];
    var all := AllWritten(first, before);
    match part.operator
    case UnionAll => Survives(first, before, p) || |all| <= p < |all| + |part.rows|
    case Union => Survives(first, before, p) || |all| <= p < |all| + |part.rows|
    case Except => Survives(first, before, p) && p < |all| && Signature(all[p]) !in Theirs(part.rows)
    case Intersect => Survives(first, before, p) && p < |all| && Signature(all[p]) in Theirs(part.rows)
  }

  /** The row at this position of all that is written is in the answer: it was
      offered to the last operator, and unless that is UNION ALL no row before it
      that was offered too is the same. */
  ghost predicate Survives(first: seq<Row>, parts: seq<Part>, p: nat)
    decreases |parts|, 1
  {
    if parts == [] then p < |first|
    else
      && IsOffered(first, parts, p)
      && var all := AllWritten(first, parts);
         p < |all| && (!parts[|parts| - 1].operator.UnionAll? ==>
                         forall q :: 0 <= q < p && IsOffered(first, parts, q) ==> !IsAt(all, q, Signature(all[p])))
  }

  ghost function Survivors(first: seq<Row>, parts: seq<Part>): set<nat> {
    set p: nat | p < |AllWritten(first, parts)| && Survives(first, parts, p)
  }

  /** A whole chain answers the rows that survive it, each as it was written, in
      the order they were written. */
  lemma {:induction false} ChainKeepsTheSurvivors(first: seq<Row>, parts: seq<Part>)
    ensures Chain(first, parts) == Picked(AllWritten(first, parts), Survivors(first, parts), |AllWritten(first, parts)|)
  {
    if parts == [] {
      AllPicked(first, Survivors(first, parts), |first|);
      assert first[..|first|] == first;
    } else {
      var n := |parts| - 1;
      var before := parts[..n];
      ChainKeepsTheSurvivors(first, before);
      OnePartMore(AllWritten(first, before), Survivors(first, before), parts[n]);
      var all := AllWritten(first, parts);
      var offered := PositionsOffered(AllWritten(first, before), Survivors(first, before), parts[n]);
      assert forall p: nat :: p in offered <==> p < |all| && IsOffered(first, parts, p);
      if parts[n].operator.UnionAll? {
        assert Survivors(first, parts) == offered;
      } else {
        forall p: nat ensures p in Survivors(first, parts) <==> p in Firsts(all, offered) {
          SurvivesIsFirst(first, parts, offered, p);
        }
        assert Survivors(first, parts) == Firsts(all, offered);
      }
    }
  }

  lemma SurvivesIsFirst(first: seq<Row>, parts: seq<Part>, offered: set<nat>, p: nat)
    requires parts != [] && !parts[|parts| - 1].operator.UnionAll?
    requires forall q: nat :: q in offered <==> q < |AllWritten(first, parts)| && IsOffered(first, parts, q)
    ensures p < |AllWritten(first, parts)| && Survives(first, parts, p)
       <==> p in Firsts(AllWritten(first, parts), offered)
  {
    hide IsOffered, AllWritten;
  }

  function PositionsOffered(rows: seq<Row>, keep: set<nat>, part: Part): set<nat> {
    match part.operator
    case UnionAll => keep + Span(|rows|, |part.rows|)
    case Union => keep + Span(|rows|, |part.rows|)
    case Except => set p | p in keep && p < |rows| && Signature(rows[p]) !in Theirs(part.rows)
    case Intersect => set p | p in keep && p < |rows| && Signature(rows[p]) in Theirs(part.rows)
  }

  lemma OnePartMore(rows: seq<Row>, keep: set<nat>, part: Part)
    requires forall p :: p in keep ==> p < |rows|
    ensures var all, offered := rows + part.rows, PositionsOffered(rows, keep, part);
            Apply(Picked(rows, keep, |rows|), part)
            == Picked(all, if part.operator.UnionAll? then offered else Firsts(all, offered), |all|)
  {
    hide Distinct, Picked, Among, Firsts, Theirs;
    var all, offered := rows + part.rows, PositionsOffered(rows, keep, part);
    FirstsSurvive(all, offered, |all|);
    match part.operator
    case UnionAll =>
      PickedWithMore(rows, keep, part.rows, offered, |part.rows|);
    case Union =>
      PickedWithMore(rows, keep, part.rows, offered, |part.rows|);
    case Except =>
      AmongPicked(rows, keep, Theirs(part.rows), false, offered, |rows|);
      PickedBefore(rows, part.rows, offered, |part.rows|);
    case Intersect =>
      AmongPicked(rows, keep, Theirs(part.rows), true, offered, |rows|);
      PickedBefore(rows, part.rows, offered, |part.rows|);
  }

  lemma {:induction false} SamePicked(rows: seq<Row>, more: seq<Row>, keep: set<nat>, wider: set<nat>, n: nat)
    requires n <= |rows| && forall p :: 0 <= p < n ==> (p in keep <==> p in wider)
    ensures Picked(rows + more, wider, n) == Picked(rows, keep, n)
  {
    if n > 0 {
      SamePicked(rows, more, keep, wider, n - 1);
    }
  }

  lemma {:induction false} PickedWithMore(rows: seq<Row>, keep: set<nat>, more: seq<Row>, wider: set<nat>, m: nat)
    requires m <= |more| && forall p :: 0 <= p < |rows| ==> (p in keep <==> p in wider)
    requires forall p :: |rows| <= p < |rows| + m ==> p in wider
    ensures Picked(rows + more, wider, |rows| + m) == Picked(rows, keep, |rows|) + more[..m]
    ensures m == |more| ==> more[..m] == more && |rows| + m == |rows + more|
  {
    if m == 0 {
      SamePicked(rows, more, keep, wider, |rows|);
    } else {
      PickedWithMore(rows, keep, more, wider, m - 1);
      assert more[..m] == more[..m - 1] + [more[m - 1]];
    }
  }

  lemma {:induction false} PickedBefore(rows: seq<Row>, more: seq<Row>, keep: set<nat>, m: nat)
    requires m <= |more| && forall p :: p in keep ==> p < |rows|
    ensures Picked(rows + more, keep, |rows| + m) == Picked(rows, keep, |rows|)
  {
    if m == 0 {
      SamePicked(rows, more, keep, keep, |rows|);
    } else {
      PickedBefore(rows, more, keep, m - 1);
    }
  }

  lemma {:induction false} AmongPicked(rows: seq<Row>, keep: set<nat>, theirs: set<seq<Key>>, wanted: bool,
                                       offered: set<nat>, n: nat)
    requires n <= |rows|
    requires forall p :: 0 <= p < |rows| ==> (p in offered <==> p in keep && (Signature(rows[p]) in theirs) == wanted)
    ensures Among(Picked(rows, keep, n), theirs, wanted) == Picked(rows, offered, n)
  {
    if n > 0 {
      AmongPicked(rows, keep, theirs, wanted, offered, n - 1);
      var before := Picked(rows, keep, n - 1);
      assert (before + [rows[n - 1]])[..|before|] == before && before + [] == before;
      assert Picked(rows, offered, n - 1) + [] == Picked(rows, offered, n - 1);
    }
  }

  // ---- the order of folding ------------------------------------------------

  function InTheOrderWritten(a: seq<Row>, b: seq<Row>, c: seq<Row>): seq<Row> {
    Chain(a, [Part(Union, b), Part(Intersect, c)])
  }

  function IntersectingFirst(a: seq<Row>, b: seq<Row>, c: seq<Row>): seq<Row> {
    Chain(a, [Part(Union, Chain(b, [Part(Intersect, c)]))])
  }

  lemma ChainOfTwo(a: seq<Row>, p: Part, q: Part)
    ensures Chain(a, [p]) == Apply(a, p)
    ensures Chain(a, [p, q]) == Apply(Apply(a, p), q)
  {
    assert [p][..0] == [] && [p, q][..1] == [p];
  }

  /** SQL-92 binds INTERSECT tighter than UNION; here a UNION b INTERSECT c is
      folded as it is written. The two answer the same rows, however the rows
      repeat, exactly where every row of a is one of c's. */
  lemma FoldingAsWrittenAgrees(a: seq<Row>, b: seq<Row>, c: seq<Row>)
    ensures Counts(InTheOrderWritten(a, b, c)) == Counts(IntersectingFirst(a, b, c))
       <==> Support(Counts(a)) <= Support(Counts(c))
  {
    var union, inner := Part(Union, b), Part(Intersect, c);
    ChainOfTwo(a, union, inner);
    ChainOfTwo(b, inner, inner);
    var tight := Part(Union, Apply(b, inner));
    ChainOfTwo(a, tight, tight);
    ApplyMeans(a, union);
    ApplyMeans(Apply(a, union), inner);
    ApplyMeans(b, inner);
    ApplyMeans(a, tight);
    hide Apply, Counts;
    var x, y, z := Support(Counts(a)), Support(Counts(b)), Support(Counts(c));
    assert Support(multiset(x + y)) == x + y && Support(multiset(y * z)) == y * z;
    WrittenAndTight(x, y, z);
  }

  /** One row, no rows, no rows. */
  lemma UnionBeforeIntersectLosesARow()
    ensures InTheOrderWritten([[Int(1)]], [], []) == [] && IntersectingFirst([[Int(1)]], [], []) == [[Int(1)]]
  {
    var a: seq<Row> := [[Int(1)]];
    var union, inner := Part(Union, []), Part(Intersect, []);
    ChainOfTwo(a, union, inner);
    ChainOfTwo([], inner, inner);
    assert a + [] == a && a[..0] == [];
    assert Signatures([]) == [] && Theirs([]) == {};
    assert Distinct(a) == a && Among(a, {}, true) == [];
    assert Apply([], inner) == [];
    ChainOfTwo(a, Part(Union, Apply([], inner)), inner);
  }

  lemma WrittenAndTight(x: set<seq<Key>>, y: set<seq<Key>>, z: set<seq<Key>>)
    ensures multiset((x + y) * z) == multiset(x + y * z) <==> x <= z
  {
    var written, tight := (x + y) * z, x + y * z;
    if multiset(written) == multiset(tight) {
      forall key | key in x ensures key in z {
        assert key in multiset(tight);
        assert key in multiset(written);
      }
    }
    if x <= z {
      assert written == tight;
    }
  }
}
