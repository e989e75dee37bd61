/** A correlated select answered once for each distinct value it is asked
    about, and the two things built on that: a subquery standing for a value in
    each row, and an APPLY. */
module Remembered {
  import opened Outcomes
  import opened Values
  import opened NestedLoop
  import opened InTurn

  const MAX_CORRELATED_ANSWERS: nat := 10_000

  type Asked = seq<Value>

  /** Two values are one dictionary key where they are one number, or the same
      text or moment exactly. */
  function Hashed(v: Value): Value {
    if v.Int? then Real(v.i as real) else v
  }

  function HashedAll(key: Asked): (hashed: seq<Value>)
    ensures |hashed| == |key|
    ensures forall i :: 0 <= i < |key| ==> hashed[i] == Hashed(key[i])
  {
    seq(|key|, i requires 0 <= i < |key| => Hashed(key[i]))
  }

  predicate OneKind(a: Value, b: Value) {
    a.Null? || b.Null? || (!(a.Int? && b.Real?) && !(a.Real? && b.Int?))
  }

  /** The values asked about in each place of the key are of one kind. */
  predicate OneKindEach(keys: seq<Asked>) {
    && (forall i, k :: 0 <= i < |keys| && 0 <= k < |keys| ==> |keys[i]| == |keys[k]|)
    && (forall i, k, at :: 0 <= i < |keys| && 0 <= k < |keys| && 0 <= at < |keys[i]| && at < |keys[k]|
          ==> OneKind(keys[i][at], keys[k][at]))
  }

  lemma OneKindHashesApart(keys: seq<Asked>, i: nat, k: nat)
    requires OneKindEach(keys) && i < |keys| && k < |keys| && HashedAll(keys[i]) == HashedAll(keys[k])
    ensures keys[i] == keys[k]
  {
    forall at | 0 <= at < |keys[i]| ensures keys[i][at] == keys[k][at] {
      assert HashedAll(keys[i])[at] == HashedAll(keys[k])[at];
      assert OneKind(keys[i][at], keys[k][at]);
    }
  }

  /** The first of these keys that a dictionary takes for the n-th. */
  function FirstLike(keys: seq<Asked>, n: nat): (first: nat)
    requires n < |keys|
    ensures first <= n && HashedAll(keys[first]) == HashedAll(keys[n])
    ensures forall i :: 0 <= i < first ==> HashedAll(keys[i]) != HashedAll(keys[n])
  {
    FirstFrom(keys, n, 0)
  }

  function FirstFrom(keys: seq<Asked>, n: nat, at: nat): (first: nat)
    requires at <= n < |keys|
    ensures at <= first <= n && HashedAll(keys[first]) == HashedAll(keys[n])
    ensures forall i :: at <= i < first ==> HashedAll(keys[i]) != HashedAll(keys[n])
    decreases n - at
  {
    if HashedAll(keys[at]) == HashedAll(keys[n]) then at else FirstFrom(keys, n, at + 1)
  }

  /** What each key is answered for once answers are remembered. */
  function FirstLikes(keys: seq<Asked>): (firsts: seq<Asked>)
    ensures |firsts| == |keys|
    ensures forall i :: 0 <= i < |keys| ==> firsts[i] == keys[FirstLike(keys, i)]
  {
    seq(|keys|, i requires 0 <= i < |keys| => keys[FirstLike(keys, i)])
  }

  /** Keys a dictionary takes for one are answered alike. */
  ghost predicate AnsweredAlike<A>(keys: seq<Asked>, inner: Asked -> Result<A>) {
    forall i, k :: 0 <= i < |keys| && 0 <= k < |keys| && HashedAll(keys[i]) == HashedAll(keys[k]) ==>
      inner(keys[i]) == inner(keys[k])
  }

  /** Which they are where each place of the key is of one kind. */
  lemma OneKindIsAnsweredAlike<A>(keys: seq<Asked>, inner: Asked -> Result<A>)
    requires OneKindEach(keys)
    ensures AnsweredAlike(keys, inner)
  {
    forall i, k | 0 <= i < |keys| && 0 <= k < |keys| && HashedAll(keys[i]) == HashedAll(keys[k])
      ensures inner(keys[i]) == inner(keys[k])
    {
      OneKindHashesApart(keys, i, k);
    }
  }

  /** What is answered for the first like each key is each key's own answer, exactly
      where keys a dictionary takes for one are answered alike. */
  lemma RememberedIsAskedAfresh<A>(keys: seq<Asked>, inner: Asked -> Result<A>)
    ensures (forall i :: 0 <= i < |keys| ==> inner(FirstLikes(keys)[i]) == inner(keys[i]))
       <==> AnsweredAlike(keys, inner)
  {
    if forall i :: 0 <= i < |keys| ==> inner(FirstLikes(keys)[i]) == inner(keys[i]) {
      forall i, k | 0 <= i < |keys| && 0 <= k < |keys| && HashedAll(keys[i]) == HashedAll(keys[k])
        ensures inner(keys[i]) == inner(keys[k])
      {
        assert FirstLike(keys, i) == FirstLike(keys, k);
        assert inner(FirstLikes(keys)[i]) == inner(keys[i]) && inner(FirstLikes(keys)[k]) == inner(keys[k]);
      }
    }
  }

  /** The distinct keys among these. */
  function Distinctly(keys: seq<Asked>): set<seq<Value>> {
    set i | 0 <= i < |keys| :: HashedAll(keys[i])
  }

  lemma DistinctlyAdds(keys: seq<Asked>, n: nat)
    requires n < |keys|
    ensures Distinctly(keys[..n + 1]) == Distinctly(keys[..n]) + {HashedAll(keys[n])}
  {
    var more, less := Distinctly(keys[..n + 1]), Distinctly(keys[..n]);
    forall h ensures h in more <==> h in less || h == HashedAll(keys[n]) {
      if h in more {
        var i :| 0 <= i < n + 1 && HashedAll(keys[..n + 1][i]) == h;
        assert i < n ==> HashedAll(keys[..n][i]) == h;
      }
      if h in less {
        ghost var i :| 0 <= i < n && HashedAll(keys[..n][i]) == h;
        assert HashedAll(keys[..n + 1][i]) == h;
      }
      if h == HashedAll(keys[n]) {
        assert HashedAll(keys[..n + 1][n]) == h;
      }
    }
  }

  lemma {:induction false} DistinctlyGrows(keys: seq<Asked>, n: nat)
    requires n <= |keys|
    ensures |Distinctly(keys[..n])| <= |Distinctly(keys)|
    decreases |keys| - n
  {
    if n == |keys| {
      assert keys[..n] == keys;
    } else {
      DistinctlyAdds(keys, n);
      Subsets(Distinctly(keys[..n]), Distinctly(keys[..n + 1]));
      DistinctlyGrows(keys, n + 1);
    }
  }

  /** An integer and the float of its size: the second is answered for the first. */
  lemma OneForTheOther()
    ensures FirstLikes([[Int(1)], [Real(1.0)]]) == [[Int(1)], [Int(1)]]
  {
    var keys: seq<Asked> := [[Int(1)], [Real(1.0)]];
    assert HashedAll(keys[0]) == HashedAll(keys[1]);
  }

  // ---- what is remembered --------------------------------------------------

  /** What is kept under each of these keys is what the inner select answered for
      the first like it. */
  ghost predicate Keeps<A>(answers: map<seq<Value>, A>, keys: seq<Asked>, inner: Asked -> Result<A>) {
    answers.Keys == Distinctly(keys) && forall i: nat :: i < |keys| ==> IsKept(answers, keys, inner, i)
  }

  ghost predicate IsKept<A>(answers: map<seq<Value>, A>, keys: seq<Asked>, inner: Asked -> Result<A>, i: nat)
    requires i < |keys|
  {
    HashedAll(keys[i]) in answers && inner(keys[FirstLike(keys, i)]) == Ok(answers[HashedAll(keys[i])])
  }

  lemma FirstInFront(keys: seq<Asked>, n: nat, i: nat)
    requires i < n <= |keys|
    ensures FirstLike(keys[..n], i) == FirstLike(keys, i)
  {
    assert forall k :: 0 <= k < n ==> HashedAll(keys[..n][k]) == HashedAll(keys[k]);
  }

  lemma KeptInFront<A>(answers: map<seq<Value>, A>, keys: seq<Asked>, inner: Asked -> Result<A>, n: nat, i: nat)
    requires i < n <= |keys|
    ensures IsKept(answers, keys[..n], inner, i) <==> IsKept(answers, keys, inner, i)
  {
    FirstInFront(keys, n, i);
    assert keys[..n][i] == keys[i];
    hide FirstLike, HashedAll;
  }

  lemma KeepsTheFront<A>(answers: map<seq<Value>, A>, keys: seq<Asked>, inner: Asked -> Result<A>, n: nat)
    requires n <= |keys|
    ensures Keeps(answers, keys[..n], inner)
       <==> answers.Keys == Distinctly(keys[..n]) && forall i: nat :: i < n ==> IsKept(answers, keys, inner, i)
  {
    forall i: nat | i < n ensures IsKept(answers, keys[..n], inner, i) <==> IsKept(answers, keys, inner, i) {
      KeptInFront(answers, keys, inner, n, i);
    }
    hide IsKept, Distinctly;
  }

  lemma RepeatedIsKept<A>(answers: map<seq<Value>, A>, keys: seq<Asked>, inner: Asked -> Result<A>, n: nat)
    requires n < |keys| && Keeps(answers, keys[..n], inner) && HashedAll(keys[n]) in answers
    ensures inner(keys[FirstLike(keys, n)]) == Ok(answers[HashedAll(keys[n])])
    ensures Distinctly(keys[..n + 1]) == Distinctly(keys[..n]) && Keeps(answers, keys[..n + 1], inner)
  {
    DistinctlyAdds(keys, n);
    KeepsTheFront(answers, keys, inner, n);
    KeepsTheFront(answers, keys, inner, n + 1);
    var i := EarlierLike(keys, n);
    hide *;
    SameFirst(answers, keys, inner, i, n);
  }

  lemma EarlierLike(keys: seq<Asked>, n: nat) returns (i: nat)
    requires n < |keys| && HashedAll(keys[n]) in Distinctly(keys[..n])
    ensures i < n && HashedAll(keys[i]) == HashedAll(keys[n])
  {
    var k :| 0 <= k < n && HashedAll(keys[..n][k]) == HashedAll(keys[n]);
    i := k;
  }

  lemma SameFirst<A>(answers: map<seq<Value>, A>, keys: seq<Asked>, inner: Asked -> Result<A>, i: nat, n: nat)
    requires i < n < |keys| && HashedAll(keys[i]) == HashedAll(keys[n]) && IsKept(answers, keys, inner, i)
    ensures IsKept(answers, keys, inner, n) && inner(keys[FirstLike(keys, n)]) == Ok(answers[HashedAll(keys[n])])
  {
    assert FirstLike(keys, i) == FirstLike(keys, n);
  }

  lemma NewIsKept<A>(answers: map<seq<Value>, A>, keys: seq<Asked>, inner: Asked -> Result<A>, n: nat, answer: A)
    requires n < |keys| && Keeps(answers, keys[..n], inner) && HashedAll(keys[n]) !in answers
    requires inner(keys[n]) == Ok(answer)
    ensures Keeps(answers[HashedAll(keys[n]) := answer], keys[..n + 1], inner)
  {
    var now := answers[HashedAll(keys[n]) := answer];
    DistinctlyAdds(keys, n);
    NewIsFirst(answers, keys, inner, n);
    KeepsTheFront(answers, keys, inner, n);
    KeepsTheFront(now, keys, inner, n + 1);
    forall i: nat | i < n + 1 ensures IsKept(now, keys, inner, i) {
      hide Distinctly, FirstLike;
      assert i < n ==> IsKept(answers, keys, inner, i);
    }
    hide *;
  }

  lemma NewIsFirst<A>(answers: map<seq<Value>, A>, keys: seq<Asked>, inner: Asked -> Result<A>, n: nat)
    requires n < |keys| && Keeps(answers, keys[..n], inner) && HashedAll(keys[n]) !in answers
    ensures FirstLike(keys, n) == n
  {
    forall i | 0 <= i < n ensures HashedAll(keys[i]) != HashedAll(keys[n]) {
      assert HashedAll(keys[..n][i]) in Distinctly(keys[..n]);
    }
  }

  lemma NewIsCounted<A>(answers: map<seq<Value>, A>, keys: seq<Asked>, inner: Asked -> Result<A>, n: nat)
    requires n < |keys| && Keeps(answers, keys[..n], inner) && HashedAll(keys[n]) !in answers
    ensures |Distinctly(keys[..n + 1])| == |answers| + 1
  {
    DistinctlyAdds(keys, n);
    assert |answers| == |answers.Keys|;
  }

  lemma KeptAreCounted<A>(answers: map<seq<Value>, A>, keys: seq<Asked>, inner: Asked -> Result<A>)
    requires Keeps(answers, keys, inner)
    ensures |answers| == |Distinctly(keys)|
  {
    assert |answers| == |answers.Keys|;
  }

  /** The answers of one correlated select, kept over the rows of one
      statement. */
  class Memory<A> {
    const inner: Asked -> Result<A>
    var answers: map<seq<Value>, A>
    // How often the inner select has been run to an answer.
    var runs: nat

    ghost predicate Holds(keys: seq<Asked>)
      reads this
    {
      Keeps(answers, keys, inner) && runs == |Distinctly(keys)| <= MAX_CORRELATED_ANSWERS
    }

    constructor (inner: Asked -> Result<A>)
      ensures Holds([]) && this.inner == inner
    {
      this.inner := inner;
      answers, runs := map[], 0;
    }

    /** The answer for the n-th of these keys, run for the first time one like it
        is asked about and remembered after that. */
    method Ask(ghost keys: seq<Asked>, ghost n: nat, key: Asked) returns (r: Result<A>)
      requires n < |keys| && keys[n] == key && Holds(keys[..n])
      modifies this
      ensures r.Ok? ==> r == inner(keys[FirstLike(keys, n)]) && Holds(keys[..n + 1])
      ensures r.Ok? <==> inner(keys[FirstLike(keys, n)]).Ok? && |Distinctly(keys[..n + 1])| <= MAX_CORRELATED_ANSWERS
    {
      hide Keeps, Distinctly, HashedAll;
      var hashed := HashedAll(key);
      if hashed in answers {
        RepeatedIsKept(answers, keys, inner, n);
        return Ok(answers[hashed]);
      }
      NewIsCounted(answers, keys, inner, n);
      NewIsFirst(answers, keys, inner, n);
      if |answers| >= MAX_CORRELATED_ANSWERS {
        return Err(TooManyAnswers);
      }
      var answer := inner(key);
      if answer.Err? {
        return answer;
      }
      NewIsKept(answers, keys, inner, n, answer.value);
      KeptAreCounted(answers, keys[..n], inner);
      answers := answers[hashed := answer.value];
      runs := runs + 1;
      r := answer;
    }

    /** Each key in turn. The answers are those of running the inner select for the
        first like each of them, from one run a distinct key; and there is no
        answer exactly where such a run is refused or the distinct keys pass the
        bound. */
    method AskEach(keys: seq<Asked>) returns (r: Result<seq<A>>)
      requires Holds([])
      modifies this
      ensures r.Ok? <==> (forall i :: 0 <= i < |keys| ==> inner(FirstLikes(keys)[i]).Ok?)
                         && |Distinctly(keys)| <= MAX_CORRELATED_ANSWERS
      ensures r.Ok? ==>
                |r.value| == |keys| && forall i :: 0 <= i < |keys| ==> inner(FirstLikes(keys)[i]) == Ok(r.value[i])
      ensures r.Ok? ==> runs == |Distinctly(keys)|
    {
      hide Keeps, Distinctly;
      var out: seq<A> := [];
      assert keys[..0] == [];
      for n := 0 to |keys|
        invariant Holds(keys[..n])
        invariant |out| == n && forall i :: 0 <= i < n ==> inner(FirstLikes(keys)[i]) == Ok(out[i])
      {
        var one := Ask(keys, n, keys[n]);
        assert FirstLikes(keys)[n] == keys[FirstLike(keys, n)];
        if one.Err? {
          DistinctlyGrows(keys, n + 1);
          return Err(one.refusal);
        }
        out := out + [one.value];
      }
      assert keys[..|keys|] == keys;
      r := Ok(out);
    }
  }

  // ---- APPLY ---------------------------------------------------------------

  /** What the inner select answered: how many columns, and its rows. */
  datatype Answer = Answer(width: nat, rows: seq<Row>)

  function PutBeside(row: Row, found: seq<Row>): seq<Row> {
    if found == [] then [] else PutBeside(row, found[..|found| - 1]) + [row + found[|found| - 1]]
  }

  /** What one row of the table adds: itself beside each row answered for it,
      or beside NULLs where none was and the unmatched are kept. */
  function Added(row: Row, found: seq<Row>, keep: bool, width: nat): seq<Row> {
    if keep && found == [] then [row + Nulls(width)] else PutBeside(row, found)
  }

  function Found(inner: Asked -> Result<Answer>, key: Asked): seq<Row> {
    var answer := inner(key);
    if answer.Ok? then answer.value.rows else []
  }

  /** The applied table: the inner select run for each of the first n rows. */
  function AppliedRows(rows: seq<Row>, keys: seq<Asked>, inner: Asked -> Result<Answer>, keep: bool, width: nat, n: nat)
    : seq<Row>
    requires |keys| == |rows| && n <= |rows|
  {
    if n == 0 then []
    else AppliedRows(rows, keys, inner, keep, width, n - 1) + Added(rows[n - 1], Found(inner, keys[n - 1]), keep, width)
  }

  lemma {:induction false} AppliedGrows(rows: seq<Row>, keys: seq<Asked>, inner: Asked -> Result<Answer>, keep: bool,
                                        width: nat, i: nat, n: nat)
    requires |keys| == |rows| && i <= n <= |rows|
    ensures |AppliedRows(rows, keys, inner, keep, width, i)| <= |AppliedRows(rows, keys, inner, keep, width, n)|
  {
    hide Added, Found;
    if i < n {
      AppliedGrows(rows, keys, inner, keep, width, i, n - 1);
    }
  }

  /** How wide the applied select's answers are: as its answer for the first row
      is, or, over no rows, as its answer about NULLs is. */
  function ShapeOf(keys: seq<Asked>, inner: Asked -> Result<Answer>, arity: nat): Result<nat> {
    var shape := inner(if keys == [] then Nulls(arity) else keys[0]);
    if shape.Ok? then Ok(shape.value.width) else Err(shape.refusal)
  }

  ghost predicate EachAnswers(keys: seq<Asked>, inner: Asked -> Result<Answer>) {
    forall i :: 0 <= i < |keys| ==> inner(keys[i]).Ok?
  }

  // ---- each row in its place -----------------------------------------------

  /** How many rows the first n rows of the table answer. */
  function AnsweredBefore(keys: seq<Asked>, inner: Asked -> Result<Answer>, keep: bool, n: nat): nat
    requires n <= |keys|
  {
    if n == 0 then 0
    else
      var found := |Found(inner, keys[n - 1])|;
      AnsweredBefore(keys, inner, keep, n - 1) + (if found == 0 && keep then 1 else found)
  }

  /** Each row of the table in turn stands beside each row answered for its key, in
      their order, or where none is and the unmatched are kept beside NULLs; and
      nothing else stands there. */
  predicate AppliedInPlace(rows: seq<Row>, keys: seq<Asked>, inner: Asked -> Result<Answer>, keep: bool, width: nat,
                           answer: seq<Row>)
    requires |keys| == |rows|
  {
    && |answer| == AnsweredBefore(keys, inner, keep, |rows|)
    && (forall i: nat, k: nat | i < |rows| && k < |Found(inner, keys[i])| ::
          StandsAt(answer, AnsweredBefore(keys, inner, keep, i) + k, rows[i] + Found(inner, keys[i])[k]))
    && (forall i: nat | i < |rows| && keep && Found(inner, keys[i]) == [] ::
          StandsAt(answer, AnsweredBefore(keys, inner, keep, i), rows[i] + Nulls(width)))
  }

  function RowBlocks(rows: seq<Row>, keys: seq<Asked>, inner: Asked -> Result<Answer>, keep: bool, width: nat)
    : (blocks: seq<seq<Row>>)
    requires |keys| == |rows|
    ensures |blocks| == |rows|
    ensures forall i :: 0 <= i < |rows| ==> blocks[i] == Added(rows[i], Found(inner, keys[i]), keep, width)
  {
    seq(|rows|, i requires 0 <= i < |rows| => Added(rows[i], Found(inner, keys[i]), keep, width))
  }

  lemma {:induction false} AppliedInTurn(rows: seq<Row>, keys: seq<Asked>, inner: Asked -> Result<Answer>, keep: bool,
                                         width: nat, n: nat)
    requires |keys| == |rows| && n <= |rows|
    ensures AppliedRows(rows, keys, inner, keep, width, n) == Flat(RowBlocks(rows, keys, inner, keep, width)[..n])
    ensures Offset(RowBlocks(rows, keys, inner, keep, width), n) == AnsweredBefore(keys, inner, keep, n)
  {
    hide Found, Added, PutBeside;
    if n > 0 {
      var blocks := RowBlocks(rows, keys, inner, keep, width);
      AppliedInTurn(rows, keys, inner, keep, width, n - 1);
      AddedIsCounted(rows[n - 1], Found(inner, keys[n - 1]), keep, width);
      assert blocks[n - 1] == Added(rows[n - 1], Found(inner, keys[n - 1]), keep, width);
      FlatAdds(blocks, n - 1);
      hide RowBlocks, Flat;
    }
  }

  lemma AddedIsCounted(row: Row, found: seq<Row>, keep: bool, width: nat)
    ensures |Added(row, found, keep, width)| == if |found| == 0 && keep then 1 else |found|
  {
    BesideInPlace(row, found, 0);
  }

  lemma {:induction false} BesideInPlace(row: Row, found: seq<Row>, k: nat)
    ensures |PutBeside(row, found)| == |found|
    ensures k < |found| ==> PutBeside(row, found)[k] == row + found[k]
  {
    if found != [] {
      BesideInPlace(row, found[..|found| - 1], k);
    }
  }

  lemma RowInPlace(rows: seq<Row>, keys: seq<Asked>, inner: Asked -> Result<Answer>, keep: bool, width: nat, i: nat,
                   k: nat, row: Row)
    requires |keys| == |rows| && i < |rows| && StandsAt(Added(rows[i], Found(inner, keys[i]), keep, width), k, row)
    ensures StandsAt(AppliedRows(rows, keys, inner, keep, width, |rows|), AnsweredBefore(keys, inner, keep, i) + k, row)
  {
    hide *;
    var blocks := RowBlocks(rows, keys, inner, keep, width);
    AppliedInTurn(rows, keys, inner, keep, width, |rows|);
    AppliedInTurn(rows, keys, inner, keep, width, i);
    assert blocks[..|blocks|] == blocks;
    StandsInBlock(blocks, i, k, row);
  }

  lemma AddedStands(row: Row, found: seq<Row>, keep: bool, width: nat, k: nat)
    ensures k < |found| ==> StandsAt(Added(row, found, keep, width), k, row + found[k])
    ensures found == [] && keep ==> StandsAt(Added(row, found, keep, width), 0, row + Nulls(width))
  {
    BesideInPlace(row, found, k);
  }

  lemma StandsInBlock(blocks: seq<seq<Row>>, i: nat, k: nat, row: Row)
    requires i < |blocks| && StandsAt(blocks[i], k, row)
    ensures StandsAt(Flat(blocks), Offset(blocks, i) + k, row)
  {
    FlatAt(blocks, i, k);
  }

  lemma FoundInPlace(rows: seq<Row>, keys: seq<Asked>, inner: Asked -> Result<Answer>, keep: bool, width: nat, i: nat,
                     k: nat)
    requires |keys| == |rows| && i < |rows| && k < |Found(inner, keys[i])|
    ensures StandsAt(AppliedRows(rows, keys, inner, keep, width, |rows|), AnsweredBefore(keys, inner, keep, i) + k,
                     rows[i] + Found(inner, keys[i])[k])
  {
    hide *;
    AddedStands(rows[i], Found(inner, keys[i]), keep, width, k);
    RowInPlace(rows, keys, inner, keep, width, i, k, rows[i] + Found(inner, keys[i])[k]);
  }

  lemma PaddedInPlace(rows: seq<Row>, keys: seq<Asked>, inner: Asked -> Result<Answer>, keep: bool, width: nat, i: nat)
    requires |keys| == |rows| && i < |rows| && keep && Found(inner, keys[i]) == []
    ensures StandsAt(AppliedRows(rows, keys, inner, keep, width, |rows|), AnsweredBefore(keys, inner, keep, i),
                     rows[i] + Nulls(width))
  {
    hide *;
    AddedStands(rows[i], Found(inner, keys[i]), keep, width, 0);
    RowInPlace(rows, keys, inner, keep, width, i, 0, rows[i] + Nulls(width));
  }

  lemma RowsInPlace(rows: seq<Row>, keys: seq<Asked>, inner: Asked -> Result<Answer>, keep: bool, width: nat)
    requires |keys| == |rows|
    ensures |AppliedRows(rows, keys, inner, keep, width, |rows|)| == AnsweredBefore(keys, inner, keep, |rows|)
    ensures AppliedInPlace(rows, keys, inner, keep, width, AppliedRows(rows, keys, inner, keep, width, |rows|))
  {
    var answer := AppliedRows(rows, keys, inner, keep, width, |rows|);
    AppliedIsCounted(rows, keys, inner, keep, width);
    hide Found, PutBeside, AppliedRows, AnsweredBefore, Added, StandsAt, Nulls;
    forall i: nat, k: nat | i < |rows| && k < |Found(inner, keys[i])|
      ensures StandsAt(answer, AnsweredBefore(keys, inner, keep, i) + k, rows[i] + Found(inner, keys[i])[k])
    {
      FoundInPlace(rows, keys, inner, keep, width, i, k);
    }
    forall i: nat | i < |rows| && keep && Found(inner, keys[i]) == []
      ensures StandsAt(answer, AnsweredBefore(keys, inner, keep, i), rows[i] + Nulls(width))
    {
      PaddedInPlace(rows, keys, inner, keep, width, i);
    }
  }

  lemma AppliedIsCounted(rows: seq<Row>, keys: seq<Asked>, inner: Asked -> Result<Answer>, keep: bool, width: nat)
    requires |keys| == |rows|
    ensures |AppliedRows(rows, keys, inner, keep, width, |rows|)| == AnsweredBefore(keys, inner, keep, |rows|)
  {
    var blocks := RowBlocks(rows, keys, inner, keep, width);
    assert blocks[..|blocks|] == blocks;
    hide AppliedRows, AnsweredBefore, Flat, Offset;
    AppliedInTurn(rows, keys, inner, keep, width, |rows|);
    FlatLength(blocks);
  }

  /** What is answered for the first key like each row's stands in place for each
      row's own, where keys taken for one are answered alike. */
  lemma ApplyInPlace(rows: seq<Row>, keys: seq<Asked>, inner: Asked -> Result<Answer>, keep: bool, width: nat)
    requires |keys| == |rows|
    ensures var answer := AppliedRows(rows, FirstLikes(keys), inner, keep, width, |rows|);
            && |answer| == AnsweredBefore(FirstLikes(keys), inner, keep, |rows|)
            && AppliedInPlace(rows, FirstLikes(keys), inner, keep, width, answer)
            && (AnsweredAlike(keys, inner) ==> AppliedInPlace(rows, keys, inner, keep, width, answer))
  {
    hide FirstLikes, AppliedInPlace, AppliedRows, AnsweredAlike;
    RowsInPlace(rows, FirstLikes(keys), inner, keep, width);
    if AnsweredAlike(keys, inner) {
      AppliedAfresh(rows, keys, inner, keep, width);
      RowsInPlace(rows, keys, inner, keep, width);
    }
  }

  /** A select run for every row of a table, its answers beside the row: what
      running it for the first key like each row's gives, each row in its place, and
      what running it afresh does where keys taken for one are answered alike. It is
      refused where a run is, where the distinct keys pass their bound, or where the
      rows pass theirs. */
  method Apply(rows: seq<Row>, keys: seq<Asked>, arity: nat, inner: Asked -> Result<Answer>, keep: bool)
    returns (r: Result<seq<Row>>, runs: nat)
    requires |keys| == |rows|
    ensures r.Ok? <==> ShapeOf(keys, inner, arity).Ok? && EachAnswers(FirstLikes(keys), inner)
                       && |Distinctly(keys)| <= MAX_CORRELATED_ANSWERS
                       && AnsweredBefore(FirstLikes(keys), inner, keep, |rows|) <= MAX_JOIN_ROWS
    ensures r.Ok? ==> AppliedInPlace(rows, FirstLikes(keys), inner, keep, ShapeOf(keys, inner, arity).value, r.value)
    ensures r.Ok? && AnsweredAlike(keys, inner) ==>
              AppliedInPlace(rows, keys, inner, keep, ShapeOf(keys, inner, arity).value, r.value)
    ensures r.Ok? ==>
              r.value == AppliedRows(rows, FirstLikes(keys), inner, keep, ShapeOf(keys, inner, arity).value, |rows|)
    ensures r.Ok? && rows != [] ==> runs == |Distinctly(keys)|
  {
    hide Added, Found, AnsweredAlike, AppliedInPlace;
    ghost var width := ShapeOf(keys, inner, arity);
    ApplyInPlace(rows, keys, inner, keep, if width.Ok? then width.value else 0);
    if rows == [] {
      var shape := inner(Nulls(arity));
      assert Distinctly(keys) == {};
      assert |Distinctly(keys)| == 0;
      return if shape.Ok? then Ok([]) else Err(shape.refusal), 1;
    }
    var memory := new Memory<Answer>(inner);
    var found := memory.AskEach(keys);
    runs := memory.runs;
    if found.Err? {
      return Err(found.refusal), runs;
    }
    assert FirstLike(keys, 0) == 0;
    assert inner(keys[0]) == Ok(found.value[0]);
    r := Build(rows, FirstLikes(keys), inner, keep, found.value);
  }

  /** Which is running it afresh for each row, wherever keys a dictionary takes for
      one are answered alike. */
  lemma AppliedAfresh(rows: seq<Row>, keys: seq<Asked>, inner: Asked -> Result<Answer>, keep: bool, width: nat)
    requires |keys| == |rows| && AnsweredAlike(keys, inner)
    ensures EachAnswers(FirstLikes(keys), inner) <==> EachAnswers(keys, inner)
    ensures AppliedRows(rows, FirstLikes(keys), inner, keep, width, |rows|)
         == AppliedRows(rows, keys, inner, keep, width, |rows|)
  {
    RememberedIsAskedAfresh(keys, inner);
    hide FirstLikes, AnsweredAlike, AppliedRows;
    SameAnswersSameRows(rows, FirstLikes(keys), keys, inner, keep, width, |rows|);
  }

  lemma {:induction false} SameAnswersSameRows(rows: seq<Row>, a: seq<Asked>, b: seq<Asked>,
                                               inner: Asked -> Result<Answer>, keep: bool, width: nat, n: nat)
    requires |a| == |rows| == |b| && n <= |rows| && forall i :: 0 <= i < |a| ==> inner(a[i]) == inner(b[i])
    ensures AppliedRows(rows, a, inner, keep, width, n) == AppliedRows(rows, b, inner, keep, width, n)
  {
    hide Added;
    if n > 0 {
      SameAnswersSameRows(rows, a, b, inner, keep, width, n - 1);
    }
  }

  lemma FoundIs(inner: Asked -> Result<Answer>, key: Asked, answer: Answer)
    requires inner(key) == Ok(answer)
    ensures Found(inner, key) == answer.rows
  {
  }

  method Build(rows: seq<Row>, keys: seq<Asked>, inner: Asked -> Result<Answer>, keep: bool, found: seq<Answer>)
    returns (r: Result<seq<Row>>)
    requires rows != [] && |keys| == |rows| == |found|
    requires forall i :: 0 <= i < |keys| ==> inner(keys[i]) == Ok(found[i])
    ensures var built := AppliedRows(rows, keys, inner, keep, found[0].width, |rows|);
            r == if |built| <= MAX_JOIN_ROWS then Ok(built) else Err(TooLarge)
  {
    hide Added, Found;
    var width := found[0].width;
    var built: seq<Row> := [];
    for n := 0 to |rows|
      invariant built == AppliedRows(rows, keys, inner, keep, width, n) && |built| <= MAX_JOIN_ROWS
    {
      FoundIs(inner, keys[n], found[n]);
      built := built + Added(rows[n], found[n].rows, keep, width);
      if |built| > MAX_JOIN_ROWS {
        AppliedGrows(rows, keys, inner, keep, width, n + 1, |rows|);
        return Err(TooLarge);
      }
    }
    r := Ok(built);
  }

  /** How many of the first n rows the inner select answered nothing for. */
  function Unmatched(keys: seq<Asked>, inner: Asked -> Result<Answer>, n: nat): nat
    requires n <= |keys|
  {
    if n == 0 then 0 else Unmatched(keys, inner, n - 1) + (if Found(inner, keys[n - 1]) == [] then 1 else 0)
  }

  /** What OUTER APPLY has of a row is what CROSS APPLY has of it, in the same
      place, or the row beside NULLs where CROSS APPLY has nothing; so it has one
      row more for each row left unmatched. */
  lemma {:induction false} OuterIsCrossPadded(rows: seq<Row>, keys: seq<Asked>, inner: Asked -> Result<Answer>,
                                              width: nat,
                                              n: nat)
    requires |keys| == |rows| && n < |rows|
    ensures var cross := AppliedRows(rows, keys, inner, false, width, n);
            var outer := AppliedRows(rows, keys, inner, true, width, n);
            var crossMore := AppliedRows(rows, keys, inner, false, width, n + 1);
            var outerMore := AppliedRows(rows, keys, inner, true, width, n + 1);
            && cross <= crossMore
            && outerMore == outer + (if crossMore == cross then [rows[n] + Nulls(width)] else crossMore[|cross|..])
            && |outerMore| == |crossMore| + Unmatched(keys, inner, n + 1)
  {
    if n > 0 {
      OuterIsCrossPadded(rows, keys, inner, width, n - 1);
    }
    var found := Found(inner, keys[n]);
    BesideInPlace(rows[n], found, 0);
    assert Added(rows[n], found, false, width) == PutBeside(rows[n], found);
  }
}
