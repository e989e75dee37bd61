/** The join itself, over rows and a question asked of positions: the nested
    loop every join means, and the same answer found through buckets. */
module NestedLoop {
  import opened Outcomes
  import opened Values

  const MAX_JOIN_ROWS: nat := 1_000_000

  /** Two tables' rows, their widths, which side keeps the rows that matched
      nothing, and whether the ON is true of a left and a right position. */
  datatype Grid = Grid(
    left: seq<Row>, right: seq<Row>,
    leftWidth: nat, rightWidth: nat,
    keepsLeft: bool, keepsRight: bool,
    ask: (nat, nat) -> Result<bool>)

  function Nulls(n: nat): Row {
    seq(n, _ => Null)
  }

  function At(rows: seq<Row>, at: nat): Row {
    if at < |rows| then rows[at] else []
  }

  // ---- the rows a join answers ---------------------------------------------

  /** The positions, of those given, whose right row the ON is true of. */
  function Hits(g: Grid, i: nat, found: seq<nat>): seq<nat> {
    if found == [] then []
    else
      var n := |found| - 1;
      Hits(g, i, found[..n]) + (if g.ask(i, found[n]) == Ok(true) then [found[n]] else [])
  }

  function Positions(n: nat): seq<nat> {
    if n == 0 then [] else Positions(n - 1) + [n - 1]
  }

  lemma {:induction false} PositionsHold(n: nat)
    ensures forall at :: at in Positions(n) <==> 0 <= at < n
  {
    if n > 0 {
      PositionsHold(n - 1);
    }
  }

  function Beside(g: Grid, l: Row, hits: seq<nat>): seq<Row> {
    if hits == [] then [] else Beside(g, l, hits[..|hits| - 1]) + [l + At(g.right, hits[|hits| - 1])]
  }

  /** What one left row answers, given the right rows it matches: beside each
      of them in their order, or padded with NULLs where there is none and the
      row is kept. */
  function BlockOf(g: Grid, l: Row, hits: seq<nat>): seq<Row> {
    if hits == [] && g.keepsLeft then [l + Nulls(g.rightWidth)] else Beside(g, l, hits)
  }

  function AllHits(g: Grid, i: nat): seq<nat> {
    Hits(g, i, Positions(|g.right|))
  }

  function Blocks(g: Grid, n: nat): seq<Row> {
    if n == 0 then [] else Blocks(g, n - 1) + BlockOf(g, At(g.left, n - 1), AllHits(g, n - 1))
  }

  function Members(positions: seq<nat>): set<nat> {
    set at | at in positions
  }

  /** The right rows the first n left rows matched. */
  function PairedBy(g: Grid, n: nat): set<nat> {
    if n == 0 then {} else PairedBy(g, n - 1) + Members(AllHits(g, n - 1))
  }

  /** The right rows not among these, padded, in their order. */
  function Others(g: Grid, paired: set<nat>, n: nat): seq<Row> {
    if n == 0 then []
    else Others(g, paired, n - 1) + (if n - 1 in paired then [] else [Nulls(g.leftWidth) + At(g.right, n - 1)])
  }

  /** The joined table of SQL-92 section 7.5, as one sequence. */
  function JoinRows(g: Grid): seq<Row> {
    var n := |g.left|;
    Blocks(g, n) + (if g.keepsRight then Others(g, PairedBy(g, n), |g.right|) else [])
  }

  /** How many pairs there are to try. */
  function PairsToTry(g: Grid): nat {
    |g.left| * |g.right|
  }

  /** Asking refuses no pair. */
  predicate Clean(g: Grid) {
    forall i: nat, at: nat {:trigger g.ask(i, at)} :: i < |g.left| && at < |g.right| ==> g.ask(i, at).Ok?
  }

  lemma AllHitsAre(g: Grid, i: nat)
    ensures AllHits(g, i) == Hits(g, i, Positions(|g.right|))
  {
  }

  lemma HitsAppend(g: Grid, i: nat, found: seq<nat>, at: nat)
    ensures Hits(g, i, found + [at]) == if g.ask(i, at) == Ok(true) then Hits(g, i, found) + [at] else Hits(g, i, found)
  {
    assert (found + [at])[..|found|] == found;
  }

  lemma BlocksAdd(g: Grid, i: nat)
    requires i < |g.left|
    ensures Blocks(g, i + 1) == Blocks(g, i) + BlockOf(g, g.left[i], AllHits(g, i))
    ensures PairedBy(g, i + 1) == PairedBy(g, i) + Members(AllHits(g, i))
  {
  }

  lemma {:induction false} BlocksGrow(g: Grid, i: nat, n: nat)
    requires i <= n
    ensures |Blocks(g, i)| <= |Blocks(g, n)|
  {
    if i < n {
      BlocksGrow(g, i, n - 1);
    }
  }

  // ---- the buckets ---------------------------------------------------------

  /** How each side's rows are keyed. */
  datatype Keys = Keys(left: Row -> seq<Key>, right: Row -> seq<Key>)

  /** A pair the ON is true of shares a key, and no part of it is NULL. */
  ghost predicate SafeFilter(g: Grid, k: Keys) {
    forall i: nat, at: nat {:trigger g.ask(i, at)} :: i < |g.left| && at < |g.right| && g.ask(i, at) == Ok(true)
      ==> k.left(g.left[i]) == k.right(g.right[at]) && Nothing !in k.left(g.left[i])
  }

  /** The right rows before n whose key this is. */
  function Bucket(g: Grid, k: Keys, key: seq<Key>, n: nat): seq<nat> {
    if n == 0 then []
    else Bucket(g, k, key, n - 1) + (if k.right(At(g.right, n - 1)) == key then [n - 1] else [])
  }

  lemma {:induction false} BucketsHoldPositions(g: Grid, k: Keys, key: seq<Key>, n: nat)
    ensures forall at :: at in Bucket(g, k, key, n) ==> at < n
  {
    if n > 0 {
      BucketsHoldPositions(g, k, key, n - 1);
    }
  }

  lemma BucketAdds(g: Grid, k: Keys, key: seq<Key>, n: nat)
    requires n < |g.right|
    ensures Bucket(g, k, key, n + 1)
         == if k.right(g.right[n]) == key then Bucket(g, k, key, n) + [n] else Bucket(g, k, key, n)
  {
  }

  lemma OutsideTheBucketMisses(g: Grid, k: Keys, i: nat, at: nat)
    requires SafeFilter(g, k) && i < |g.left| && at < |g.right| && k.right(g.right[at]) != k.left(g.left[i])
    ensures g.ask(i, at) != Ok(true)
  {
  }

  lemma BucketStep(g: Grid, k: Keys, i: nat, key: seq<Key>, n: nat)
    requires n < |g.right| && Hits(g, i, Bucket(g, k, key, n)) == Hits(g, i, Positions(n))
    requires g.ask(i, n) == Ok(true) ==> k.right(g.right[n]) == key
    ensures Hits(g, i, Bucket(g, k, key, n + 1)) == Hits(g, i, Positions(n + 1))
  {
    assert Positions(n + 1) == Positions(n) + [n];
    hide Bucket, Hits, Positions;
    BucketAdds(g, k, key, n);
    HitsAppend(g, i, Positions(n), n);
    HitsAppend(g, i, Bucket(g, k, key, n), n);
  }

  /** Trying only the row's bucket finds every match, in the same order. */
  lemma {:induction false} BucketHitsAreAllHits(g: Grid, k: Keys, i: nat, n: nat)
    requires SafeFilter(g, k) && i < |g.left| && n <= |g.right|
    ensures Hits(g, i, Bucket(g, k, k.left(g.left[i]), n)) == Hits(g, i, Positions(n))
  {
    assert Bucket(g, k, k.left(g.left[i]), 0) == Positions(0);
    hide Bucket, Hits, Positions, SafeFilter;
    if n > 0 {
      BucketHitsAreAllHits(g, k, i, n - 1);
      if k.right(g.right[n - 1]) != k.left(g.left[i]) {
        OutsideTheBucketMisses(g, k, i, n - 1);
      }
      BucketStep(g, k, i, k.left(g.left[i]), n - 1);
    }
  }

  /** The question a bucketed join asks: of a pair kept apart by its keys, or
      keyed with a NULL, it asks nothing. */
  function Filtered(g: Grid, k: Keys): Grid {
    g.(ask := (i: nat, at: nat) => AskWithin(g, k, i, at))
  }

  function AskWithin(g: Grid, k: Keys, i: nat, at: nat): Result<bool> {
    var key := k.left(At(g.left, i));
    if key == k.right(At(g.right, at)) && Nothing !in key then g.ask(i, at) else Ok(false)
  }

  lemma AskedWithin(g: Grid, k: Keys, i: nat, at: nat)
    requires i < |g.left| && at < |g.right|
    ensures var key := k.left(g.left[i]);
            Filtered(g, k).ask(i, at)
            == if k.right(g.right[at]) == key && Nothing !in key then g.ask(i, at) else Ok(false)
  {
    assert Filtered(g, k).ask(i, at) == AskWithin(g, k, i, at);
  }

  /** Trying a row's bucket is trying every row, asking only within buckets. */
  lemma {:induction false} BucketIsFiltered(g: Grid, k: Keys, i: nat, n: nat)
    requires i < |g.left| && n <= |g.right| && Nothing !in k.left(g.left[i])
    ensures Hits(Filtered(g, k), i, Positions(n)) == Hits(g, i, Bucket(g, k, k.left(g.left[i]), n))
  {
    assert Bucket(g, k, k.left(g.left[i]), 0) == Positions(0);
    NothingIsHit(g, Filtered(g, k), i);
    hide Bucket, Hits, Positions, Filtered;
    if n > 0 {
      BucketIsFiltered(g, k, i, n - 1);
      FilteredStep(g, k, i, n - 1);
    }
  }

  lemma NothingIsHit(g: Grid, h: Grid, i: nat)
    ensures Hits(g, i, Positions(0)) == Hits(h, i, Positions(0))
  {
  }

  lemma FilteredStep(g: Grid, k: Keys, i: nat, n: nat)
    requires i < |g.left| && n < |g.right| && Nothing !in k.left(g.left[i])
    requires Hits(Filtered(g, k), i, Positions(n)) == Hits(g, i, Bucket(g, k, k.left(g.left[i]), n))
    ensures Hits(Filtered(g, k), i, Positions(n + 1)) == Hits(g, i, Bucket(g, k, k.left(g.left[i]), n + 1))
  {
    var key := k.left(g.left[i]);
    assert Positions(n + 1) == Positions(n) + [n];
    hide Bucket, Hits, Positions, Filtered;
    BucketAdds(g, k, key, n);
    AskedWithin(g, k, i, n);
    HitsAppend(Filtered(g, k), i, Positions(n), n);
    HitsAppend(g, i, Bucket(g, k, key, n), n);
  }

  lemma {:induction false} NullKeyIsAskedNothing(g: Grid, k: Keys, i: nat, n: nat)
    requires i < |g.left| && n <= |g.right| && Nothing in k.left(g.left[i])
    ensures Hits(Filtered(g, k), i, Positions(n)) == []
  {
    if n > 0 {
      NullKeyIsAskedNothing(g, k, i, n - 1);
      AskedWithin(g, k, i, n - 1);
      HitsAppend(Filtered(g, k), i, Positions(n - 1), n - 1);
    }
  }

  lemma FilteredHits(g: Grid, k: Keys, i: nat)
    requires SafeFilter(g, k) && i < |g.left|
    ensures AllHits(Filtered(g, k), i) == AllHits(g, i)
  {
    if Nothing in k.left(g.left[i]) {
      NullKeyIsAskedNothing(g, k, i, |g.right|);
      NullKeyHitsNothing(g, k, i, |g.right|);
    } else {
      BucketIsFiltered(g, k, i, |g.right|);
      BucketHitsAreAllHits(g, k, i, |g.right|);
    }
    hide Bucket, Hits, SafeFilter;
  }

  lemma {:induction false} SameHitsSameRows(g: Grid, h: Grid, n: nat)
    requires h == g.(ask := h.ask) && n <= |g.left|
    requires forall i :: 0 <= i < n ==> AllHits(h, i) == AllHits(g, i)
    ensures Blocks(h, n) == Blocks(g, n) && PairedBy(h, n) == PairedBy(g, n)
  {
    hide AllHits;
    if n > 0 {
      SameHitsSameRows(g, h, n - 1);
      SameBeside(g, h, At(g.left, n - 1), AllHits(g, n - 1));
    }
  }

  lemma {:induction false} SameBeside(g: Grid, h: Grid, l: Row, hits: seq<nat>)
    requires h == g.(ask := h.ask)
    ensures Beside(h, l, hits) == Beside(g, l, hits)
  {
    if hits != [] {
      SameBeside(g, h, l, hits[..|hits| - 1]);
    }
  }

  lemma {:induction false} SameOthers(g: Grid, h: Grid, paired: set<nat>, n: nat)
    requires h == g.(ask := h.ask)
    ensures Others(h, paired, n) == Others(g, paired, n)
  {
    if n > 0 {
      SameOthers(g, h, paired, n - 1);
    }
  }

  /** Where the filter is safe, asking within buckets joins the same rows. */
  lemma FilteredJoinIsTheJoin(g: Grid, k: Keys)
    requires SafeFilter(g, k)
    ensures JoinRows(Filtered(g, k)) == JoinRows(g)
  {
    var h := Filtered(g, k);
    forall i | 0 <= i < |g.left| ensures AllHits(h, i) == AllHits(g, i) {
      FilteredHits(g, k, i);
    }
    assert h == g.(ask := h.ask);
    hide AllHits, Filtered, SafeFilter, Blocks, PairedBy, Others;
    SameHitsSameRows(g, h, |g.left|);
    SameOthers(g, h, PairedBy(g, |g.left|), |g.right|);
  }

  lemma CleanStaysClean(g: Grid, k: Keys)
    requires Clean(g)
    ensures Clean(Filtered(g, k))
  {
  }

  /** A row whose key holds a NULL matches nothing. */
  lemma {:induction false} NullKeyHitsNothing(g: Grid, k: Keys, i: nat, n: nat)
    requires SafeFilter(g, k) && i < |g.left| && n <= |g.right| && Nothing in k.left(g.left[i])
    ensures Hits(g, i, Positions(n)) == []
  {
    if n > 0 {
      NullKeyHitsNothing(g, k, i, n - 1);
      HitsAppend(g, i, Positions(n - 1), n - 1);
    }
  }

  function Under(buckets: map<seq<Key>, seq<nat>>, key: seq<Key>): seq<nat> {
    if key in buckets then buckets[key] else []
  }

  method FillBuckets(g: Grid, k: Keys) returns (buckets: map<seq<Key>, seq<nat>>)
    ensures forall key :: Nothing !in key ==> Under(buckets, key) == Bucket(g, k, key, |g.right|)
  {
    hide At;
    buckets := map[];
    assert forall key :: Under(buckets, key) == Bucket(g, k, key, 0);
    hide Bucket;
    for at := 0 to |g.right|
      invariant forall key :: Nothing !in key ==> Under(buckets, key) == Bucket(g, k, key, at)
    {
      var mine := k.right(g.right[at]);
      if Nothing in mine {
        forall key | Nothing !in key ensures Under(buckets, key) == Bucket(g, k, key, at + 1) {
          BucketAdds(g, k, key, at);
        }
        continue;
      }
      var before := buckets;
      buckets := buckets[mine := Under(buckets, mine) + [at]];
      forall key | Nothing !in key ensures Under(buckets, key) == Bucket(g, k, key, at + 1) {
        assert Under(before, key) == Bucket(g, k, key, at);
        BucketAdds(g, k, key, at);
      }
    }
  }

  // ---- the loops -----------------------------------------------------------

  predicate Refuses(g: Grid, i: nat, found: seq<nat>) {
    exists at :: at in found && g.ask(i, at).Err?
  }

  /** One left row tried against the right rows found for it, in turn: which of
      them it matched, or the refusal of the first pair the ON refuses. */
  method TryEach(g: Grid, i: nat, found: seq<nat>) returns (r: Result<seq<nat>>)
    ensures r == if Refuses(g, i, found) then Err(Unreadable) else Ok(Hits(g, i, found))
  {
    var hits: seq<nat> := [];
    for n := 0 to |found|
      invariant forall at :: at in found[..n] ==> g.ask(i, at).Ok?
      invariant hits == Hits(g, i, found[..n])
    {
      var at := found[n];
      assert found[..n + 1] == found[..n] + [at];
      HitsAppend(g, i, found[..n], at);
      var holds := g.ask(i, at);
      if holds.Err? {
        assert at in found;
        return Err(Unreadable);
      }
      if holds.value {
        hits := hits + [at];
      }
    }
    assert found[..|found|] == found;
    r := Ok(hits);
  }

  /** The right rows nothing matched, padded, kept after the rest. */
  method Unmatched(g: Grid, paired: set<nat>) returns (rows: seq<Row>)
    ensures rows == Others(g, paired, |g.right|)
  {
    rows := [];
    for at := 0 to |g.right|
      invariant rows == Others(g, paired, at)
    {
      if at !in paired {
        rows := rows + [Nulls(g.leftWidth) + g.right[at]];
      }
    }
  }

  lemma RefusedPairIsUnclean(g: Grid, i: nat, found: seq<nat>)
    requires i < |g.left| && Refuses(g, i, found) && forall at :: at in found ==> at < |g.right|
    ensures !Clean(g)
  {
    var at :| at in found && g.ask(i, at).Err?;
  }

  lemma NoneRefused(g: Grid, i: nat)
    requires !Refuses(g, i, Positions(|g.right|))
    ensures forall at: nat {:trigger g.ask(i, at)} :: at < |g.right| ==> g.ask(i, at).Ok?
  {
    PositionsHold(|g.right|);
  }

  /** What joining the first n left rows has made: the rows so far, and the
      right rows they matched. */
  datatype Progress = Progress(rows: seq<Row>, paired: set<nat>)

  function After(g: Grid, n: nat): Progress {
    Progress(Blocks(g, n), PairedBy(g, n))
  }

  function Advanced(g: Grid, i: nat, so: Progress, hits: seq<nat>): Progress {
    Progress(so.rows + BlockOf(g, At(g.left, i), hits), so.paired + Members(hits))
  }

  lemma AfterOneMore(g: Grid, i: nat)
    requires i < |g.left|
    ensures After(g, i + 1) == Advanced(g, i, After(g, i), AllHits(g, i))
  {
    BlocksAdd(g, i);
  }

  /** One left row tried against its bucket. */
  method HashOne(g: Grid, k: Keys, buckets: map<seq<Key>, seq<nat>>, i: nat, so: Progress) returns (r: Result<Progress>)
    requires i < |g.left|
    requires forall key :: Nothing !in key ==> Under(buckets, key) == Bucket(g, k, key, |g.right|)
    ensures r.Ok? ==> r.value == Advanced(g, i, so, AllHits(Filtered(g, k), i))
    ensures r.Err? ==> r == Err(Unreadable) && !Clean(Filtered(g, k))
  {
    hide Advanced, Bucket, Clean, Refuses, AllHits, Filtered;
    var key := k.left(g.left[i]);
    var found := if Nothing in key then [] else Under(buckets, key);
    var hits := TryEach(g, i, found);
    if hits.Err? {
      RefusedInABucket(g, k, i, found);
      return Err(Unreadable);
    }
    if Nothing in key {
      NullKeyIsAskedNothing(g, k, i, |g.right|);
    } else {
      BucketIsFiltered(g, k, i, |g.right|);
    }
    AllHitsAre(Filtered(g, k), i);
    SameWidth(g, k);
    r := Ok(Progress(so.rows + BlockOf(g, g.left[i], hits.value), so.paired + Members(hits.value)));
    assert r.value == Advanced(g, i, so, hits.value) by { AdvancedIs(g, i, so, hits.value); }
  }

  lemma SameWidth(g: Grid, k: Keys)
    ensures |Filtered(g, k).right| == |g.right|
  {
  }

  lemma RefusedInABucket(g: Grid, k: Keys, i: nat, found: seq<nat>)
    requires i < |g.left| && Refuses(g, i, found)
    requires found == [] || (Nothing !in k.left(g.left[i]) && found == Bucket(g, k, k.left(g.left[i]), |g.right|))
    ensures !Clean(Filtered(g, k))
  {
    BucketsHoldPositions(g, k, k.left(g.left[i]), |g.right|);
    BucketIsOfTheKey(g, k, k.left(g.left[i]), |g.right|);
    var at :| at in found && g.ask(i, at).Err?;
    assert Filtered(g, k).ask(i, at).Err?;
  }

  lemma {:induction false} BucketIsOfTheKey(g: Grid, k: Keys, key: seq<Key>, n: nat)
    ensures forall at :: at in Bucket(g, k, key, n) ==> k.right(At(g.right, at)) == key
  {
    if n > 0 {
      BucketIsOfTheKey(g, k, key, n - 1);
    }
  }

  lemma AdvancedIs(g: Grid, i: nat, so: Progress, hits: seq<nat>)
    requires i < |g.left|
    ensures Advanced(g, i, so, hits) == Progress(so.rows + BlockOf(g, g.left[i], hits), so.paired + Members(hits))
  {
  }

  lemma AfterOneMoreWithin(g: Grid, k: Keys, i: nat)
    requires i < |g.left|
    ensures var h := Filtered(g, k); After(h, i + 1) == Advanced(g, i, After(h, i), AllHits(h, i))
  {
    var h := Filtered(g, k);
    AfterOneMore(h, i);
    SameBeside(g, h, At(g.left, i), AllHits(h, i));
  }

  /** A join from what its left rows made. */
  lemma JoinFromProgress(g: Grid, i: nat)
    requires i <= |g.left|
    ensures After(g, 0) == Progress([], {})
    ensures |After(g, i).rows| <= |JoinRows(g)|
    ensures var all := After(g, |g.left|);
            JoinRows(g) == all.rows + (if g.keepsRight then Others(g, all.paired, |g.right|) else [])
  {
    BlocksGrow(g, i, |g.left|);
  }

  lemma OthersWithin(g: Grid, k: Keys, paired: set<nat>)
    ensures var h := Filtered(g, k);
            && Others(h, paired, |h.right|) == Others(g, paired, |g.right|)
            && |h.left| == |g.left| && h.keepsRight == g.keepsRight
  {
    SameOthers(g, Filtered(g, k), paired, |g.right|);
  }

  /** The hash join. Whatever it answers is the whole join that asks only within
      buckets, in order; it stops for its size exactly when that join is past the
      ceiling; and it refuses only what asking within buckets refuses. */
  method ByBuckets(g: Grid, k: Keys) returns (r: Result<seq<Row>>)
    ensures r.Ok? ==> r.value == JoinRows(Filtered(g, k)) && |JoinRows(Filtered(g, k))| <= MAX_JOIN_ROWS
    ensures r == Err(TooLarge) ==> |JoinRows(Filtered(g, k))| > MAX_JOIN_ROWS
    ensures r.Err? && r != Err(TooLarge) ==> r == Err(Unreadable) && !Clean(Filtered(g, k))
  {
    hide Advanced, Bucket, Clean, AllHits, Others, Filtered, After, JoinRows;
    ghost var h := Filtered(g, k);
    OthersWithin(g, k, {});
    var buckets := FillBuckets(g, k);
    var so := Progress([], {});
    JoinFromProgress(h, 0);
    for i := 0 to |g.left|
      invariant so == After(h, i) && |so.rows| <= MAX_JOIN_ROWS
    {
      var next := HashOne(g, k, buckets, i, so);
      if next.Err? {
        return Err(Unreadable);
      }
      AfterOneMoreWithin(g, k, i);
      so := next.value;
      if |so.rows| > MAX_JOIN_ROWS {
        JoinFromProgress(h, i + 1);
        return Err(TooLarge);
      }
    }
    var rows := so.rows;
    if g.keepsRight {
      var others := Unmatched(g, so.paired);
      OthersWithin(g, k, so.paired);
      rows := rows + others;
      if |rows| > MAX_JOIN_ROWS {
        return Err(TooLarge);
      }
    }
    r := Ok(rows);
  }

  predicate CleanUpTo(g: Grid, n: nat) {
    forall i: nat, at: nat {:trigger g.ask(i, at)} :: i < n && at < |g.right| ==> g.ask(i, at).Ok?
  }

  /** One left row tried against every right row. */
  method TryOne(g: Grid, i: nat, so: Progress) returns (r: Result<Progress>)
    requires i < |g.left| && CleanUpTo(g, i)
    ensures r.Ok? ==> r.value == Advanced(g, i, so, AllHits(g, i)) && CleanUpTo(g, i + 1)
    ensures r.Err? ==> r == Err(Unreadable) && !Clean(g)
  {
    hide Advanced, Clean, Refuses, AllHits;
    var hits := TryEach(g, i, Positions(|g.right|));
    if hits.Err? {
      PositionsHold(|g.right|);
      RefusedPairIsUnclean(g, i, Positions(|g.right|));
      return Err(Unreadable);
    }
    NoneRefused(g, i);
    AllHitsAre(g, i);
    r := Ok(Progress(so.rows + BlockOf(g, g.left[i], hits.value), so.paired + Members(hits.value)));
    assert r.value == Advanced(g, i, so, hits.value) by { AdvancedIs(g, i, so, hits.value); }
  }

  /** No equality to hash on, so every pair is tried. */
  method ByPairs(g: Grid) returns (r: Result<seq<Row>>)
    ensures r == if PairsToTry(g) > MAX_JOIN_ROWS then Err(TooLarge)
                 else if Clean(g) then Ok(JoinRows(g))
                 else Err(Unreadable)
  {
    hide Advanced, AllHits, Others, PairsToTry;
    if PairsToTry(g) > MAX_JOIN_ROWS {
      return Err(TooLarge);
    }
    var n := |g.left|;
    var so := Progress([], {});
    for i := 0 to n
      invariant so == After(g, i) && CleanUpTo(g, i)
    {
      var next := TryOne(g, i, so);
      if next.Err? {
        return Err(Unreadable);
      }
      AfterOneMore(g, i);
      so := next.value;
    }
    assert Clean(g);
    var rows := so.rows;
    if g.keepsRight {
      var others := Unmatched(g, so.paired);
      rows := rows + others;
    }
    assert rows == JoinRows(g);
    r := Ok(rows);
  }

  function Across(l: Row, right: seq<Row>): seq<Row> {
    if right == [] then [] else Across(l, right[..|right| - 1]) + [l + right[|right| - 1]]
  }

  function Crossed(left: seq<Row>, right: seq<Row>): seq<Row> {
    if left == [] then [] else Crossed(left[..|left| - 1], right) + Across(left[|left| - 1], right)
  }

  // ---- what the joined table holds -----------------------------------------

  predicate Match(g: Grid, i: nat, at: nat) {
    i < |g.left| && at < |g.right| && g.ask(i, at) == Ok(true)
  }

  ghost predicate AloneOnTheLeft(g: Grid, i: nat) {
    i < |g.left| && forall at: nat :: !Match(g, i, at)
  }

  ghost predicate AloneOnTheRight(g: Grid, at: nat) {
    at < |g.right| && forall i: nat :: !Match(g, i, at)
  }

  ghost predicate IsMatched(g: Grid, row: Row) {
    exists i: nat, at: nat :: Match(g, i, at) && row == g.left[i] + g.right[at]
  }

  ghost predicate IsLeftPadded(g: Grid, row: Row) {
    g.keepsLeft && exists i: nat :: AloneOnTheLeft(g, i) && row == g.left[i] + Nulls(g.rightWidth)
  }

  ghost predicate IsRightPadded(g: Grid, row: Row) {
    g.keepsRight && exists at: nat :: AloneOnTheRight(g, at) && row == Nulls(g.leftWidth) + g.right[at]
  }

  lemma {:induction false} HitsAreTheMatches(g: Grid, i: nat, n: nat, at: nat)
    ensures at in Hits(g, i, Positions(n)) <==> at < n && g.ask(i, at) == Ok(true)
  {
    if n > 0 {
      HitsAreTheMatches(g, i, n - 1, at);
      HitsAppend(g, i, Positions(n - 1), n - 1);
    }
  }

  lemma {:induction false} BesideHolds(g: Grid, l: Row, hits: seq<nat>, row: Row)
    ensures row in Beside(g, l, hits) <==> exists at :: at in hits && row == l + At(g.right, at)
  {
    if hits != [] {
      var n := |hits| - 1;
      BesideHolds(g, l, hits[..n], row);
      assert hits == hits[..n] + [hits[n]];
    }
  }

  lemma AllHitsAreMatches(g: Grid, i: nat)
    requires i < |g.left|
    ensures forall at: nat :: at in AllHits(g, i) <==> Match(g, i, at)
    ensures AllHits(g, i) == [] <==> AloneOnTheLeft(g, i)
  {
    forall at: nat ensures at in AllHits(g, i) <==> Match(g, i, at) {
      HitsAreTheMatches(g, i, |g.right|, at);
    }
    if AllHits(g, i) != [] {
      assert AllHits(g, i)[0] in AllHits(g, i);
    }
  }

  ghost predicate FromTheLeft(g: Grid, i: nat, row: Row) {
    && i < |g.left|
    && ((exists at: nat :: Match(g, i, at) && row == g.left[i] + g.right[at])
        || (g.keepsLeft && AloneOnTheLeft(g, i) && row == g.left[i] + Nulls(g.rightWidth)))
  }

  lemma BlockHolds(g: Grid, i: nat, row: Row)
    requires i < |g.left|
    ensures row in BlockOf(g, At(g.left, i), AllHits(g, i)) <==> FromTheLeft(g, i, row)
  {
    AllHitsAreMatches(g, i);
    BesideHolds(g, At(g.left, i), AllHits(g, i), row);
    if exists at: nat :: Match(g, i, at) && row == g.left[i] + g.right[at] {
      var at: nat :| Match(g, i, at) && row == g.left[i] + g.right[at];
      assert at in AllHits(g, i) && row == At(g.left, i) + At(g.right, at);
    }
  }

  lemma {:induction false} BlocksHold(g: Grid, n: nat, row: Row)
    requires n <= |g.left|
    ensures row in Blocks(g, n) <==> exists i: nat :: i < n && FromTheLeft(g, i, row)
  {
    hide FromTheLeft, BlockOf, AllHits, At;
    if n > 0 {
      BlocksHold(g, n - 1, row);
      BlockHolds(g, n - 1, row);
    }
  }

  lemma {:induction false} PairedByMatches(g: Grid, n: nat)
    requires n <= |g.left|
    ensures forall at: nat :: at in PairedBy(g, n) <==> exists i: nat :: i < n && Match(g, i, at)
  {
    if n > 0 {
      PairedByMatches(g, n - 1);
      AllHitsAreMatches(g, n - 1);
    }
  }

  lemma {:induction false} OthersHold(g: Grid, paired: set<nat>, n: nat, row: Row)
    requires n <= |g.right|
    ensures row in Others(g, paired, n)
       <==> exists at: nat :: at < n && at !in paired && row == Nulls(g.leftWidth) + At(g.right, at)
  {
    if n > 0 {
      OthersHold(g, paired, n - 1, row);
    }
  }

  /** The joined table holds the matched pairs, the left rows that matched
      nothing where the left is kept, the right rows that matched nothing where
      the right is kept, and no other row. */
  lemma JoinHolds(g: Grid, row: Row)
    ensures row in JoinRows(g) <==> IsMatched(g, row) || IsLeftPadded(g, row) || IsRightPadded(g, row)
  {
    BlocksHold(g, |g.left|, row);
    if g.keepsRight {
      RightHolds(g, row);
    }
    if IsMatched(g, row) {
      var i: nat, at: nat :| Match(g, i, at) && row == g.left[i] + g.right[at];
      assert FromTheLeft(g, i, row);
    }
    if IsLeftPadded(g, row) {
      var i: nat :| AloneOnTheLeft(g, i) && row == g.left[i] + Nulls(g.rightWidth);
      assert FromTheLeft(g, i, row);
    }
  }

  lemma RightHolds(g: Grid, row: Row)
    requires g.keepsRight
    ensures row in Others(g, PairedBy(g, |g.left|), |g.right|) <==> IsRightPadded(g, row)
  {
    var n := |g.left|;
    var paired := PairedBy(g, n);
    PairedByMatches(g, n);
    OthersHold(g, paired, |g.right|, row);
    forall at: nat | at < |g.right| ensures at !in paired <==> AloneOnTheRight(g, at) {
      assert forall i: nat :: Match(g, i, at) ==> i < n;
    }
  }
}

