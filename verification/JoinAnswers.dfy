/** What a join answers, said of its tables and its ON alone: which rows, and each
    in its place. */
module JoinAnswers {
  import opened Outcomes
  import opened Values
  import opened Expressions
  import opened NestedLoop
  import opened Join
  import opened InTurn

  // ---- said without the loops ----------------------------------------------

  /** The two rows hold one key in the columns hashed, and no NULL. */
  predicate ShareAKey(j: Joining, l: Row, r: Row) {
    LeftKey(l, Offered(j)) == RightKey(r, Offered(j)) && Nothing !in LeftKey(l, Offered(j))
  }

  /** The ON is true of the pair, and where the join is hashed the pair is met. */
  predicate Finds(j: Joining, hashed: bool, l: Row, r: Row) {
    Ask(j, l, r) == Ok(true) && (hashed ==> ShareAKey(j, l, r))
  }

  ghost predicate IsAPair(j: Joining, hashed: bool, row: Row) {
    exists l, r :: l in j.left.rows && r in j.right.rows && Finds(j, hashed, l, r) && row == l + r
  }

  ghost predicate LeftAlone(j: Joining, hashed: bool, l: Row) {
    l in j.left.rows && forall r :: r in j.right.rows ==> !Finds(j, hashed, l, r)
  }

  ghost predicate RightAlone(j: Joining, hashed: bool, r: Row) {
    r in j.right.rows && forall l :: l in j.left.rows ==> !Finds(j, hashed, l, r)
  }

  /** A row of the join: a pair found; or, of LEFT and FULL, a left row none is found
      for beside NULLs; or, of RIGHT and FULL, NULLs beside a right row none is
      found for. */
  ghost predicate IsJoined(j: Joining, hashed: bool, row: Row) {
    || IsAPair(j, hashed, row)
    || (j.kind in {LEFT, FULL} && exists l :: LeftAlone(j, hashed, l) && row == l + Nulls(|j.right.columns|))
    || (j.kind in {RIGHT, FULL} && exists r :: RightAlone(j, hashed, r) && row == Nulls(|j.left.columns|) + r)
  }

  // ---- and in which place --------------------------------------------------

  /** How many of the first n right rows are found for a left row. */
  function FoundFor(j: Joining, hashed: bool, i: nat, n: nat): nat {
    if n == 0 then 0
    else
      FoundFor(j, hashed, i, n - 1)
      + (if Finds(j, hashed, At(j.left.rows, i), At(j.right.rows, n - 1)) then 1 else 0)
  }

  /** How many rows the first n left rows answer. */
  function Before(j: Joining, hashed: bool, n: nat): nat {
    if n == 0 then 0
    else
      var found := FoundFor(j, hashed, n - 1, |j.right.rows|);
      Before(j, hashed, n - 1) + (if found == 0 && j.kind in {LEFT, FULL} then 1 else found)
  }

  /** How many of the first n right rows none is found for. */
  ghost function Lonely(j: Joining, hashed: bool, n: nat): nat {
    if n == 0 then 0 else Lonely(j, hashed, n - 1) + (if RightAlone(j, hashed, At(j.right.rows, n - 1)) then 1 else 0)
  }

  /** Each pair found stands behind what the left rows before answer, in the order of
      the right rows; each left row kept alone there too; and behind all of them
      the right rows kept alone, in their order; and nothing else stands there. */
  ghost predicate InPlace(j: Joining, hashed: bool, rows: seq<Row>) {
    && (forall i, at | 0 <= i < |j.left.rows| && 0 <= at < |j.right.rows| ::
          Finds(j, hashed, j.left.rows[i], j.right.rows[at]) ==>
            StandsAt(rows, Before(j, hashed, i) + FoundFor(j, hashed, i, at), j.left.rows[i] + j.right.rows[at]))
    && (forall i | 0 <= i < |j.left.rows| ::
          j.kind in {LEFT, FULL} && FoundFor(j, hashed, i, |j.right.rows|) == 0 ==>
            StandsAt(rows, Before(j, hashed, i), j.left.rows[i] + Nulls(|j.right.columns|)))
    && (forall at | 0 <= at < |j.right.rows| ::
          j.kind in {RIGHT, FULL} && RightAlone(j, hashed, j.right.rows[at]) ==>
            StandsAt(rows, Before(j, hashed, |j.left.rows|) + Lonely(j, hashed, at),
                     Nulls(|j.left.columns|) + j.right.rows[at]))
    && |rows| == Before(j, hashed, |j.left.rows|)
                 + (if j.kind in {RIGHT, FULL} then Lonely(j, hashed, |j.right.rows|) else 0)
  }

  // ---- the grid of it ------------------------------------------------------

  function GridFor(j: Joining, hashed: bool): Grid {
    if hashed then HashedGrid(j) else GridOf(j)
  }

  lemma GridMatches(j: Joining, hashed: bool, i: nat, at: nat)
    ensures var g := GridFor(j, hashed);
            && g.left == j.left.rows && g.right == j.right.rows
            && g.leftWidth == |j.left.columns| && g.rightWidth == |j.right.columns|
            && g.keepsLeft == (j.kind in {LEFT, FULL}) && g.keepsRight == (j.kind in {RIGHT, FULL})
            && (Match(g, i, at) <==> i < |g.left| && at < |g.right| && Finds(j, hashed, g.left[i], g.right[at]))
  {
    hide Ask, LeftKey, RightKey, Offered;
    if i < |j.left.rows| && at < |j.right.rows| {
      GridAsks(j, i, at);
      AskedWithin(GridOf(j), KeysOf(Offered(j)), i, at);
    }
  }

  /** The grid matches what is found. */
  ghost predicate Shows(g: Grid, j: Joining, hashed: bool) {
    && SidesOf(g, j)
    && forall i: nat, at: nat ::
         Match(g, i, at) <==> i < |g.left| && at < |g.right| && Finds(j, hashed, g.left[i], g.right[at])
  }

  predicate SidesOf(g: Grid, j: Joining) {
    && g.left == j.left.rows && g.right == j.right.rows
    && g.leftWidth == |j.left.columns| && g.rightWidth == |j.right.columns|
    && g.keepsLeft == (j.kind in {LEFT, FULL}) && g.keepsRight == (j.kind in {RIGHT, FULL})
  }

  lemma PairsAreMatches(j: Joining, hashed: bool, g: Grid, row: Row)
    requires SidesOf(g, j) && Shows(g, j, hashed)
    ensures IsMatched(g, row) <==> IsAPair(j, hashed, row)
  {
    if IsMatched(g, row) {
      var i: nat, at: nat :| Match(g, i, at) && row == g.left[i] + g.right[at];
      assert g.left[i] in j.left.rows && g.right[at] in j.right.rows;
    }
    if IsAPair(j, hashed, row) {
      var l, r :| l in j.left.rows && r in j.right.rows && Finds(j, hashed, l, r) && row == l + r;
      var i :| 0 <= i < |j.left.rows| && j.left.rows[i] == l;
      var at :| 0 <= at < |j.right.rows| && j.right.rows[at] == r;
      assert Match(g, i, at);
    }
  }

  lemma LeftIsAlone(j: Joining, hashed: bool, g: Grid, i: nat)
    requires SidesOf(g, j) && Shows(g, j, hashed) && i < |g.left|
    ensures AloneOnTheLeft(g, i) <==> LeftAlone(j, hashed, g.left[i])
  {
    hide Match, Finds;
    if AloneOnTheLeft(g, i) {
      forall r | r in j.right.rows ensures !Finds(j, hashed, g.left[i], r) {
        var at :| 0 <= at < |g.right| && g.right[at] == r;
        assert !Match(g, i, at);
      }
    }
  }

  lemma RightIsAlone(j: Joining, hashed: bool, g: Grid, at: nat)
    requires SidesOf(g, j) && Shows(g, j, hashed) && at < |g.right|
    ensures AloneOnTheRight(g, at) <==> RightAlone(j, hashed, g.right[at])
  {
    hide Match, Finds;
    if AloneOnTheRight(g, at) {
      forall l | l in j.left.rows ensures !Finds(j, hashed, l, g.right[at]) {
        var i :| 0 <= i < |g.left| && g.left[i] == l;
        assert !Match(g, i, at);
      }
    }
  }

  lemma LeftsAreAlone(j: Joining, hashed: bool, g: Grid, row: Row)
    requires SidesOf(g, j) && Shows(g, j, hashed)
    ensures IsLeftPadded(g, row)
       <==> j.kind in {LEFT, FULL} && exists l :: LeftAlone(j, hashed, l) && row == l + Nulls(|j.right.columns|)
  {
    if IsLeftPadded(g, row) {
      var i: nat :| AloneOnTheLeft(g, i) && row == g.left[i] + Nulls(g.rightWidth);
      LeftIsAlone(j, hashed, g, i);
    }
    hide AloneOnTheLeft, Match, Finds;
    if exists l :: LeftAlone(j, hashed, l) && row == l + Nulls(|j.right.columns|) {
      var l :| LeftAlone(j, hashed, l) && row == l + Nulls(|j.right.columns|);
      var i :| 0 <= i < |j.left.rows| && j.left.rows[i] == l;
      LeftIsAlone(j, hashed, g, i);
    }
  }

  lemma RightsAreAlone(j: Joining, hashed: bool, g: Grid, row: Row)
    requires SidesOf(g, j) && Shows(g, j, hashed)
    ensures IsRightPadded(g, row)
       <==> j.kind in {RIGHT, FULL} && exists r :: RightAlone(j, hashed, r) && row == Nulls(|j.left.columns|) + r
  {
    if IsRightPadded(g, row) {
      var at: nat :| AloneOnTheRight(g, at) && row == Nulls(g.leftWidth) + g.right[at];
      RightIsAlone(j, hashed, g, at);
    }
    hide AloneOnTheRight, Match, Finds;
    if exists r :: RightAlone(j, hashed, r) && row == Nulls(|j.left.columns|) + r {
      var r :| RightAlone(j, hashed, r) && row == Nulls(|j.left.columns|) + r;
      var at :| 0 <= at < |j.right.rows| && j.right.rows[at] == r;
      RightIsAlone(j, hashed, g, at);
    }
  }

  lemma GridShows(j: Joining, hashed: bool)
    ensures SidesOf(GridFor(j, hashed), j) && Shows(GridFor(j, hashed), j, hashed)
  {
    forall i: nat, at: nat
      ensures var g := GridFor(j, hashed);
              Match(g, i, at) <==> i < |g.left| && at < |g.right| && Finds(j, hashed, g.left[i], g.right[at])
    {
      GridMatches(j, hashed, i, at);
    }
    GridMatches(j, hashed, 0, 0);
    hide GridFor, Match, Finds;
  }

  /** A row is in the join exactly where it is one of these. */
  lemma MembersAreJoined(j: Joining, hashed: bool, row: Row)
    ensures row in JoinRows(GridFor(j, hashed)) <==> IsJoined(j, hashed, row)
  {
    var g := GridFor(j, hashed);
    JoinHolds(g, row);
    GridShows(j, hashed);
    hide *;
    PairsAreMatches(j, hashed, g, row);
    LeftsAreAlone(j, hashed, g, row);
    RightsAreAlone(j, hashed, g, row);
    IsOneOfThese(j, hashed, row);
  }

  lemma IsOneOfThese(j: Joining, hashed: bool, row: Row)
    ensures IsJoined(j, hashed, row) <==>
            || IsAPair(j, hashed, row)
            || (j.kind in {LEFT, FULL} && exists l :: LeftAlone(j, hashed, l) && row == l + Nulls(|j.right.columns|))
            || (j.kind in {RIGHT, FULL} && exists r :: RightAlone(j, hashed, r) && row == Nulls(|j.left.columns|) + r)
  {
  }

  // ---- each row in its place -----------------------------------------------

  function HitBlock(g: Grid, i: nat, at: nat): seq<nat> {
    if g.ask(i, at) == Ok(true) then [at] else []
  }

  function HitBlocks(g: Grid, i: nat): (blocks: seq<seq<nat>>)
    ensures |blocks| == |g.right| && forall at: nat :: at < |g.right| ==> blocks[at] == HitBlock(g, i, at)
  {
    seq(|g.right|, at requires 0 <= at < |g.right| => HitBlock(g, i, at))
  }

  lemma {:induction false} HitsInTurn(g: Grid, i: nat, n: nat)
    requires n <= |g.right|
    ensures Hits(g, i, Positions(n)) == Flat(HitBlocks(g, i)[..n])
  {
    if n > 0 {
      HitsInTurn(g, i, n - 1);
      HitsAppend(g, i, Positions(n - 1), n - 1);
      FlatAdds(HitBlocks(g, i), n - 1);
    }
  }

  lemma {:induction false} FoundIsCounted(j: Joining, hashed: bool, g: Grid, i: nat, n: nat)
    requires SidesOf(g, j) && Shows(g, j, hashed) && i < |g.left| && n <= |g.right|
    ensures Offset(HitBlocks(g, i), n) == FoundFor(j, hashed, i, n)
  {
    hide Finds, Match, Shows, HitBlock;
    if n > 0 {
      FoundIsCounted(j, hashed, g, i, n - 1);
      OneIsCounted(j, hashed, g, i, n - 1);
      assert |HitBlocks(g, i)[n - 1]| == |HitBlock(g, i, n - 1)|;
      hide HitBlocks;
    }
  }

  lemma OneIsCounted(j: Joining, hashed: bool, g: Grid, i: nat, at: nat)
    requires SidesOf(g, j) && Shows(g, j, hashed) && i < |g.left| && at < |g.right|
    ensures |HitBlock(g, i, at)| == if Finds(j, hashed, At(j.left.rows, i), At(j.right.rows, at)) then 1 else 0
  {
    assert Match(g, i, at) <==> g.ask(i, at) == Ok(true);
    hide Finds;
  }

  lemma HitsAreCounted(j: Joining, hashed: bool, g: Grid, i: nat)
    requires SidesOf(g, j) && Shows(g, j, hashed) && i < |g.left|
    ensures |AllHits(g, i)| == FoundFor(j, hashed, i, |g.right|)
  {
    var blocks := HitBlocks(g, i);
    assert blocks[..|blocks|] == blocks;
    hide Shows;
    HitsInTurn(g, i, |g.right|);
    FlatLength(blocks);
    FoundIsCounted(j, hashed, g, i, |g.right|);
  }

  lemma HitInPlace(j: Joining, hashed: bool, g: Grid, i: nat, at: nat)
    requires SidesOf(g, j) && Shows(g, j, hashed) && Match(g, i, at)
    ensures StandsAt(AllHits(g, i), FoundFor(j, hashed, i, at), at)
  {
    var blocks := HitBlocks(g, i);
    assert blocks[..|blocks|] == blocks && blocks[at] == [at];
    hide Shows, HitBlocks;
    HitsInTurn(g, i, |g.right|);
    FlatAt(blocks, at, 0);
    FoundIsCounted(j, hashed, g, i, at);
  }

  lemma {:induction false} BesideInPlace(g: Grid, l: Row, hits: seq<nat>, k: nat)
    ensures |Beside(g, l, hits)| == |hits|
    ensures k < |hits| ==> Beside(g, l, hits)[k] == l + At(g.right, hits[k])
  {
    if hits != [] {
      BesideInPlace(g, l, hits[..|hits| - 1], k);
    }
  }

  function RowBlock(g: Grid, i: nat): seq<Row> {
    BlockOf(g, At(g.left, i), AllHits(g, i))
  }

  function RowBlocks(g: Grid): (blocks: seq<seq<Row>>)
    ensures |blocks| == |g.left| && forall i: nat :: i < |g.left| ==> blocks[i] == RowBlock(g, i)
  {
    seq(|g.left|, i requires 0 <= i < |g.left| => RowBlock(g, i))
  }

  lemma {:induction false} BlocksInTurn(g: Grid, n: nat)
    requires n <= |g.left|
    ensures Blocks(g, n) == Flat(RowBlocks(g)[..n])
  {
    hide AllHits, BlockOf;
    if n > 0 {
      BlocksInTurn(g, n - 1);
      FlatAdds(RowBlocks(g), n - 1);
      BlocksAdd(g, n - 1);
    }
  }

  lemma BlockIsCounted(j: Joining, hashed: bool, g: Grid, i: nat)
    requires SidesOf(g, j) && Shows(g, j, hashed) && i < |g.left|
    ensures |RowBlock(g, i)| == Before(j, hashed, i + 1) - Before(j, hashed, i)
  {
    HitsAreCounted(j, hashed, g, i);
    BesideInPlace(g, g.left[i], AllHits(g, i), 0);
    hide AllHits, Beside, Match, FoundFor;
  }

  lemma {:induction false} BeforeIsCounted(j: Joining, hashed: bool, g: Grid, n: nat)
    requires SidesOf(g, j) && Shows(g, j, hashed) && n <= |g.left|
    ensures Offset(RowBlocks(g), n) == Before(j, hashed, n)
  {
    hide Match, Finds, AllHits, BlockOf, Shows;
    if n > 0 {
      BeforeIsCounted(j, hashed, g, n - 1);
      BlockIsCounted(j, hashed, g, n - 1);
      assert |RowBlocks(g)[n - 1]| == |RowBlock(g, n - 1)|;
      hide RowBlock, RowBlocks, Before, Shows;
    } else {
      NoneBefore(j, hashed);
    }
  }

  lemma NoneBefore(j: Joining, hashed: bool)
    ensures Before(j, hashed, 0) == 0
  {
  }

  /** What the left rows answer, as the beginning of the join. */
  lemma BlockInPlace(j: Joining, hashed: bool, g: Grid, i: nat, k: nat)
    requires SidesOf(g, j) && Shows(g, j, hashed) && i < |g.left| && k < |RowBlock(g, i)|
    ensures StandsAt(JoinRows(g), Before(j, hashed, i) + k, RowBlock(g, i)[k])
  {
    hide Match, Finds, AllHits, BlockOf, Shows;
    var blocks, others := RowBlocks(g), if g.keepsRight then Others(g, PairedBy(g, |g.left|), |g.right|) else [];
    assert blocks[..|blocks|] == blocks && blocks[i] == RowBlock(g, i);
    assert JoinRows(g) == Blocks(g, |g.left|) + others;
    hide RowBlock, RowBlocks, Before, Shows, Others, JoinRows, Blocks, Flat, PairedBy;
    BlocksInTurn(g, |g.left|);
    FlatAt(blocks, i, k);
    BeforeIsCounted(j, hashed, g, i);
    StandsInFront(Flat(blocks), others, Before(j, hashed, i) + k, RowBlock(g, i)[k]);
  }

  lemma StandsInFront(rows: seq<Row>, more: seq<Row>, at: nat, row: Row)
    requires StandsAt(rows, at, row)
    ensures StandsAt(rows + more, at, row)
  {
  }

  lemma PairInPlace(j: Joining, hashed: bool, g: Grid, i: nat, at: nat)
    requires SidesOf(g, j) && Shows(g, j, hashed) && Match(g, i, at)
    ensures StandsAt(JoinRows(g), Before(j, hashed, i) + FoundFor(j, hashed, i, at), g.left[i] + g.right[at])
  {
    hide JoinRows, Before, FoundFor, Shows, Match, AllHits, RowBlock;
    MatchIsIn(g, i, at);
    HitInPlace(j, hashed, g, i, at);
    HitRow(g, i, at, FoundFor(j, hashed, i, at));
    BlockInPlace(j, hashed, g, i, FoundFor(j, hashed, i, at));
  }

  lemma MatchIsIn(g: Grid, i: nat, at: nat)
    requires Match(g, i, at)
    ensures i < |g.left| && at < |g.right|
  {
  }

  lemma HitRow(g: Grid, i: nat, at: nat, k: nat)
    requires i < |g.left| && at < |g.right| && StandsAt(AllHits(g, i), k, at)
    ensures StandsAt(RowBlock(g, i), k, g.left[i] + g.right[at])
  {
    hide AllHits, Beside;
    BesideInPlace(g, g.left[i], AllHits(g, i), k);
    assert RowBlock(g, i) == Beside(g, g.left[i], AllHits(g, i));
  }

  lemma LeftAloneInPlace(j: Joining, hashed: bool, g: Grid, i: nat)
    requires SidesOf(g, j) && Shows(g, j, hashed)
    requires i < |g.left| && g.keepsLeft && FoundFor(j, hashed, i, |g.right|) == 0
    ensures StandsAt(JoinRows(g), Before(j, hashed, i), g.left[i] + Nulls(g.rightWidth))
  {
    hide Match, Finds, AllHits, BlockOf, Shows;
    HitsAreCounted(j, hashed, g, i);
    AloneBlock(g, i);
    hide RowBlock, Before, Shows, JoinRows, FoundFor;
    BlockInPlace(j, hashed, g, i, 0);
  }

  lemma AloneBlock(g: Grid, i: nat)
    requires i < |g.left| && g.keepsLeft && |AllHits(g, i)| == 0
    ensures RowBlock(g, i) == [g.left[i] + Nulls(g.rightWidth)]
  {
  }

  function OtherBlock(g: Grid, paired: set<nat>, at: nat): seq<Row> {
    if at in paired then [] else [Nulls(g.leftWidth) + At(g.right, at)]
  }

  function OtherBlocks(g: Grid, paired: set<nat>): (blocks: seq<seq<Row>>)
    ensures |blocks| == |g.right| && forall at: nat :: at < |g.right| ==> blocks[at] == OtherBlock(g, paired, at)
  {
    seq(|g.right|, at requires 0 <= at < |g.right| => OtherBlock(g, paired, at))
  }

  lemma {:induction false} OthersInTurn(g: Grid, paired: set<nat>, n: nat)
    requires n <= |g.right|
    ensures Others(g, paired, n) == Flat(OtherBlocks(g, paired)[..n])
  {
    if n > 0 {
      OthersInTurn(g, paired, n - 1);
      FlatAdds(OtherBlocks(g, paired), n - 1);
    }
  }

  lemma PairedIsNotAlone(j: Joining, hashed: bool, g: Grid, at: nat)
    requires SidesOf(g, j) && Shows(g, j, hashed) && at < |g.right|
    ensures at in PairedBy(g, |g.left|) <==> !RightAlone(j, hashed, At(j.right.rows, at))
  {
    PairedByMatches(g, |g.left|);
    RightIsAlone(j, hashed, g, at);
    assert forall i: nat :: Match(g, i, at) ==> i < |g.left|;
    hide PairedBy, Finds, RightAlone;
  }

  lemma {:induction false} LonelyIsCounted(j: Joining, hashed: bool, g: Grid, n: nat)
    requires SidesOf(g, j) && Shows(g, j, hashed) && n <= |g.right|
    ensures Offset(OtherBlocks(g, PairedBy(g, |g.left|)), n) == Lonely(j, hashed, n)
  {
    hide Match, Finds, AllHits, BlockOf, Shows;
    if n > 0 {
      LonelyIsCounted(j, hashed, g, n - 1);
      PairedIsNotAlone(j, hashed, g, n - 1);
      var paired := PairedBy(g, |g.left|);
      assert |OtherBlocks(g, paired)[n - 1]| == if n - 1 in paired then 0 else 1;
      hide Shows, RightAlone, PairedBy, OtherBlocks;
    }
  }

  lemma RightAloneInPlace(j: Joining, hashed: bool, g: Grid, at: nat)
    requires SidesOf(g, j) && Shows(g, j, hashed)
    requires g.keepsRight && at < |g.right| && RightAlone(j, hashed, g.right[at])
    ensures StandsAt(JoinRows(g), Before(j, hashed, |g.left|) + Lonely(j, hashed, at),
                     Nulls(g.leftWidth) + g.right[at])
  {
    hide Match, Finds, AllHits, BlockOf, Shows;
    var paired := PairedBy(g, |g.left|);
    var blocks := OtherBlocks(g, paired);
    assert blocks[..|blocks|] == blocks;
    LeftsAreCounted(j, hashed, g);
    PairedIsNotAlone(j, hashed, g, at);
    assert blocks[at] == [Nulls(g.leftWidth) + g.right[at]];
    hide Shows, RightAlone, PairedBy, OtherBlocks, Before, Lonely, Blocks, Others;
    LonelyIsCounted(j, hashed, g, at);
    OthersInTurn(g, paired, |g.right|);
    FlatAt(blocks, at, 0);
  }

  lemma LeftsAreCounted(j: Joining, hashed: bool, g: Grid)
    requires SidesOf(g, j) && Shows(g, j, hashed)
    ensures |Blocks(g, |g.left|)| == Before(j, hashed, |g.left|)
  {
    hide Match, Finds, AllHits, BlockOf, Shows;
    var blocks := RowBlocks(g);
    assert blocks[..|blocks|] == blocks;
    hide Shows, RowBlocks, Before;
    BlocksInTurn(g, |g.left|);
    FlatLength(blocks);
    BeforeIsCounted(j, hashed, g, |g.left|);
  }

  lemma AllAreCounted(j: Joining, hashed: bool, g: Grid)
    requires SidesOf(g, j) && Shows(g, j, hashed)
    ensures |JoinRows(g)| == Before(j, hashed, |g.left|) + (if g.keepsRight then Lonely(j, hashed, |g.right|) else 0)
  {
    hide Match, Finds, AllHits, BlockOf, Shows;
    var paired := PairedBy(g, |g.left|);
    var blocks := OtherBlocks(g, paired);
    assert blocks[..|blocks|] == blocks;
    LeftsAreCounted(j, hashed, g);
    hide Shows, PairedBy, OtherBlocks, Before, Lonely, Blocks, Others;
    OthersInTurn(g, paired, |g.right|);
    FlatLength(blocks);
    LonelyIsCounted(j, hashed, g, |g.right|);
  }

  lemma JoinedInPlace(j: Joining, hashed: bool)
    ensures InPlace(j, hashed, JoinRows(GridFor(j, hashed)))
  {
    var g := GridFor(j, hashed);
    GridShows(j, hashed);
    hide GridFor;
    ShownInPlace(j, hashed, g);
  }

  lemma ShownInPlace(j: Joining, hashed: bool, g: Grid)
    requires SidesOf(g, j) && Shows(g, j, hashed)
    ensures InPlace(j, hashed, JoinRows(g))
  {
    hide JoinRows, Before, FoundFor, Lonely, RightAlone, Finds, Match, StandsAt;
    forall i, at
      | 0 <= i < |j.left.rows| && 0 <= at < |j.right.rows| && Finds(j, hashed, j.left.rows[i], j.right.rows[at])
      ensures StandsAt(JoinRows(g), Before(j, hashed, i) + FoundFor(j, hashed, i, at),
                       j.left.rows[i] + j.right.rows[at])
    {
      assert Match(g, i, at);
      PairInPlace(j, hashed, g, i, at);
    }
    forall i | 0 <= i < |j.left.rows| && j.kind in {LEFT, FULL} && FoundFor(j, hashed, i, |j.right.rows|) == 0
      ensures StandsAt(JoinRows(g), Before(j, hashed, i), j.left.rows[i] + Nulls(|j.right.columns|))
    {
      LeftAloneInPlace(j, hashed, g, i);
    }
    forall at | 0 <= at < |j.right.rows| && j.kind in {RIGHT, FULL} && RightAlone(j, hashed, j.right.rows[at])
      ensures StandsAt(JoinRows(g), Before(j, hashed, |j.left.rows|) + Lonely(j, hashed, at),
                       Nulls(|j.left.columns|) + j.right.rows[at])
    {
      RightAloneInPlace(j, hashed, g, at);
    }
    AllAreCounted(j, hashed, g);
  }

  // ---- a cross join --------------------------------------------------------

  lemma {:induction false} AcrossInPlace(l: Row, right: seq<Row>, k: nat)
    ensures |Across(l, right)| == |right|
    ensures k < |right| ==> Across(l, right)[k] == l + right[k]
  {
    if right != [] {
      AcrossInPlace(l, right[..|right| - 1], k);
    }
  }

  /** Every left row beside every right row, the left rows in turn. */
  lemma {:induction false} CrossedInPlace(left: seq<Row>, right: seq<Row>, i: nat, k: nat)
    ensures |Crossed(left, right)| == |left| * |right|
    ensures i < |left| && k < |right| ==> StandsAt(Crossed(left, right), i * |right| + k, left[i] + right[k])
  {
    if left != [] {
      var n := |left| - 1;
      CrossedInPlace(left[..n], right, i, k);
      AcrossInPlace(left[n], right, k);
      OneTimeMore(n, |right|);
      var whole, front := Crossed(left, right), Crossed(left[..n], right);
      assert whole == front + Across(left[n], right);
      hide Crossed, Across;
    }
  }

  lemma OneTimeMore(k: nat, n: nat)
    ensures (k + 1) * n == k * n + n
  {
  }

  // ---- the join ------------------------------------------------------------

  /** Where each equality is hashed on what it reads the hash misses no pair. */
  lemma HashMissesNone(j: Joining)
    requires Typed(j.left) && Typed(j.right) && HashesWhatItReads(j)
    ensures forall l, r :: l in j.left.rows && r in j.right.rows ==> Finds(j, true, l, r) == Finds(j, false, l, r)
  {
    forall l, r | l in j.left.rows && r in j.right.rows
      ensures Finds(j, true, l, r) == Finds(j, false, l, r)
    {
      if Ask(j, l, r) == Ok(true) {
        SatisfiedPairsShareABucket(j, l, r);
      }
    }
  }

  /** The rows of the join, each in its place. */
  ghost predicate IsTheAnswer(j: Joining, hashed: bool, rows: seq<Row>) {
    InPlace(j, hashed, rows) && forall row :: row in rows <==> IsJoined(j, hashed, row)
  }

  lemma GridAnswers(j: Joining, hashed: bool)
    ensures IsTheAnswer(j, hashed, JoinRows(GridFor(j, hashed)))
  {
    hide IsJoined, InPlace, GridFor, JoinRows;
    JoinedInPlace(j, hashed);
    forall row ensures row in JoinRows(GridFor(j, hashed)) <==> IsJoined(j, hashed, row) {
      MembersAreJoined(j, hashed, row);
    }
  }

  lemma NothingIsHashed(j: Joining)
    requires Offered(j) == []
    ensures JoinRows(HashedGrid(j)) == JoinRows(GridOf(j))
  {
    assert SafeFilter(GridOf(j), KeysOf([]));
    FilteredJoinIsTheJoin(GridOf(j), KeysOf([]));
  }

  lemma RefusalIsAsked(j: Joining, hashed: bool)
    ensures !Clean(GridFor(j, hashed)) ==>
              exists l, r :: l in j.left.rows && r in j.right.rows && Ask(j, l, r).Err?
  {
    var g := GridFor(j, hashed);
    if !Clean(g) {
      var i: nat, at: nat :| i < |g.left| && at < |g.right| && g.ask(i, at).Err?;
      GridAsks(j, i, at);
      AskedWithin(GridOf(j), KeysOf(Offered(j)), i, at);
      assert j.left.rows[i] in j.left.rows && j.right.rows[at] in j.right.rows;
      hide Ask;
    }
  }

  /** Every left row beside every right row. */
  predicate IsCrossed(j: Joining, rows: seq<Row>) {
    && |rows| == |j.left.rows| * |j.right.rows|
    && forall i: nat, k: nat :: i < |j.left.rows| && k < |j.right.rows| ==>
         StandsAt(rows, i * |j.right.rows| + k, j.left.rows[i] + j.right.rows[k])
  }

  lemma CrossAnswers(j: Joining)
    ensures IsCrossed(j, Crossed(j.left.rows, j.right.rows))
  {
    CrossedInPlace(j.left.rows, j.right.rows, 0, 0);
    forall i: nat, k: nat | i < |j.left.rows| && k < |j.right.rows|
      ensures StandsAt(Crossed(j.left.rows, j.right.rows), i * |j.right.rows| + k, j.left.rows[i] + j.right.rows[k])
    {
      CrossedInPlace(j.left.rows, j.right.rows, i, k);
    }
    hide Crossed;
  }

  /** The join as it is run. CROSS answers every left row beside every right row.
      Otherwise it answers the pairs it finds and the rows its kind keeps, each in
      its place: those of the ON where nothing is hashed or every equality is on
      what it reads, and else those that share a key too. It is refused only where
      the ON refuses a pair, or for its size: the pairs to try where every pair is
      tried, the rows of the join where they are met by key. */
  method JoinTables(j: Joining) returns (r: Result<seq<Row>>)
    requires Typed(j.left) && Typed(j.right)
    ensures j.IsCross() && r.Ok? ==> IsCrossed(j, r.value)
    ensures !j.IsCross() && r.Ok? ==> IsTheAnswer(j, true, r.value)
    ensures !j.IsCross() && r.Ok? && (Offered(j) == [] || HashesWhatItReads(j)) ==> IsTheAnswer(j, false, r.value)
    ensures r == Err(Unreadable) ==> exists l, o :: l in j.left.rows && o in j.right.rows && Ask(j, l, o).Err?
    ensures j.IsCross() ==> r == if PairsToTry(GridOf(j)) > MAX_JOIN_ROWS then Err(TooLarge)
                                 else Ok(Crossed(j.left.rows, j.right.rows))
    ensures !j.IsCross() && Offered(j) == [] ==>
              r == if PairsToTry(GridOf(j)) > MAX_JOIN_ROWS then Err(TooLarge)
                   else if Clean(GridOf(j)) then Ok(JoinRows(GridOf(j))) else Err(Unreadable)
    ensures !j.IsCross() && Offered(j) != [] ==> IsTheJoin(r, HashedGrid(j))
    ensures !j.IsCross() && Offered(j) != [] && HashesWhatItReads(j) ==> IsTheJoin(r, GridOf(j))
  {
    hide HashesWhatItReads, GridOf, HashedGrid, KeysOf, JoinRows, Clean, Typed, Filtered, IsTheAnswer, IsCrossed, Ask,
         Crossed, PairsToTry;
    if j.kind.CROSS? || j.on.None? {
      CrossAnswers(j);
      if PairsToTry(GridOf(j)) > MAX_JOIN_ROWS {
        return Err(TooLarge);
      }
      return Ok(Crossed(j.left.rows, j.right.rows));
    }
    var pairs := Equalities(j.on.value, j.left, j.right);
    GridAnswers(j, true);
    GridAnswers(j, false);
    RefusalIsAsked(j, true);
    RefusalIsAsked(j, false);
    if pairs != [] {
      HashedGridIs(j);
      r := ByBuckets(GridOf(j), KeysOf(pairs));
      if HashesWhatItReads(j) {
        HashedJoinIsTheJoin(j);
      }
    } else {
      NothingIsHashed(j);
      r := ByPairs(GridOf(j));
    }
  }

  lemma HashedGridIs(j: Joining)
    ensures HashedGrid(j) == Filtered(GridOf(j), KeysOf(Offered(j)))
  {
  }

  /** What is answered is a join's rows, and a join no pair of which is refused
      is stopped only by its size. */
  predicate IsTheJoin(r: Result<seq<Row>>, g: Grid) {
    && (r.Ok? ==> r.value == JoinRows(g) && |JoinRows(g)| <= MAX_JOIN_ROWS)
    && (r.Err? ==> r == Err(TooLarge) || r == Err(Unreadable))
    && (r == Err(TooLarge) ==> |JoinRows(g)| > MAX_JOIN_ROWS)
    && (r == Err(Unreadable) ==> !Clean(g))
  }
}
