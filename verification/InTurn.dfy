/** Lists written one block after another, and what stands where in them. */
module InTurn {

  predicate StandsAt<T(==)>(list: seq<T>, at: nat, x: T) {
    at < |list| && list[at] == x
  }

  function Flat<T>(blocks: seq<seq<T>>): seq<T> {
    if blocks == [] then [] else Flat(blocks[..|blocks| - 1]) + blocks[|blocks| - 1]
  }

  /** How much the first n blocks hold. */
  function Offset<T>(blocks: seq<seq<T>>, n: nat): nat
    requires n <= |blocks|
  {
    if n == 0 then 0 else Offset(blocks, n - 1) + |blocks[n - 1]|
  }

  lemma {:induction false} OffsetInFront<T>(blocks: seq<seq<T>>, m: nat, n: nat)
    requires n <= m <= |blocks|
    ensures Offset(blocks[..m], n) == Offset(blocks, n)
  {
    if n > 0 {
      OffsetInFront(blocks, m, n - 1);
    }
  }

  lemma {:induction false} FlatLength<T>(blocks: seq<seq<T>>)
    ensures |Flat(blocks)| == Offset(blocks, |blocks|)
  {
    if blocks != [] {
      var m := |blocks| - 1;
      FlatLength(blocks[..m]);
      OffsetInFront(blocks, m, m);
    }
  }

  /** An element of a block stands behind all the blocks before. */
  lemma {:induction false} FlatAt<T>(blocks: seq<seq<T>>, i: nat, k: nat)
    requires i < |blocks| && k < |blocks[i]|
    ensures StandsAt(Flat(blocks), Offset(blocks, i) + k, blocks[i][k])
  {
    var m := |blocks| - 1;
    OffsetInFront(blocks, m, i);
    FlatLength(blocks[..m]);
    if i < m {
      FlatAt(blocks[..m], i, k);
    } else {
      OffsetInFront(blocks, m, m);
    }
  }

  lemma FlatAdds<T>(blocks: seq<seq<T>>, n: nat)
    requires n < |blocks|
    ensures Flat(blocks[..n + 1]) == Flat(blocks[..n]) + blocks[n]
  {
    assert blocks[..n + 1][..n] == blocks[..n];
  }
}
