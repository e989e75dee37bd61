/** Stable sorting under a total preorder, and sorting by several keys one at a
    time. */
module StableSorting {

  type Order<!T> = (T, T) -> bool

  ghost predicate TotalPreorder<T(!new)>(leq: Order<T>) {
    && (forall a, b :: leq(a, b) || leq(b, a))
    && (forall a, b, c {:trigger leq(a, b), leq(b, c)} :: leq(a, b) && leq(b, c) ==> leq(a, c))
  }

  ghost predicate Sorted<T>(s: seq<T>, leq: Order<T>) {
    forall i, k :: 0 <= i < k < |s| ==> leq(s[i], s[k])
  }

  /** In front of the first element it does not come after. */
  function Insert<T>(x: T, s: seq<T>, leq: Order<T>): seq<T> {
    if s == [] then [x]
    else if leq(x, s[0]) then [x] + s
    else [s[0]] + Insert(x, s[1..], leq)
  }

  /** What a stable sort makes of a list, as SortsOneWay shows there is only one
      such list. */
  function StableSort<T>(s: seq<T>, leq: Order<T>): seq<T> {
    if s == [] then [] else Insert(s[0], StableSort(s[1..], leq), leq)
  }

  function Filter<T>(s: seq<T>, p: T -> bool): seq<T> {
    if s == [] then [] else (if p(s[0]) then [s[0]] else []) + Filter(s[1..], p)
  }

  /** Elements of p tie with each other. */
  ghost predicate AllTie<T(!new)>(p: T -> bool, leq: Order<T>) {
    forall a, b :: p(a) && p(b) ==> leq(a, b)
  }

  function TiesWith<T>(x: T, leq: Order<T>): T -> bool {
    y => leq(x, y) && leq(y, x)
  }

  /** t is s in order, elements that tie left as they stood. */
  ghost predicate IsStableSort<T(!new)>(t: seq<T>, s: seq<T>, leq: Order<T>) {
    Sorted(t, leq) && forall x :: Filter(t, TiesWith(x, leq)) == Filter(s, TiesWith(x, leq))
  }

  // ---- one pass ------------------------------------------------------------

  lemma {:induction false} InsertHolds<T>(x: T, s: seq<T>, leq: Order<T>)
    ensures multiset(Insert(x, s, leq)) == multiset{x} + multiset(s)
  {
    if s != [] && !leq(x, s[0]) {
      InsertHolds(x, s[1..], leq);
      assert s == [s[0]] + s[1..];
    }
  }

  lemma {:induction false} SortPermutes<T>(s: seq<T>, leq: Order<T>)
    ensures multiset(StableSort(s, leq)) == multiset(s)
  {
    if s != [] {
      SortPermutes(s[1..], leq);
      InsertHolds(s[0], StableSort(s[1..], leq), leq);
      assert s == [s[0]] + s[1..];
    }
  }

  /** A list sorted under one order, with x put in front of the first element
      it does not come after under a coarser one, is sorted where x came first
      among the elements it ties with. */
  lemma {:induction false} InsertSorts<T(!new)>(x: T, s: seq<T>, coarse: Order<T>, fine: Order<T>)
    requires TotalPreorder(coarse) && Sorted(s, Then(coarse, fine))
    requires forall y :: y in s ==> fine(x, y)
    ensures Sorted(Insert(x, s, coarse), Then(coarse, fine))
  {
    if s == [] {
    } else if coarse(x, s[0]) {
      forall k | 0 <= k < |s| ensures Then(coarse, fine)(x, s[k]) {
        assert k > 0 ==> Then(coarse, fine)(s[0], s[k]);
        assert coarse(s[0], s[k]);
      }
    } else {
      var rest := s[1..];
      InsertSorts(x, rest, coarse, fine);
      InsertHolds(x, rest, coarse);
      var out := Insert(x, rest, coarse);
      forall y | y in out ensures Then(coarse, fine)(s[0], y) {
        assert y in multiset(out) && (y == x || y in multiset(rest));
        if y != x {
          var k :| 0 <= k < |rest| && rest[k] == y;
          assert Then(coarse, fine)(s[0], s[k + 1]);
        }
      }
    }
  }

  /** Under the first order, and under the second where the first ties. */
  function Then<T>(coarse: Order<T>, fine: Order<T>): Order<T> {
    (a, b) => coarse(a, b) && (!coarse(b, a) || fine(a, b))
  }

  /** A stable pass over a list sorted by later keys sorts it by this key and
      then by those. */
  lemma {:induction false} PassSorts<T(!new)>(s: seq<T>, coarse: Order<T>, fine: Order<T>)
    requires TotalPreorder(coarse) && Sorted(s, fine)
    ensures Sorted(StableSort(s, coarse), Then(coarse, fine))
  {
    if s != [] {
      var rest := s[1..];
      assert Sorted(rest, fine);
      PassSorts(rest, coarse, fine);
      SortPermutes(rest, coarse);
      forall y | y in StableSort(rest, coarse) ensures fine(s[0], y) {
        assert y in multiset(rest);
        var k :| 0 <= k < |rest| && rest[k] == y;
        assert fine(s[0], s[k + 1]);
      }
      InsertSorts(s[0], StableSort(rest, coarse), coarse, fine);
    }
  }

  lemma FilterAdds<T>(x: T, s: seq<T>, p: T -> bool)
    ensures Filter([x] + s, p) == if p(x) then [x] + Filter(s, p) else Filter(s, p)
  {
    assert ([x] + s)[1..] == s;
  }

  lemma {:induction false} InsertKeepsTies<T(!new)>(x: T, s: seq<T>, leq: Order<T>, p: T -> bool)
    requires AllTie(p, leq)
    ensures Filter(Insert(x, s, leq), p) == Filter([x] + s, p)
  {
    if s == [] || leq(x, s[0]) {
      assert Insert(x, s, leq) == [x] + s;
    } else {
      var rest := s[1..];
      assert s == [s[0]] + rest;
      assert Insert(x, s, leq) == [s[0]] + Insert(x, rest, leq);
      InsertKeepsTies(x, rest, leq, p);
      FilterAdds(s[0], Insert(x, rest, leq), p);
      FilterAdds(x, rest, p);
      FilterAdds(x, s, p);
      FilterAdds(s[0], rest, p);
    }
  }

  /** A stable pass leaves elements that tie as they stood. */
  lemma {:induction false} PassKeepsTies<T(!new)>(s: seq<T>, leq: Order<T>, p: T -> bool)
    requires AllTie(p, leq)
    ensures Filter(StableSort(s, leq), p) == Filter(s, p)
  {
    if s != [] {
      var rest := StableSort(s[1..], leq);
      PassKeepsTies(s[1..], leq, p);
      InsertKeepsTies(s[0], rest, leq, p);
      assert ([s[0]] + rest)[1..] == rest;
    }
  }

  lemma TiesTie<T(!new)>(x: T, leq: Order<T>)
    requires TotalPreorder(leq)
    ensures AllTie(TiesWith(x, leq), leq)
  {
  }

  lemma SortIsAStableSort<T(!new)>(s: seq<T>, leq: Order<T>)
    requires TotalPreorder(leq)
    ensures IsStableSort(StableSort(s, leq), s, leq)
  {
    var anything: Order<T> := (a, b) => true;
    PassSorts(s, leq, anything);
    var t := StableSort(s, leq);
    forall i, k | 0 <= i < k < |t| ensures leq(t[i], t[k]) {
      assert Then(leq, anything)(t[i], t[k]);
    }
    forall x ensures Filter(t, TiesWith(x, leq)) == Filter(s, TiesWith(x, leq)) {
      TiesTie(x, leq);
      PassKeepsTies(s, leq, TiesWith(x, leq));
    }
  }

  // ---- there is only one ---------------------------------------------------

  lemma {:induction false} FilterHolds<T>(s: seq<T>, p: T -> bool)
    ensures forall y :: y in Filter(s, p) <==> y in s && p(y)
  {
    if s != [] {
      FilterHolds(s[1..], p);
      assert s == [s[0]] + s[1..];
    }
  }

  lemma FirstOfBoth<T(!new)>(a: seq<T>, b: seq<T>, s: seq<T>, leq: Order<T>)
    requires TotalPreorder(leq) && IsStableSort(a, s, leq) && IsStableSort(b, s, leq) && a != []
    ensures b != [] && a[0] in b && leq(b[0], a[0])
  {
    var p := TiesWith(a[0], leq);
    FilterHolds(a, p);
    FilterHolds(b, p);
    assert leq(a[0], a[0]) && a[0] in Filter(a, p);
    var k :| 0 <= k < |b| && b[k] == a[0];
  }

  lemma HeadsAgree<T(!new)>(a: seq<T>, b: seq<T>, s: seq<T>, leq: Order<T>)
    requires TotalPreorder(leq) && IsStableSort(a, s, leq) && IsStableSort(b, s, leq) && a != []
    ensures b != [] && a[0] == b[0]
    ensures forall x :: Filter(a[1..], TiesWith(x, leq)) == Filter(b[1..], TiesWith(x, leq))
  {
    FirstOfBoth(a, b, s, leq);
    FirstOfBoth(b, a, s, leq);
    var p := TiesWith(a[0], leq);
    assert leq(a[0], a[0]);
    assert Filter(a, p) == Filter(b, p);
    assert Filter(a, p)[0] == a[0] && Filter(b, p)[0] == b[0];
    forall x ensures Filter(a[1..], TiesWith(x, leq)) == Filter(b[1..], TiesWith(x, leq)) {
      var q := TiesWith(x, leq);
      assert Filter(a, q) == Filter(b, q);
      FilterTail(a, q);
      FilterTail(b, q);
    }
  }

  lemma FilterTail<T>(s: seq<T>, p: T -> bool)
    requires s != []
    ensures Filter(s[1..], p) == if p(s[0]) then Filter(s, p)[1..] else Filter(s, p)
  {
  }

  /** Two stable sorts of one list are one list. */
  lemma {:induction false} SortsOneWay<T(!new)>(a: seq<T>, b: seq<T>, s: seq<T>, leq: Order<T>)
    requires TotalPreorder(leq) && IsStableSort(a, s, leq) && IsStableSort(b, s, leq)
    ensures a == b
    decreases |a|
  {
    if a == [] {
      if b != [] {
        FirstOfBoth(b, a, s, leq);
      }
    } else {
      HeadsAgree(a, b, s, leq);
      SortsOneWay(a[1..], b[1..], b[1..], leq);
      assert a == [a[0]] + a[1..] && b == [b[0]] + b[1..];
    }
  }

  // ---- several keys --------------------------------------------------------

  /** Each key in turn, the later ones deciding only where the earlier tie. */
  function Lexicographic<T>(orders: seq<Order<T>>): Order<T> {
    if orders == [] then (a, b) => true else Then(orders[0], Lexicographic(orders[1..]))
  }

  /** One stable pass a key, from the last key to the first. */
  function KeyByKey<T>(s: seq<T>, orders: seq<Order<T>>): seq<T> {
    if orders == [] then s else StableSort(KeyByKey(s, orders[1..]), orders[0])
  }

  ghost predicate AllTotal<T(!new)>(orders: seq<Order<T>>) {
    forall i :: 0 <= i < |orders| ==> TotalPreorder(orders[i])
  }

  lemma ThenIsTotal<T(!new)>(coarse: Order<T>, fine: Order<T>)
    requires TotalPreorder(coarse) && TotalPreorder(fine)
    ensures TotalPreorder(Then(coarse, fine))
  {
    var both := Then(coarse, fine);
    forall a, b ensures both(a, b) || both(b, a) {
      assert coarse(a, b) || coarse(b, a);
      assert fine(a, b) || fine(b, a);
    }
    forall a, b, c | both(a, b) && both(b, c) ensures both(a, c) {
      assert coarse(a, b) && coarse(b, c) && coarse(a, c);
      if coarse(c, a) {
        assert coarse(c, b) by { assert coarse(c, a) && coarse(a, b); }
        assert coarse(b, a) by { assert coarse(b, c) && coarse(c, a); }
        assert fine(a, b) && fine(b, c);
      }
    }
  }

  lemma {:induction false} LexicographicIsTotal<T(!new)>(orders: seq<Order<T>>)
    requires AllTotal(orders)
    ensures TotalPreorder(Lexicographic(orders))
  {
    if orders != [] {
      LexicographicIsTotal(orders[1..]);
      ThenIsTotal(orders[0], Lexicographic(orders[1..]));
    }
  }

  lemma {:induction false} PassesSort<T(!new)>(s: seq<T>, orders: seq<Order<T>>)
    requires AllTotal(orders)
    ensures Sorted(KeyByKey(s, orders), Lexicographic(orders))
  {
    if orders != [] {
      PassesSort(s, orders[1..]);
      PassSorts(KeyByKey(s, orders[1..]), orders[0], Lexicographic(orders[1..]));
    }
  }

  lemma {:induction false} PassesKeepTies<T(!new)>(s: seq<T>, orders: seq<Order<T>>, p: T -> bool)
    requires AllTie(p, Lexicographic(orders))
    ensures Filter(KeyByKey(s, orders), p) == Filter(s, p)
  {
    if orders != [] {
      var later := Lexicographic(orders[1..]);
      forall a, b | p(a) && p(b) ensures orders[0](a, b) && later(a, b) {
        assert Then(orders[0], later)(a, b) && Then(orders[0], later)(b, a);
      }
      PassesKeepTies(s, orders[1..], p);
      PassKeepsTies(KeyByKey(s, orders[1..]), orders[0], p);
    }
  }

  /** Sorting by one key at a time, from the last to the first, is the one
      stable sort under all of them together, for any number of keys. */
  lemma PassesAreOneSort<T(!new)>(s: seq<T>, orders: seq<Order<T>>)
    requires AllTotal(orders)
    ensures IsStableSort(KeyByKey(s, orders), s, Lexicographic(orders))
    ensures KeyByKey(s, orders) == StableSort(s, Lexicographic(orders))
  {
    var leq := Lexicographic(orders);
    LexicographicIsTotal(orders);
    PassesSort(s, orders);
    forall x ensures Filter(KeyByKey(s, orders), TiesWith(x, leq)) == Filter(s, TiesWith(x, leq)) {
      TiesTie(x, leq);
      PassesKeepTies(s, orders, TiesWith(x, leq));
    }
    SortIsAStableSort(s, leq);
    SortsOneWay(KeyByKey(s, orders), StableSort(s, leq), s, leq);
  }

  lemma {:induction false} PassesPermute<T>(s: seq<T>, orders: seq<Order<T>>)
    ensures multiset(KeyByKey(s, orders)) == multiset(s)
  {
    if orders != [] {
      PassesPermute(s, orders[1..]);
      SortPermutes(KeyByKey(s, orders[1..]), orders[0]);
    }
  }

  // ---- which key decides ---------------------------------------------------

  /** Two elements tie under these keys up to the n-th. */
  predicate TieUpTo<T>(a: T, b: T, orders: seq<Order<T>>, n: nat)
    requires n <= |orders|
  {
    forall i :: 0 <= i < n ==> orders[i](a, b) && orders[i](b, a)
  }

  /** The first key under which two elements do not tie decides which comes first, and
      where there is none either may. */
  lemma {:induction false} FirstKeyDecides<T>(a: T, b: T, orders: seq<Order<T>>, n: nat)
    requires n <= |orders| && TieUpTo(a, b, orders, n)
    ensures n == |orders| ==> Lexicographic(orders)(a, b)
    ensures n < |orders| && orders[n](a, b) && !orders[n](b, a) ==>
              Lexicographic(orders)(a, b) && !Lexicographic(orders)(b, a)
    decreases n
  {
    if n > 0 {
      assert forall i :: 0 <= i < n - 1 ==> orders[1..][i] == orders[i + 1];
      FirstKeyDecides(a, b, orders[1..], n - 1);
      assert TieUpTo(b, a, orders[1..], n - 1);
    }
  }
}
