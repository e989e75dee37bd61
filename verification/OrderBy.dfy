/** ORDER BY, and the TOP, OFFSET and FETCH that come after it. */
module OrderBy {
  import opened Outcomes
  import opened Values
  import opened Expressions
  import opened StableSorting

  /** How one key finds its value: a position of the row, or an expression
      worked out over it. */
  datatype Plan = At(position: nat) | Worked(e: Expr)
  datatype OrderKey = OrderKey(plan: Plan, descending: bool)

  /** Where the names a row answers to stand, in the order they are looked through,
      and what an expression over it is worked out with. */
  datatype Reading = Reading(places: Entries<nat>, ps: Parameters, w: World)

  /** The sort and the scan for ties each read expressions in a way of its own. */
  datatype Statement = Statement(sorting: Entries<nat>, scanning: Entries<nat>, ps: Parameters, w: World)

  function Sorting(s: Statement): Reading {
    Reading(s.sorting, s.ps, s.w)
  }

  function Scanning(s: Statement): Reading {
    Reading(s.scanning, s.ps, s.w)
  }

  /** Over a table the sort reads under the names in lower case, the last of those
      that then are one, and the scan under the names as they are. */
  function OverTable(names: seq<string>, ps: Parameters, w: World): Statement {
    Statement(Bind<nat>(FoldAll(names), Ordinals(|names|)), Bind<nat>(names, Ordinals(|names|)), ps, w)
  }

  /** Over a grouped result the sort reads under every name a column answers to,
      the first to answer winning, and the scan under the headings alone. */
  function OverGroups(answers: seq<seq<string>>, headings: seq<string>, ps: Parameters, w: World): Statement {
    Statement(FirstToAnswer(answers, |answers|), Bind<nat>(headings, Ordinals(|headings|)), ps, w)
  }

  function FirstToAnswer(answers: seq<seq<string>>, n: nat): Entries<nat>
    requires n <= |answers|
  {
    if n == 0 then [] else Answering(FirstToAnswer(answers, n - 1), answers[n - 1], n - 1)
  }

  function Answering(places: Entries<nat>, names: seq<string>, at: nat): Entries<nat> {
    if names == [] then places
    else
      var before := Answering(places, names[..|names| - 1], at);
      var name := Fold(names[|names| - 1]);
      if exists i :: 0 <= i < |before| && before[i].0 == name then before else before + [(name, at)]
  }

  function ValueOf(plan: Plan, row: Row, r: Reading): Result<Value> {
    match plan
    case At(i) => if i < |row| then Ok(row[i]) else Err(Unreadable)
    case Worked(e) =>
      if InRange(r.places, |row|) then Evaluate(e, Through(r.places, row), r.ps, r.w) else Err(Unreadable)
  }

  /** What a row is sorted and tied on under one key. */
  function KeyOf(plan: Plan, row: Row, r: Reading): Key {
    var v := ValueOf(plan, row, r);
    if v.Ok? then Collated(v.value) else Nothing
  }

  /** NULLs first ascending and last descending. */
  function OrderOf(key: OrderKey, r: Reading): Order<Row> {
    (a, b) => if key.descending then AtMost(KeyOf(key.plan, b, r), KeyOf(key.plan, a, r))
              else AtMost(KeyOf(key.plan, a, r), KeyOf(key.plan, b, r))
  }

  function OrdersOf(keys: seq<OrderKey>, r: Reading): (orders: seq<Order<Row>>)
    ensures |orders| == |keys|
    ensures forall i :: 0 <= i < |keys| ==> orders[i] == OrderOf(keys[i], r)
  {
    seq(|keys|, i requires 0 <= i < |keys| => OrderOf(keys[i], r))
  }

  function Said(row: Row, keys: seq<OrderKey>, r: Reading): seq<Key> {
    if keys == [] then [] else [KeyOf(keys[0].plan, row, r)] + Said(row, keys[1..], r)
  }

  /** Whether a key can put these rows in order: it reads every one of them,
      and what it reads is of one kind, NULLs aside. */
  predicate CanOrder(rows: seq<Row>, key: OrderKey, r: Reading) {
    && (forall row :: row in rows ==> ValueOf(key.plan, row, r).Ok?)
    && (forall a, b :: a in rows && b in rows ==> OneKind(KeyOf(key.plan, a, r), KeyOf(key.plan, b, r)))
  }

  predicate OneKind(a: Key, b: Key) {
    a.Nothing? || b.Nothing? || Rank(a) == Rank(b)
  }

  predicate Orderable(rows: seq<Row>, keys: seq<OrderKey>, r: Reading) {
    forall i :: 0 <= i < |keys| ==> CanOrder(rows, keys[i], r)
  }

  lemma OrdersAreTotal(keys: seq<OrderKey>, r: Reading)
    ensures AllTotal(OrdersOf(keys, r))
  {
    forall i | 0 <= i < |keys| ensures TotalPreorder(OrdersOf(keys, r)[i]) {
      OrderIsTotal(keys[i], r);
    }
  }

  lemma OrderIsTotal(key: OrderKey, r: Reading)
    ensures TotalPreorder(OrderOf(key, r))
  {
    hide KeyOf, AtMost;
    var leq := OrderOf(key, r);
    forall a, b ensures leq(a, b) || leq(b, a) {
      AtMostIsATotalOrder(KeyOf(key.plan, a, r), KeyOf(key.plan, b, r), Nothing);
    }
    forall a, b, c | leq(a, b) && leq(b, c) ensures leq(a, c) {
      AtMostIsATotalOrder(KeyOf(key.plan, a, r), KeyOf(key.plan, b, r), KeyOf(key.plan, c, r));
      AtMostIsATotalOrder(KeyOf(key.plan, c, r), KeyOf(key.plan, b, r), KeyOf(key.plan, a, r));
    }
  }

  /** Rows ordered by the ORDER BY, one stable sort a key from the last to the
      first: the stable sort under all the keys together, or a refusal where a
      key cannot order these rows. */
  method SortRows(rows: seq<Row>, keys: seq<OrderKey>, s: Statement) returns (ordered: Result<seq<Row>>)
    ensures ordered == SortedRows(rows, keys, s)
  {
    ordered := SortUnder(rows, keys, Sorting(s));
  }

  function SortedRows(rows: seq<Row>, keys: seq<OrderKey>, s: Statement): Result<seq<Row>> {
    if Orderable(rows, keys, Sorting(s)) then Ok(StableSort(rows, Lexicographic(OrdersOf(keys, Sorting(s)))))
    else Err(Unreadable)
  }

  method SortUnder(rows: seq<Row>, keys: seq<OrderKey>, r: Reading) returns (sorted: Result<seq<Row>>)
    ensures sorted == if Orderable(rows, keys, r) then Ok(StableSort(rows, Lexicographic(OrdersOf(keys, r))))
                      else Err(Unreadable)
  {
    hide *;
    var ordered, at := rows, |keys|;
    ghost var orders := OrdersOf(keys, r);
    NoPasses(rows, orders);
    while at > 0
      invariant 0 <= at <= |keys|
      invariant ordered == KeyByKey(rows, orders[at..])
      invariant forall i :: at <= i < |keys| ==> CanOrder(rows, keys[i], r)
    {
      at := at - 1;
      PassesPermute(rows, orders[at + 1..]);
      SameRowsOrderAlike(ordered, rows, keys[at], r);
      if !CanOrder(ordered, keys[at], r) {
        OneCannot(rows, keys, r, at);
        return Err(Unreadable);
      }
      OneMorePass(rows, orders, at);
      ordered := StableSort(ordered, OrderOf(keys[at], r));
    }
    assert orders[0..] == orders;
    OrdersAreTotal(keys, r);
    PassesAreOneSort(rows, orders);
    AllCan(rows, keys, r);
    sorted := Ok(ordered);
  }

  lemma NoPasses(rows: seq<Row>, orders: seq<Order<Row>>)
    ensures KeyByKey(rows, orders[|orders|..]) == rows
  {
  }

  lemma OneMorePass(rows: seq<Row>, orders: seq<Order<Row>>, at: nat)
    requires at < |orders|
    ensures KeyByKey(rows, orders[at..]) == StableSort(KeyByKey(rows, orders[at + 1..]), orders[at])
  {
    assert orders[at..][1..] == orders[at + 1..];
  }

  lemma OneCannot(rows: seq<Row>, keys: seq<OrderKey>, r: Reading, at: nat)
    requires at < |keys| && !CanOrder(rows, keys[at], r)
    ensures !Orderable(rows, keys, r)
  {
  }

  lemma AllCan(rows: seq<Row>, keys: seq<OrderKey>, r: Reading)
    requires forall i :: 0 <= i < |keys| ==> CanOrder(rows, keys[i], r)
    ensures Orderable(rows, keys, r)
  {
  }

  lemma SameRowsOrderAlike(a: seq<Row>, b: seq<Row>, key: OrderKey, r: Reading)
    requires multiset(a) == multiset(b)
    ensures CanOrder(a, key, r) == CanOrder(b, key, r)
  {
    forall row ensures row in a <==> row in b {
      assert row in multiset(a) <==> row in multiset(b);
    }
  }

  /** Of two rows in the answer the first key they differ under says which comes
      first: the lesser ascending, the greater descending. */
  lemma RowsByTheFirstKey(rows: seq<Row>, keys: seq<OrderKey>, s: Statement, i: nat, k: nat, n: nat)
    requires SortedRows(rows, keys, s).Ok? && i < k < |SortedRows(rows, keys, s).value| && n < |keys|
    requires var sorted := SortedRows(rows, keys, s).value;
             forall m :: 0 <= m < n ==>
               KeyOf(keys[m].plan, sorted[i], Sorting(s)) == KeyOf(keys[m].plan, sorted[k], Sorting(s))
    ensures var sorted := SortedRows(rows, keys, s).value;
            var a, b := KeyOf(keys[n].plan, sorted[i], Sorting(s)), KeyOf(keys[n].plan, sorted[k], Sorting(s));
            if keys[n].descending then AtMost(b, a) else AtMost(a, b)
  {
    var sorted, orders := SortedRows(rows, keys, s).value, OrdersOf(keys, Sorting(s));
    SortedAreTheRows(rows, keys, s);
    var x, y := sorted[i], sorted[k];
    assert Lexicographic(orders)(x, y);
    hide SortedRows, KeyOf, AtMost, Lexicographic;
    forall m | 0 <= m < n ensures orders[m](x, y) && orders[m](y, x) {
      AtMostIsATotalOrder(KeyOf(keys[m].plan, x, Sorting(s)), KeyOf(keys[m].plan, y, Sorting(s)), Nothing);
    }
    AtMostIsATotalOrder(KeyOf(keys[n].plan, x, Sorting(s)), KeyOf(keys[n].plan, y, Sorting(s)), Nothing);
    if !orders[n](x, y) {
      FirstKeyDecides(y, x, orders, n);
    }
  }

  // ---- WITH TIES -----------------------------------------------------------

  /** From a place on, how far the rows go on saying what the sort said of the
      last row taken. */
  function ReachFrom(rows: seq<Row>, keys: seq<OrderKey>, r: Reading, last: seq<Key>, at: nat): (reach: nat)
    requires at <= |rows|
    ensures at <= reach <= |rows|
    decreases |rows| - at
  {
    if at < |rows| && Said(rows[at], keys, r) == last then ReachFrom(rows, keys, r, last, at + 1) else at
  }

  function Reach(rows: seq<Row>, keys: seq<OrderKey>, r: Reading, limit: nat): (reach: nat)
    requires 0 < limit <= |rows|
    ensures limit <= reach <= |rows|
  {
    ReachFrom(rows, keys, r, Said(rows[limit - 1], keys, r), limit)
  }

  /** Every key can be read of this row. */
  predicate CanBeSaid(row: Row, keys: seq<OrderKey>, r: Reading) {
    forall i :: 0 <= i < |keys| ==> ValueOf(keys[i].plan, row, r).Ok?
  }

  /** The same as it is scanned: the first row that cannot be read refuses it. */
  function ScanFrom(rows: seq<Row>, keys: seq<OrderKey>, r: Reading, last: seq<Key>, at: nat): Result<nat>
    requires at <= |rows|
    decreases |rows| - at
  {
    if at == |rows| then Ok(at)
    else if !CanBeSaid(rows[at], keys, r) then Err(Unreadable)
    else if Said(rows[at], keys, r) == last then ScanFrom(rows, keys, r, last, at + 1)
    else Ok(at)
  }

  function Scan(rows: seq<Row>, keys: seq<OrderKey>, r: Reading, limit: nat): Result<nat>
    requires 0 < limit <= |rows|
  {
    if CanBeSaid(rows[limit - 1], keys, r) then ScanFrom(rows, keys, r, Said(rows[limit - 1], keys, r), limit)
    else Err(Unreadable)
  }

  /** Where every row can be read the scan goes as far as the rows say the same. */
  lemma {:induction false} ScanReaches(rows: seq<Row>, keys: seq<OrderKey>, r: Reading, last: seq<Key>, at: nat)
    requires at <= |rows| && forall row :: row in rows ==> CanBeSaid(row, keys, r)
    ensures ScanFrom(rows, keys, r, last, at) == Ok(ReachFrom(rows, keys, r, last, at))
    decreases |rows| - at
  {
    if at < |rows| && Said(rows[at], keys, r) == last {
      ScanReaches(rows, keys, r, last, at + 1);
    }
  }

  lemma {:induction false} SameSaidTies(a: Row, b: Row, keys: seq<OrderKey>, r: Reading)
    ensures Said(a, keys, r) == Said(b, keys, r)
       <==> Lexicographic(OrdersOf(keys, r))(a, b) && Lexicographic(OrdersOf(keys, r))(b, a)
  {
    hide KeyOf, AtMost;
    if keys != [] {
      SameSaidTies(a, b, keys[1..], r);
      assert OrdersOf(keys, r)[1..] == OrdersOf(keys[1..], r);
      var x, y := KeyOf(keys[0].plan, a, r), KeyOf(keys[0].plan, b, r);
      AtMostIsATotalOrder(x, y, x);
      assert Said(a, keys, r)[1..] == Said(a, keys[1..], r) && Said(b, keys, r)[1..] == Said(b, keys[1..], r);
      assert Said(a, keys, r)[0] == x && Said(b, keys, r)[0] == y;
    }
  }

  lemma {:induction false} ReachStops(rows: seq<Row>, keys: seq<OrderKey>, r: Reading, last: seq<Key>, at: nat)
    requires at <= |rows|
    ensures var reach := ReachFrom(rows, keys, r, last, at);
            && (forall i :: at <= i < reach ==> Said(rows[i], keys, r) == last)
            && (reach < |rows| ==> Said(rows[reach], keys, r) != last)
    decreases |rows| - at
  {
    if at < |rows| && Said(rows[at], keys, r) == last {
      ReachStops(rows, keys, r, last, at + 1);
    }
  }

  lemma SplitAtTies<T(!new)>(rows: seq<T>, leq: Order<T>, limit: nat, reach: nat)
    requires TotalPreorder(leq) && Sorted(rows, leq) && 0 < limit <= reach <= |rows|
    requires forall i :: limit <= i < reach ==> leq(rows[i], rows[limit - 1])
    requires reach < |rows| ==> !leq(rows[reach], rows[limit - 1])
    ensures forall i :: 0 <= i < |rows| ==> (i < reach <==> leq(rows[i], rows[limit - 1]))
  {
    forall i | 0 <= i < |rows| ensures i < reach <==> leq(rows[i], rows[limit - 1]) {
      if i < limit {
        assert i < limit - 1 ==> leq(rows[i], rows[limit - 1]);
      } else if i >= reach {
        assert i > reach ==> leq(rows[reach], rows[i]);
      }
    }
  }

  /** Over sorted rows the reach takes exactly the rows whose keys are not after
      those of the last row TOP would have taken: nothing taken is beyond it,
      and nothing left ties with it. */
  lemma ReachTakesTheTies(rows: seq<Row>, keys: seq<OrderKey>, r: Reading, limit: nat)
    requires 0 < limit <= |rows| && Sorted(rows, Lexicographic(OrdersOf(keys, r)))
    ensures forall i :: 0 <= i < |rows| ==>
              (i < Reach(rows, keys, r, limit) <==> Lexicographic(OrdersOf(keys, r))(rows[i], rows[limit - 1]))
  {
    var leq := Lexicographic(OrdersOf(keys, r));
    var last, reach := rows[limit - 1], Reach(rows, keys, r, limit);
    OrdersAreTotal(keys, r);
    LexicographicIsTotal(OrdersOf(keys, r));
    ReachStops(rows, keys, r, Said(last, keys, r), limit);
    hide Said, OrdersOf, Lexicographic, ReachFrom;
    forall i | limit <= i < reach ensures leq(rows[i], last) {
      SameSaidTies(rows[i], last, keys, r);
    }
    if reach < |rows| {
      SameSaidTies(rows[reach], last, keys, r);
      assert leq(last, rows[reach]);
    }
    SplitAtTies(rows, leq, limit, reach);
  }

  // ---- the page ------------------------------------------------------------

  /** TOP as written: a count, or a share of the rows where PERCENT, reaching
      on where WITH TIES. */
  datatype Top = Top(limit: Option<nat>, share: bool, ties: bool)
  datatype Paging = Paging(top: Top, offset: nat, fetch: Option<nat>)

  /** A share of the rows, rounded up. */
  function ShareOf(limit: nat, rows: nat): nat {
    (limit * rows + 99) / 100
  }

  /** How many rows TOP WITH TIES reaches to, scanning on from the limit, or a
      refusal where a row scanned cannot be read. */
  method WithTies(top: Top, rows: seq<Row>, keys: seq<OrderKey>, r: Reading) returns (ties: Result<Option<nat>>)
    ensures ties == TiesTo(top, rows, keys, r)
  {
    if !top.ties {
      return Ok(None);
    }
    if top.limit.None? || top.limit.value == 0 || top.limit.value >= |rows| {
      return Ok(top.limit);
    }
    var limit := top.limit.value;
    if !CanBeSaid(rows[limit - 1], keys, r) {
      return Err(Unreadable);
    }
    var last := Said(rows[limit - 1], keys, r);
    var reach := limit;
    while reach < |rows|
      invariant limit <= reach <= |rows|
      invariant ScanFrom(rows, keys, r, last, reach) == Scan(rows, keys, r, limit)
    {
      if !CanBeSaid(rows[reach], keys, r) {
        return Err(Unreadable);
      }
      if Said(rows[reach], keys, r) != last {
        return Ok(Some(reach));
      }
      reach := reach + 1;
    }
    ties := Ok(Some(reach));
  }

  function TiesTo(top: Top, rows: seq<Row>, keys: seq<OrderKey>, r: Reading): Result<Option<nat>> {
    if !top.ties then Ok(None)
    else if top.limit.None? || top.limit.value == 0 || top.limit.value >= |rows| then Ok(top.limit)
    else
      var reach :- Scan(rows, keys, r, top.limit.value);
      Ok(Some(reach))
  }

  function Taken(rows: seq<Row>, n: nat): seq<Row> {
    if n < |rows| then rows[..n] else rows
  }

  function Page(p: Paging, rows: seq<Row>, ties: Option<nat>): seq<Row> {
    var counted := if p.top.limit.Some? && p.top.share then Some(ShareOf(p.top.limit.value, |rows|)) else p.top.limit;
    var limit := if ties.Some? then ties else counted;
    var top := if limit.Some? then Taken(rows, limit.value) else rows;
    var after := if p.offset < |top| then top[p.offset..] else [];
    if p.fetch.Some? then Taken(after, p.fetch.value) else after
  }

  function Lesser(a: nat, b: nat): nat {
    if a < b then a else b
  }

  /** A page is a window of the rows: as many as TOP, or its ties, or its share count,
      less those OFFSET passes over, and of the rest as many as FETCH takes, each at
      its distance from OFFSET. */
  lemma PageIsAWindow(p: Paging, rows: seq<Row>, ties: Option<nat>)
    ensures var counted := match ties
                           case Some(reach) => Lesser(reach, |rows|)
                           case None =>
                             if p.top.limit.None? then |rows|
                             else if p.top.share then Lesser(ShareOf(p.top.limit.value, |rows|), |rows|)
                             else Lesser(p.top.limit.value, |rows|);
            var left := if p.offset < counted then counted - p.offset else 0;
            var page := Page(p, rows, ties);
            && |page| == (if p.fetch.Some? then Lesser(p.fetch.value, left) else left)
            && forall i :: 0 <= i < |page| ==> p.offset + i < |rows| && page[i] == rows[p.offset + i]
  {
    hide ShareOf;
  }

  lemma PageOfTies(top: Top, rows: seq<Row>, ties: nat)
    ensures Page(Paging(top, 0, None), rows, Some(ties)) == Taken(rows, ties)
  {
  }

  /** Every key reads as the sort reads it and as the scan for ties does. */
  predicate KeysReadAlike(keys: seq<OrderKey>, s: Statement) {
    forall i :: 0 <= i < |keys| && keys[i].plan.Worked? ==> ReadsAlike(keys[i].plan.e, s.sorting, s.scanning)
  }

  /** A table of so many columns, and both ways of reading it. */
  predicate OfWidth(rows: seq<Row>, s: Statement, width: nat) {
    InRange(s.sorting, width) && InRange(s.scanning, width) && forall row :: row in rows ==> |row| == width
  }

  lemma ValuesAlike(row: Row, plan: Plan, s: Statement)
    requires plan.Worked? ==> ReadsAlike(plan.e, s.sorting, s.scanning)
    requires InRange(s.sorting, |row|) && InRange(s.scanning, |row|)
    ensures ValueOf(plan, row, Sorting(s)) == ValueOf(plan, row, Scanning(s))
  {
    if plan.Worked? {
      ReadAlikeIsWorthAlike(plan.e, s.sorting, s.scanning, row, s.ps, s.w);
    }
  }

  lemma {:induction false} SaidAlike(row: Row, keys: seq<OrderKey>, s: Statement)
    requires KeysReadAlike(keys, s) && InRange(s.sorting, |row|) && InRange(s.scanning, |row|)
    ensures Said(row, keys, Sorting(s)) == Said(row, keys, Scanning(s))
    ensures CanBeSaid(row, keys, Sorting(s)) == CanBeSaid(row, keys, Scanning(s))
  {
    forall i | 0 <= i < |keys|
      ensures ValueOf(keys[i].plan, row, Sorting(s)) == ValueOf(keys[i].plan, row, Scanning(s))
    {
      ValuesAlike(row, keys[i].plan, s);
    }
    if keys != [] {
      SaidAlike(row, keys[1..], s);
    }
  }

  /** What TOP n WITH TIES keeps of the sorted rows. */
  function Tied(limit: nat, rows: seq<Row>, keys: seq<OrderKey>, r: Reading): Result<seq<Row>> {
    var top := Top(Some(limit), false, true);
    var ties :- TiesTo(top, rows, keys, r);
    Ok(Page(Paging(top, 0, None), rows, ties))
  }

  /** Two ways of reading rows say the same of which rows tie, and refuse none of
      them. */
  predicate TieAlike(rows: seq<Row>, keys: seq<OrderKey>, s: Statement) {
    && (forall row :: row in rows ==> CanBeSaid(row, keys, Scanning(s)))
    && forall a, b :: a in rows && b in rows ==>
         (Said(a, keys, Sorting(s)) == Said(b, keys, Sorting(s))
          <==> Said(a, keys, Scanning(s)) == Said(b, keys, Scanning(s)))
  }

  lemma {:induction false} ReachAlike(rows: seq<Row>, keys: seq<OrderKey>, s: Statement, limit: nat, at: nat)
    requires TieAlike(rows, keys, s) && 0 < limit <= at <= |rows|
    ensures ReachFrom(rows, keys, Sorting(s), Said(rows[limit - 1], keys, Sorting(s)), at)
         == ReachFrom(rows, keys, Scanning(s), Said(rows[limit - 1], keys, Scanning(s)), at)
    decreases |rows| - at
  {
    assert rows[limit - 1] in rows;
    if at < |rows| {
      assert rows[at] in rows;
      ReachAlike(rows, keys, s, limit, at + 1);
    }
  }

  /** The scan over the sorted rows reaches the ties of the sort. */
  predicate ScansTheTies(rows: seq<Row>, keys: seq<OrderKey>, s: Statement, limit: nat)
    requires 0 < limit <= |rows|
  {
    Scan(rows, keys, Scanning(s), limit) == Ok(Reach(rows, keys, Sorting(s), limit))
  }

  lemma TieAlikeScansTheTies(rows: seq<Row>, keys: seq<OrderKey>, s: Statement, limit: nat)
    requires TieAlike(rows, keys, s) && 0 < limit <= |rows|
    ensures ScansTheTies(rows, keys, s, limit)
  {
    assert rows[limit - 1] in rows;
    ScanReaches(rows, keys, Scanning(s), Said(rows[limit - 1], keys, Scanning(s)), limit);
    ReachAlike(rows, keys, s, limit, limit);
  }

  lemma ReadAlikeTieAlike(rows: seq<Row>, keys: seq<OrderKey>, s: Statement, width: nat)
    requires KeysReadAlike(keys, s) && OfWidth(rows, s, width) && Orderable(rows, keys, Sorting(s))
    ensures TieAlike(rows, keys, s)
  {
    forall row | row in rows
      ensures CanBeSaid(row, keys, Scanning(s)) && Said(row, keys, Sorting(s)) == Said(row, keys, Scanning(s))
    {
      SaidAlike(row, keys, s);
      forall i | 0 <= i < |keys| ensures ValueOf(keys[i].plan, row, Sorting(s)).Ok? {
        assert CanOrder(rows, keys[i], Sorting(s));
      }
    }
  }

  lemma SortedAreTheRows(rows: seq<Row>, keys: seq<OrderKey>, s: Statement)
    requires SortedRows(rows, keys, s).Ok?
    ensures var sorted := SortedRows(rows, keys, s).value;
            && |sorted| == |rows| && multiset(sorted) == multiset(rows) && Orderable(sorted, keys, Sorting(s))
            && (forall row :: row in sorted <==> row in rows)
            && Sorted(sorted, Lexicographic(OrdersOf(keys, Sorting(s))))
  {
    var leq := Lexicographic(OrdersOf(keys, Sorting(s)));
    var sorted := SortedRows(rows, keys, s).value;
    OrdersAreTotal(keys, Sorting(s));
    LexicographicIsTotal(OrdersOf(keys, Sorting(s)));
    SortIsAStableSort(rows, leq);
    SortPermutes(rows, leq);
    assert |multiset(sorted)| == |multiset(rows)|;
    hide OrdersOf, Lexicographic, StableSort, CanOrder, Sorted;
    forall row ensures row in sorted <==> row in rows {
      assert row in multiset(sorted) <==> row in multiset(rows);
    }
    forall i | 0 <= i < |keys| ensures CanOrder(sorted, keys[i], Sorting(s)) {
      SameRowsOrderAlike(sorted, rows, keys[i], Sorting(s));
    }
  }

  /** TOP n WITH TIES over an ORDER BY whose keys read alike: of the sorted rows,
      those and only those whose keys are not after the n-th row's. */
  lemma TopWithTies(rows: seq<Row>, keys: seq<OrderKey>, s: Statement, limit: nat, width: nat)
    requires 0 < limit < |rows| && KeysReadAlike(keys, s) && OfWidth(rows, s, width)
    requires SortedRows(rows, keys, s).Ok?
    ensures var leq := Lexicographic(OrdersOf(keys, Sorting(s)));
            var sorted := SortedRows(rows, keys, s).value;
            var kept := Tied(limit, sorted, keys, Scanning(s));
            && |sorted| == |rows| && kept.Ok?
            && kept.value <= sorted && limit <= |kept.value|
            && forall i :: 0 <= i < |sorted| ==> (i < |kept.value| <==> leq(sorted[i], sorted[limit - 1]))
  {
    hide Lexicographic, StableSort, OrdersOf, ReachFrom, Page, KeysReadAlike, Orderable, TieAlike, Scan;
    SortedAreTheRows(rows, keys, s);
    var sorted := SortedRows(rows, keys, s).value;
    ReadAlikeTieAlike(sorted, keys, s, width);
    TieAlikeScansTheTies(sorted, keys, s, limit);
    ReachTakesTheTies(sorted, keys, Sorting(s), limit);
    PageOfTies(Top(Some(limit), false, true), sorted, Reach(sorted, keys, Sorting(s), limit));
  }

  /** Over a table keys read alike where no two columns differ only in case. */
  lemma CasedAlikeKeysReadAlike(keys: seq<OrderKey>, names: seq<string>, ps: Parameters, w: World)
    requires CasedAlike(names)
    ensures KeysReadAlike(keys, OverTable(names, ps, w))
  {
    forall i | 0 <= i < |keys| && keys[i].plan.Worked?
      ensures ReadsAlike(keys[i].plan.e, OverTable(names, ps, w).sorting, OverTable(names, ps, w).scanning)
    {
      CasedAlikeReadsAlike(keys[i].plan.e, names, ps, w);
    }
  }

  lemma {:induction false} CasedAlikeReadsAlike(e: Expr, names: seq<string>, ps: Parameters, w: World)
    requires CasedAlike(names)
    ensures ReadsAlike(e, OverTable(names, ps, w).sorting, OverTable(names, ps, w).scanning)
  {
    match e
    case Column(reference) =>
      FoldedNamesReadAlike(names, reference);
    case Call(_, arguments) =>
      forall argument | argument in arguments
        ensures ReadsAlike(argument, OverTable(names, ps, w).sorting, OverTable(names, ps, w).scanning)
      {
        CasedAlikeReadsAlike(argument, names, ps, w);
      }
    case _ =>
  }

  /** A share of the rows is at least its exact part of them and less than one
      row over. */
  lemma SharesRoundUp(limit: nat, rows: nat)
    ensures 100 * ShareOf(limit, rows) >= limit * rows
    ensures 100 * ShareOf(limit, rows) < limit * rows + 100
    ensures limit <= 100 ==> ShareOf(limit, rows) <= rows
  {
    if limit <= 100 {
      assert limit * rows <= 100 * rows;
    }
  }

  // ---- PERCENT with TIES ---------------------------------------------------

  /** What TOP PERCENT WITH TIES keeps, and what the ties of its share are. */
  function PercentWithTies(limit: nat, rows: seq<Row>, keys: seq<OrderKey>, r: Reading): Result<seq<Row>> {
    var top := Top(Some(limit), true, true);
    var ties :- TiesTo(top, rows, keys, r);
    Ok(Page(Paging(top, 0, None), rows, ties))
  }

  function TiesOfTheShare(limit: nat, rows: seq<Row>, keys: seq<OrderKey>, r: Reading): Result<seq<Row>> {
    var top := Top(Some(ShareOf(limit, |rows|)), false, true);
    var ties :- TiesTo(top, rows, keys, r);
    Ok(Page(Paging(top, 0, None), rows, ties))
  }

  function Counting(n: nat): (rows: seq<Row>)
    ensures |rows| == n && forall i :: 0 <= i < n ==> rows[i] == [Int(i)]
  {
    seq(n, i => [Int(i)])
  }

  lemma CountingNeverTies(n: nat, r: Reading, limit: nat)
    requires 0 < limit < n
    ensures Scan(Counting(n), [OrderKey(At(0), false)], r, limit) == Ok(limit)
  {
    var rows, keys := Counting(n), [OrderKey(At(0), false)];
    assert Said(rows[limit], keys, r)[0] == Number(limit as real);
    assert Said(rows[limit - 1], keys, r)[0] == Number((limit - 1) as real);
  }

  lemma TiesOfCounting(limit: nat, n: nat, share: bool, r: Reading)
    ensures TiesTo(Top(Some(limit), share, true), Counting(n), [OrderKey(At(0), false)], r) == Ok(Some(limit))
  {
    if 0 < limit < n {
      CountingNeverTies(n, r, limit);
    }
  }

  lemma KeptOfCounting(n: nat, r: Reading, limit: nat)
    ensures var keys := [OrderKey(At(0), false)];
            && PercentWithTies(limit, Counting(n), keys, r) == Ok(Taken(Counting(n), limit))
            && TiesOfTheShare(limit, Counting(n), keys, r) == Ok(Taken(Counting(n), ShareOf(limit, n)))
  {
    hide ShareOf, TiesTo, Page;
    TiesOfCounting(limit, n, true, r);
    TiesOfCounting(ShareOf(limit, n), n, false, r);
    PageOfTies(Top(Some(limit), true, true), Counting(n), limit);
    PageOfTies(Top(Some(ShareOf(limit, n)), false, true), Counting(n), ShareOf(limit, n));
  }

  lemma AgreeWhereCountsDo(limit: nat, rows: seq<Row>, keys: seq<OrderKey>, r: Reading)
    requires limit == ShareOf(limit, |rows|) || (limit >= |rows| && ShareOf(limit, |rows|) >= |rows|)
    ensures PercentWithTies(limit, rows, keys, r) == TiesOfTheShare(limit, rows, keys, r)
  {
    hide ShareOf, Page, Scan;
    var percent, counted := Top(Some(limit), true, true), Top(Some(ShareOf(limit, |rows|)), false, true);
    var a, b := TiesTo(percent, rows, keys, r), TiesTo(counted, rows, keys, r);
    if a.Ok? && b.Ok? {
      PageOfTies(percent, rows, a.value.value);
      PageOfTies(counted, rows, b.value.value);
    }
  }

  /** The ties are scanned from the number written, not from the share it
      stands for. TOP PERCENT WITH TIES keeps the ties of its share, whatever
      the rows and keys, exactly where the two come to the same count of these
      many rows. */
  lemma PercentTiesReadTheNumberWritten(limit: nat, n: nat, r: Reading)
    ensures (forall rows, keys :: |rows| == n ==>
             PercentWithTies(limit, rows, keys, r) == TiesOfTheShare(limit, rows, keys, r))
       <==> limit == ShareOf(limit, n) || (limit >= n && ShareOf(limit, n) >= n)
  {
    hide ShareOf, PercentWithTies, TiesOfTheShare;
    var share := ShareOf(limit, n);
    if limit == share || (limit >= n && share >= n) {
      forall rows: seq<Row>, keys | |rows| == n
        ensures PercentWithTies(limit, rows, keys, r) == TiesOfTheShare(limit, rows, keys, r)
      {
        AgreeWhereCountsDo(limit, rows, keys, r);
      }
    } else {
      var keys := [OrderKey(At(0), false)];
      KeptOfCounting(n, r, limit);
      assert |Taken(Counting(n), limit)| != |Taken(Counting(n), share)|;
      assert PercentWithTies(limit, Counting(n), keys, r) != TiesOfTheShare(limit, Counting(n), keys, r);
    }
  }

  /** Half of four rows that never tie: two are its share, and all four are kept. */
  lemma HalfOfFourKeepsAll(r: Reading)
    ensures var keys := [OrderKey(At(0), false)];
            && PercentWithTies(50, Counting(4), keys, r) == Ok(Counting(4))
            && TiesOfTheShare(50, Counting(4), keys, r) == Ok([[Int(0)], [Int(1)]])
  {
    KeptOfCounting(4, r, 50);
    hide PercentWithTies, TiesOfTheShare;
    assert ShareOf(50, 4) == 2;
    assert Taken(Counting(4), 2) == [[Int(0)], [Int(1)]];
  }
}
