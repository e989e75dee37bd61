/** GROUP BY, and the aggregates that reduce a group to one row. */
module Grouping {
  import opened Outcomes
  import opened Values

  /** What a row is grouped by: the collated values of the grouped columns. */
  type Sign = Row -> seq<Key>

  /** The rows of one group, as they stood. */
  function MembersOf(rows: seq<Row>, sign: Sign, key: seq<Key>): seq<Row> {
    if rows == [] then []
    else
      var n := |rows| - 1;
      if sign(rows[n]) == key then MembersOf(rows[..n], sign, key) + [rows[n]] else MembersOf(rows[..n], sign, key)
  }

  /** The groups there are, in the order their first rows came. */
  function GroupsOf(rows: seq<Row>, sign: Sign): seq<seq<Key>> {
    if rows == [] then []
    else
      var n := |rows| - 1;
      var before := GroupsOf(rows[..n], sign);
      if sign(rows[n]) in before then before else before + [sign(rows[n])]
  }

  /** The rows partitioned by what they are grouped by: a dictionary that keeps
      the order its keys were first used in. */
  method Partition(rows: seq<Row>, sign: Sign) returns (order: seq<seq<Key>>, partitions: map<seq<Key>, seq<Row>>)
    ensures order == GroupsOf(rows, sign)
    ensures forall key :: key in order <==> key in partitions
    ensures forall key :: key in order ==> partitions[key] == MembersOf(rows, sign, key)
  {
    hide MembersOf, GroupsOf;
    order, partitions := [], map[];
    assert rows[..0] == [];
    NoGroups(sign);
    for at := 0 to |rows|
      invariant order == GroupsOf(rows[..at], sign)
      invariant forall key :: key in order <==> key in partitions
      invariant forall key :: key in order ==> partitions[key] == MembersOf(rows[..at], sign, key)
    {
      var key := sign(rows[at]);
      MembersAdd(rows, sign, at);
      GroupsHold(rows[..at], sign);
      if key !in partitions {
        assert MembersOf(rows[..at], sign, key) == [];
        order := order + [key];
        partitions := partitions[key := [rows[at]]];
      } else {
        partitions := partitions[key := partitions[key] + [rows[at]]];
      }
    }
    assert rows[..|rows|] == rows;
  }

  lemma NoGroups(sign: Sign)
    ensures GroupsOf([], sign) == []
  {
  }

  lemma MembersAdd(rows: seq<Row>, sign: Sign, at: nat)
    requires at < |rows|
    ensures forall key :: MembersOf(rows[..at + 1], sign, key)
                       == if sign(rows[at]) == key then MembersOf(rows[..at], sign, key) + [rows[at]]
                          else MembersOf(rows[..at], sign, key)
    ensures GroupsOf(rows[..at + 1], sign)
            == if sign(rows[at]) in GroupsOf(rows[..at], sign) then GroupsOf(rows[..at], sign)
                                              else GroupsOf(rows[..at], sign) + [sign(rows[at])]
  {
    assert rows[..at + 1][..at] == rows[..at];
  }

  ghost predicate AllDifferent<T>(s: seq<T>) {
    forall i, k :: 0 <= i < k < |s| ==> s[i] != s[k]
  }

  lemma {:induction false} GroupsHold(rows: seq<Row>, sign: Sign)
    ensures forall key :: key in GroupsOf(rows, sign) <==> MembersOf(rows, sign, key) != []
    ensures AllDifferent(GroupsOf(rows, sign))
  {
    if rows != [] {
      GroupsHold(rows[..|rows| - 1], sign);
    }
  }

  lemma {:induction false} MembersShareTheirKey(rows: seq<Row>, sign: Sign, key: seq<Key>)
    ensures forall row :: row in MembersOf(rows, sign, key) <==> row in rows && sign(row) == key
  {
    if rows != [] {
      var n := |rows| - 1;
      MembersShareTheirKey(rows[..n], sign, key);
      assert rows == rows[..n] + [rows[n]];
    }
  }

  // ---- what is added up ----------------------------------------------------

  function Sum(rows: seq<Row>, of: Row -> int): int {
    if rows == [] then 0 else Sum(rows[..|rows| - 1], of) + of(rows[|rows| - 1])
  }

  /** A figure of each group, added up over the groups. */
  function SumOfGroups(order: seq<seq<Key>>, rows: seq<Row>, sign: Sign, of: Row -> int): int {
    if order == [] then 0
    else SumOfGroups(order[..|order| - 1], rows, sign, of) + Sum(MembersOf(rows, sign, order[|order| - 1]), of)
  }

  lemma SumAdds(rows: seq<Row>, row: Row, of: Row -> int)
    ensures Sum(rows + [row], of) == Sum(rows, of) + of(row)
  {
    assert (rows + [row])[..|rows|] == rows;
  }

  lemma {:induction false} OneMoreRow(order: seq<seq<Key>>, rows: seq<Row>, row: Row, sign: Sign, of: Row -> int)
    requires AllDifferent(order)
    ensures SumOfGroups(order, rows + [row], sign, of)
         == SumOfGroups(order, rows, sign, of) + (if sign(row) in order then of(row) else 0)
  {
    if order != [] {
      var n := |order| - 1;
      var key := order[n];
      OneMoreRow(order[..n], rows, row, sign, of);
      assert order == order[..n] + [key];
      assert (rows + [row])[..|rows|] == rows;
      SumAdds(MembersOf(rows, sign, key), row, of);
    }
  }

  lemma OneMoreGroup(order: seq<seq<Key>>, key: seq<Key>, rows: seq<Row>, sign: Sign, of: Row -> int)
    ensures SumOfGroups(order + [key], rows, sign, of)
         == SumOfGroups(order, rows, sign, of) + Sum(MembersOf(rows, sign, key), of)
  {
    assert (order + [key])[..|order|] == order;
  }

  /** Whatever is added up over each group adds up, over the groups, to what it
      is over all the rows. */
  lemma {:induction false} GroupsAddUp(rows: seq<Row>, sign: Sign, of: Row -> int)
    ensures SumOfGroups(GroupsOf(rows, sign), rows, sign, of) == Sum(rows, of)
  {
    if rows != [] {
      var n := |rows| - 1;
      var before, row := rows[..n], rows[n];
      var order, key := GroupsOf(before, sign), sign(row);
      assert rows == before + [row];
      GroupsAddUp(before, sign, of);
      GroupsHold(before, sign);
      OneMoreRow(order, before, row, sign, of);
      SumAdds(before, row, of);
      if key !in order {
        assert MembersOf(rows, sign, key) == [] + [row];
        SumAdds([], row, of);
        OneMoreGroup(order, key, rows, sign, of);
      }
    }
  }

  // ---- every row in exactly one group --------------------------------------

  function Is(one: Row): Row -> int {
    row => if row == one then 1 else 0
  }

  lemma {:induction false} SumCounts(rows: seq<Row>, one: Row)
    ensures Sum(rows, Is(one)) == multiset(rows)[one]
  {
    if rows != [] {
      var n := |rows| - 1;
      SumCounts(rows[..n], one);
      assert rows == rows[..n] + [rows[n]];
    }
  }

  /** Grouping is a partition: the groups are of different keys and none is
      empty, a row is in the group of its key and in no other, and each row is
      among the groups as often as it is among the rows. */
  lemma GroupingPartitions(rows: seq<Row>, sign: Sign)
    ensures AllDifferent(GroupsOf(rows, sign))
    ensures forall key :: key in GroupsOf(rows, sign) <==> exists row :: row in rows && sign(row) == key
    ensures forall key, row :: row in MembersOf(rows, sign, key) <==> row in rows && sign(row) == key
    ensures forall row :: SumOfGroups(GroupsOf(rows, sign), rows, sign, Is(row)) == multiset(rows)[row]
  {
    GroupsHold(rows, sign);
    forall key, row ensures row in MembersOf(rows, sign, key) <==> row in rows && sign(row) == key {
      MembersShareTheirKey(rows, sign, key);
    }
    forall key ensures key in GroupsOf(rows, sign) <==> exists row :: row in rows && sign(row) == key {
      MembersShareTheirKey(rows, sign, key);
      var members := MembersOf(rows, sign, key);
      if members != [] {
        assert members[0] in members;
      }
    }
    forall row ensures SumOfGroups(GroupsOf(rows, sign), rows, sign, Is(row)) == multiset(rows)[row] {
      GroupsAddUp(rows, sign, Is(row));
      SumCounts(rows, row);
    }
  }

  // ---- the aggregates ------------------------------------------------------

  function Cell(row: Row, at: nat): Value {
    if at < |row| then row[at] else Null
  }

  /** The values an aggregate reduces: those of its column that are not NULL. */
  function PresentIn(rows: seq<Row>, at: nat): seq<Value> {
    if rows == [] then []
    else
      var n := |rows| - 1;
      PresentIn(rows[..n], at) + (if Cell(rows[n], at).Null? then [] else [Cell(rows[n], at)])
  }

  /** COUNT(column) counts what is not NULL. */
  function CountOf(rows: seq<Row>, at: nat): int {
    |PresentIn(rows, at)|
  }

  function Whole(v: Value): int {
    if v.Int? then v.i else 0
  }

  function Totalled(values: seq<Value>): int {
    if values == [] then 0 else Totalled(values[..|values| - 1]) + Whole(values[|values| - 1])
  }

  /** The values added one after another. */
  method AddUp(values: seq<Value>) returns (total: int)
    ensures total == Totalled(values)
  {
    total := 0;
    for at := 0 to |values|
      invariant total == Totalled(values[..at])
    {
      assert values[..at + 1][..at] == values[..at];
      total := total + Whole(values[at]);
    }
    assert values[..|values|] == values;
  }

  /** SUM over a column of integers: NULL where there is nothing to add. */
  function SumOf(rows: seq<Row>, at: nat): Option<int> {
    var present := PresentIn(rows, at);
    if present == [] then None else Some(Totalled(present))
  }

  /** SUM is NULL exactly where no row holds a value there, and otherwise what adding
      them gives, as COUNT is how many do. */
  lemma {:induction false} SumIsOfThePresent(rows: seq<Row>, at: nat)
    ensures SumOf(rows, at).None? <==> forall row :: row in rows ==> Cell(row, at).Null?
    ensures SumOf(rows, at).None? <==> CountOf(rows, at) == 0
  {
    if rows != [] {
      var n := |rows| - 1;
      SumIsOfThePresent(rows[..n], at);
      assert rows == rows[..n] + [rows[n]];
    }
  }

  function OrZero(o: Option<int>): int {
    if o.Some? then o.value else 0
  }

  function Counting(at: nat): Row -> int {
    row => if Cell(row, at).Null? then 0 else 1
  }

  function Adding(at: nat): Row -> int {
    row => Whole(Cell(row, at))
  }

  lemma PresentAdds(rows: seq<Row>, row: Row, at: nat)
    ensures PresentIn(rows + [row], at)
         == if Cell(row, at).Null? then PresentIn(rows, at) else PresentIn(rows, at) + [Cell(row, at)]
  {
    assert (rows + [row])[..|rows|] == rows;
  }

  lemma TotalAdds(values: seq<Value>, v: Value)
    ensures Totalled(values + [v]) == Totalled(values) + Whole(v)
  {
    assert (values + [v])[..|values|] == values;
  }

  lemma {:induction false} AggregatesAreSums(rows: seq<Row>, at: nat)
    ensures CountOf(rows, at) == Sum(rows, Counting(at))
    ensures OrZero(SumOf(rows, at)) == Sum(rows, Adding(at))
  {
    if rows != [] {
      var n := |rows| - 1;
      var before, row := rows[..n], rows[n];
      assert rows == before + [row];
      AggregatesAreSums(before, at);
      PresentAdds(before, row, at);
      TotalAdds(PresentIn(before, at), Cell(row, at));
      SumAdds(before, row, Counting(at));
      SumAdds(before, row, Adding(at));
      hide PresentIn, Totalled, Sum;
    }
  }

  /** What a column of integers comes to in each group. */
  function GroupCounts(order: seq<seq<Key>>, rows: seq<Row>, sign: Sign, at: nat): seq<int> {
    if order == [] then []
    else
      var n := |order| - 1;
      GroupCounts(order[..n], rows, sign, at) + [CountOf(MembersOf(rows, sign, order[n]), at)]
  }

  function Sums(order: seq<seq<Key>>, rows: seq<Row>, sign: Sign, at: nat): seq<Option<int>> {
    if order == [] then []
    else
      var n := |order| - 1;
      Sums(order[..n], rows, sign, at) + [SumOf(MembersOf(rows, sign, order[n]), at)]
  }

  function Added(figures: seq<int>): int {
    if figures == [] then 0 else Added(figures[..|figures| - 1]) + figures[|figures| - 1]
  }

  function AddedOrZero(figures: seq<Option<int>>): int {
    if figures == [] then 0 else AddedOrZero(figures[..|figures| - 1]) + OrZero(figures[|figures| - 1])
  }

  lemma {:induction false} FiguresAreSums(order: seq<seq<Key>>, rows: seq<Row>, sign: Sign, at: nat)
    ensures Added(GroupCounts(order, rows, sign, at)) == SumOfGroups(order, rows, sign, Counting(at))
    ensures AddedOrZero(Sums(order, rows, sign, at)) == SumOfGroups(order, rows, sign, Adding(at))
  {
    hide CountOf, SumOf, Sum, MembersOf;
    if order != [] {
      var n := |order| - 1;
      FiguresAreSums(order[..n], rows, sign, at);
      AggregatesAreSums(MembersOf(rows, sign, order[n]), at);
      var counts, sums := GroupCounts(order[..n], rows, sign, at), Sums(order[..n], rows, sign, at);
      var members := MembersOf(rows, sign, order[n]);
      assert (counts + [CountOf(members, at)])[..|counts|] == counts;
      assert (sums + [SumOf(members, at)])[..|sums|] == sums;
    }
  }

  /** The groups' COUNTs add up to the whole COUNT, and their SUMs of integers,
      NULL read as nought, to the whole SUM. */
  lemma GroupFiguresAddUp(rows: seq<Row>, sign: Sign, at: nat)
    ensures Added(GroupCounts(GroupsOf(rows, sign), rows, sign, at)) == CountOf(rows, at)
    ensures AddedOrZero(Sums(GroupsOf(rows, sign), rows, sign, at)) == OrZero(SumOf(rows, at))
  {
    FiguresAreSums(GroupsOf(rows, sign), rows, sign, at);
    GroupsAddUp(rows, sign, Counting(at));
    GroupsAddUp(rows, sign, Adding(at));
    AggregatesAreSums(rows, at);
  }

  // ---- MIN -----------------------------------------------------------------

  /** The first value no other is before, under the collation. */
  function Least(values: seq<Value>): Option<Value> {
    if values == [] then None
    else
      var n := |values| - 1;
      var before := Least(values[..n]);
      if before.Some? && AtMost(Collated(before.value), Collated(values[n])) then before else Some(values[n])
  }

  lemma {:induction false} LeastIsLeast(values: seq<Value>)
    ensures Least(values).None? <==> values == []
    ensures Least(values).Some? ==> Least(values).value in values
                                    && forall v :: v in values ==> AtMost(Collated(Least(values).value), Collated(v))
  {
    hide AtMost, Collated;
    if values != [] {
      var n := |values| - 1;
      LeastIsLeast(values[..n]);
      assert values == values[..n] + [values[n]];
      var last := Collated(values[n]);
      AtMostIsATotalOrder(last, last, last);
      if Least(values[..n]).Some? {
        var least := Collated(Least(values[..n]).value);
        forall v | v in values[..n] ensures AtMost(Collated(Least(values).value), Collated(v)) {
          AtMostIsATotalOrder(last, least, Collated(v));
        }
      }
    }
  }

  function MinOf(rows: seq<Row>, at: nat): Option<Value> {
    Least(PresentIn(rows, at))
  }

  /** What MIN answers of each group that has any value to answer. */
  function Mins(order: seq<seq<Key>>, rows: seq<Row>, sign: Sign, at: nat): seq<Value> {
    if order == [] then []
    else
      var n := |order| - 1;
      var min := MinOf(MembersOf(rows, sign, order[n]), at);
      Mins(order[..n], rows, sign, at) + (if min.Some? then [min.value] else [])
  }

  lemma {:induction false} PresentAreThere(rows: seq<Row>, at: nat)
    ensures forall v :: v in PresentIn(rows, at) <==> !v.Null? && exists row :: row in rows && Cell(row, at) == v
  {
    if rows != [] {
      var n := |rows| - 1;
      PresentAreThere(rows[..n], at);
      assert rows == rows[..n] + [rows[n]];
    }
  }

  ghost predicate IsAGroupsMin(order: seq<seq<Key>>, rows: seq<Row>, sign: Sign, at: nat, v: Value) {
    exists key :: key in order && MinOf(MembersOf(rows, sign, key), at) == Some(v)
  }

  lemma {:induction false} MinsAreTheGroups(order: seq<seq<Key>>, rows: seq<Row>, sign: Sign, at: nat, v: Value)
    ensures v in Mins(order, rows, sign, at) <==> IsAGroupsMin(order, rows, sign, at, v)
  {
    hide MinOf, MembersOf;
    if order != [] {
      var n := |order| - 1;
      MinsAreTheGroups(order[..n], rows, sign, at, v);
      assert order == order[..n] + [order[n]];
      assert IsAGroupsMin(order, rows, sign, at, v)
        <==> IsAGroupsMin(order[..n], rows, sign, at, v) || MinOf(MembersOf(rows, sign, order[n]), at) == Some(v);
    }
  }

  lemma GroupMinIsPresent(rows: seq<Row>, sign: Sign, at: nat, key: seq<Key>, v: Value)
    requires MinOf(MembersOf(rows, sign, key), at) == Some(v)
    ensures v in PresentIn(rows, at)
  {
    var members := MembersOf(rows, sign, key);
    LeastIsLeast(PresentIn(members, at));
    PresentAreThere(members, at);
    PresentAreThere(rows, at);
    MembersShareTheirKey(rows, sign, key);
  }

  lemma PresentIsInItsGroup(rows: seq<Row>, sign: Sign, at: nat, v: Value) returns (key: seq<Key>)
    requires v in PresentIn(rows, at)
    ensures key in GroupsOf(rows, sign) && v in PresentIn(MembersOf(rows, sign, key), at)
  {
    PresentAreThere(rows, at);
    var row :| row in rows && Cell(row, at) == v;
    key := sign(row);
    MembersShareTheirKey(rows, sign, key);
    PresentAreThere(MembersOf(rows, sign, key), at);
    GroupsHold(rows, sign);
  }

  /** The MIN of the groups' MINs compares equal to the MIN of all the rows:
      there is one exactly where there is the other, and they have one key. */
  lemma MinOfMins(rows: seq<Row>, sign: Sign, at: nat)
    ensures var whole, mins := MinOf(rows, at), Least(Mins(GroupsOf(rows, sign), rows, sign, at));
            && (whole.Some? <==> mins.Some?)
            && (whole.Some? ==> Collated(whole.value) == Collated(mins.value))
  {
    var order := GroupsOf(rows, sign);
    var all, mins := PresentIn(rows, at), Mins(order, rows, sign, at);
    LeastIsLeast(all);
    LeastIsLeast(mins);
    hide AtMost, Collated, Least, PresentIn, Mins, MembersOf, GroupsOf, MinOf;
    if mins != [] {
      MinsAreTheGroups(order, rows, sign, at, mins[0]);
      var key :| key in order && MinOf(MembersOf(rows, sign, key), at) == Some(mins[0]);
      GroupMinIsPresent(rows, sign, at, key, mins[0]);
    }
    if all != [] {
      MinIsAmongMins(rows, sign, at, Least(all).value);
      var m := Least(mins).value;
      MinsAreTheGroups(order, rows, sign, at, m);
      var other :| other in order && MinOf(MembersOf(rows, sign, other), at) == Some(m);
      GroupMinIsPresent(rows, sign, at, other, m);
      var v :| v in mins && AtMost(Collated(v), Collated(Least(all).value));
      AtMostIsATotalOrder(Collated(m), Collated(v), Collated(Least(all).value));
      AtMostIsATotalOrder(Collated(m), Collated(Least(all).value), Collated(m));
    }
    assert MinOf(rows, at) == Least(all) by { MinIsLeast(rows, at); }
  }

  lemma MinIsLeast(rows: seq<Row>, at: nat)
    ensures MinOf(rows, at) == Least(PresentIn(rows, at))
  {
  }

  /** The group of a value has a MIN that is not after it. */
  lemma MinIsAmongMins(rows: seq<Row>, sign: Sign, at: nat, v: Value)
    requires v in PresentIn(rows, at)
    ensures exists m :: m in Mins(GroupsOf(rows, sign), rows, sign, at) && AtMost(Collated(m), Collated(v))
  {
    var key := PresentIsInItsGroup(rows, sign, at, v);
    var members := MembersOf(rows, sign, key);
    LeastIsLeast(PresentIn(members, at));
    MinIsLeast(members, at);
    var m := Least(PresentIn(members, at)).value;
    assert IsAGroupsMin(GroupsOf(rows, sign), rows, sign, at, m);
    MinsAreTheGroups(GroupsOf(rows, sign), rows, sign, at, m);
  }
}
