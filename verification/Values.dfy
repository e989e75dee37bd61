/** Results that may be missing or refused. */
module Outcomes {

  datatype Option<+T> = None | Some(value: T)

  /** The refusals that steer control: an expression that could not be
      evaluated, a join or apply past its ceiling, a correlated select asked
      about too many values. */
  datatype Refusal = Unreadable | TooLarge | TooManyAnswers

  datatype Result<+T> = Ok(value: T) | Err(refusal: Refusal) {
    predicate IsFailure() {
      Err?
    }

    function PropagateFailure<U>(): Result<U>
      requires Err?
    {
      Err(refusal)
    }

    function Extract(): T
      requires Ok?
    {
      value
    }
  }

  lemma Subsets<T>(a: set<T>, b: set<T>)
    requires a <= b
    ensures |a| <= |b|
  {
    assert |b - a| + |a| == |b| by { assert b == (b - a) + a; }
  }
}

/** Values, the declared collation, and SQL comparison.

    Text compares without regard to case and with trailing spaces padded, an
    integer and a float of the same size are one value, and a value beside one
    of another kind is converted first or refused. */
module Values {
  import opened Outcomes

  datatype Value = Null | Int(i: int) | Real(r: real) | Text(s: string) | Moment(t: int)

  /** What the collation compares by, and what a dictionary is keyed by once a
      value has been collated. Nothing is the key of NULL. */
  datatype Key = Nothing | Number(n: real) | Folded(s: string) | Instant(t: int)

  type Row = seq<Value>

  function Lower(c: char): char {
    if 'A' <= c <= 'Z' then (c as int + 32) as char else c
  }

  function Fold(s: string): (folded: string)
    ensures |folded| == |s|
  {
    seq(|s|, i requires 0 <= i < |s| => Lower(s[i]))
  }

  function TrimRight(s: string): string {
    if s != [] && s[|s| - 1] == ' ' then TrimRight(s[..|s| - 1]) else s
  }

  function Collated(v: Value): Key {
    match v
    case Null => Nothing
    case Int(i) => Number(i as real)
    case Real(r) => Number(r)
    case Text(s) => Folded(Fold(TrimRight(s)))
    case Moment(t) => Instant(t)
  }

  function Signature(row: Row): (keys: seq<Key>)
    ensures |keys| == |row|
    ensures forall i :: 0 <= i < |row| ==> keys[i] == Collated(row[i])
  {
    seq(|row|, i requires 0 <= i < |row| => Collated(row[i]))
  }

  // ---- the order of keys ---------------------------------------------------

  predicate TextAtMost(a: string, b: string) {
    a == [] || (b != [] && (a[0] < b[0] || (a[0] == b[0] && TextAtMost(a[1..], b[1..]))))
  }

  function Rank(k: Key): nat {
    match k
    case Nothing => 0
    case Number(_) => 1
    case Folded(_) => 2
    case Instant(_) => 3
  }

  /** NULL lowest, then the collation's order. Two kinds of value are never
      ordered against each other by a sort, which refuses them first; ranking
      them makes the order total. */
  predicate AtMost(a: Key, b: Key) {
    if Rank(a) != Rank(b) then Rank(a) < Rank(b)
    else match a
      case Nothing => true
      case Number(n) => n <= b.n
      case Folded(s) => TextAtMost(s, b.s)
      case Instant(t) => t <= b.t
  }

  lemma {:induction false} TextAtMostIsTotal(a: string, b: string)
    ensures TextAtMost(a, b) || TextAtMost(b, a)
    ensures TextAtMost(a, b) && TextAtMost(b, a) ==> a == b
  {
    if a != [] && b != [] {
      TextAtMostIsTotal(a[1..], b[1..]);
      assert a == [a[0]] + a[1..] && b == [b[0]] + b[1..];
    }
  }

  lemma {:induction false} TextAtMostIsTransitive(a: string, b: string, c: string)
    requires TextAtMost(a, b) && TextAtMost(b, c)
    ensures TextAtMost(a, c)
  {
    if a != [] && b != [] && c != [] && a[0] == b[0] == c[0] {
      TextAtMostIsTransitive(a[1..], b[1..], c[1..]);
    }
  }

  /** The order a sort uses is total, transitive and has no ties but equality
      of keys. */
  lemma AtMostIsATotalOrder(a: Key, b: Key, c: Key)
    ensures AtMost(a, b) || AtMost(b, a)
    ensures AtMost(a, b) && AtMost(b, a) ==> a == b
    ensures AtMost(a, b) && AtMost(b, c) ==> AtMost(a, c)
  {
    if a.Folded? && b.Folded? {
      TextAtMostIsTotal(a.s, b.s);
      if c.Folded? && AtMost(a, b) && AtMost(b, c) {
        TextAtMostIsTransitive(a.s, b.s, c.s);
      }
    }
  }

  // ---- comparison ----------------------------------------------------------

  /** What lies outside the expression layer: how text reads as a number, how
      a value reads as a moment, and what a scalar function or a further test
      (LIKE, BETWEEN and the rest) answers for the values it is handed. Every
      theorem holds for every world. */
  datatype World = World(
    numberIn: string -> Option<real>,
    momentOf: Value -> Option<int>,
    call: (string, seq<Value>) -> Result<Value>,
    test: (string, seq<Value>) -> Result<Ternary>)

  datatype Ternary = True | False | Unknown

  datatype Operator = Eq | Ne | Lt | Le | Gt | Ge

  function AsNumber(v: Value, w: World): Option<real> {
    match v
    case Int(i) => Some(i as real)
    case Real(r) => Some(r)
    case Text(s) => w.numberIn(s)
    case _ => None
  }

  function AsMoment(v: Value, w: World): Option<int> {
    if v.Moment? then Some(v.t) else w.momentOf(v)
  }

  predicate Holds(op: Operator, a: Key, b: Key) {
    match op
    case Eq => a == b
    case Ne => a != b
    case Lt => !AtMost(b, a)
    case Le => AtMost(a, b)
    case Gt => !AtMost(a, b)
    case Ge => AtMost(b, a)
  }

  /** One comparison of two values that are not NULL: a moment outranks text
      and numbers, a number outranks text, and a value that will not convert
      is refused rather than unequal. */
  function Compare(op: Operator, left: Value, right: Value, w: World): Result<bool> {
    if left.Moment? != right.Moment? then
      var a, b := AsMoment(left, w), AsMoment(right, w);
      if a.Some? && b.Some? then Ok(Holds(op, Instant(a.value), Instant(b.value))) else Err(Unreadable)
    else if left.Text? != right.Text? then
      var a, b := AsNumber(left, w), AsNumber(right, w);
      if a.Some? && b.Some? then Ok(Holds(op, Number(a.value), Number(b.value))) else Err(Unreadable)
    else
      Ok(Holds(op, Collated(left), Collated(right)))
  }

  // ---- what the order and the operators say --------------------------------

  /** The place where two texts first differ, or where the shorter ends. */
  function FirstDifference(a: string, b: string): (k: nat)
    ensures k <= |a| && k <= |b| && a[..k] == b[..k]
    ensures k < |a| && k < |b| ==> a[k] != b[k]
  {
    if a == [] || b == [] || a[0] != b[0] then 0
    else
      var k := 1 + FirstDifference(a[1..], b[1..]);
      assert a[..k] == [a[0]] + a[1..][..k - 1] && b[..k] == [b[0]] + b[1..][..k - 1];
      k
  }

  /** Texts are ordered by the first letter they differ in, and one that the other
      begins with comes first. */
  lemma {:induction false} TextsByTheFirstDifference(a: string, b: string)
    ensures var k := FirstDifference(a, b); TextAtMost(a, b) <==> k == |a| || (k < |b| && a[k] < b[k])
  {
    if a != [] && b != [] && a[0] == b[0] {
      TextsByTheFirstDifference(a[1..], b[1..]);
    }
  }

  /** NULL comes before everything else, smaller numbers before greater, and earlier
      moments before later. */
  lemma KeysByTheirSize(key: Key, a: real, b: real, s: int, t: int)
    ensures AtMost(Nothing, key) && (AtMost(key, Nothing) <==> key == Nothing)
    ensures AtMost(Number(a), Number(b)) <==> a <= b
    ensures AtMost(Instant(s), Instant(t)) <==> s <= t
  {
  }

  /** Each operator says of two integers, and of an integer and a float, what it says
      of their sizes. */
  lemma NumbersCompareBySize(a: int, b: int, r: real, w: World)
    ensures Compare(Eq, Int(a), Int(b), w) == Ok(a == b) && Compare(Ne, Int(a), Int(b), w) == Ok(a != b)
    ensures Compare(Lt, Int(a), Int(b), w) == Ok(a < b) && Compare(Le, Int(a), Int(b), w) == Ok(a <= b)
    ensures Compare(Gt, Int(a), Int(b), w) == Ok(a > b) && Compare(Ge, Int(a), Int(b), w) == Ok(a >= b)
    ensures Compare(Lt, Int(a), Real(r), w) == Ok(a as real < r) && Compare(Gt, Int(a), Real(r), w) == Ok(a as real > r)
    ensures Compare(Eq, Int(a), Real(r), w) == Ok(a as real == r)
  {
  }

  /** Of any two values an operator can be asked of, the six agree with one another. */
  lemma OperatorsAgree(a: Value, b: Value, w: World)
    requires Compare(Eq, a, b, w).Ok?
    ensures var eq, lt, gt := Compare(Eq, a, b, w), Compare(Lt, a, b, w), Compare(Gt, a, b, w);
            && lt.Ok? && gt.Ok? && Compare(Ne, a, b, w) == Ok(!eq.value)
            && Compare(Le, a, b, w) == Ok(!gt.value) && Compare(Ge, a, b, w) == Ok(!lt.value)
            && (eq.value || lt.value || gt.value) && !(lt.value && gt.value) && !(eq.value && (lt.value || gt.value))
            && Compare(Gt, b, a, w) == lt
  {
    hide AtMost;
    var x, y := Collated(a), Collated(b);
    AtMostIsATotalOrder(x, y, x);
    if a.Moment? != b.Moment? {
      AtMostIsATotalOrder(Instant(AsMoment(a, w).value), Instant(AsMoment(b, w).value), Nothing);
    } else if a.Text? != b.Text? {
      AtMostIsATotalOrder(Number(AsNumber(a, w).value), Number(AsNumber(b, w).value), Nothing);
    }
  }

  function Spaces(n: nat): string {
    if n == 0 then "" else Spaces(n - 1) + " "
  }

  lemma {:induction false} OnlySpacesAreTrimmed(s: string) returns (n: nat)
    ensures s == TrimRight(s) + Spaces(n) && (TrimRight(s) != "" ==> TrimRight(s)[|TrimRight(s)| - 1] != ' ')
  {
    n := 0;
    assert s + "" == s;
    if s != "" && s[|s| - 1] == ' ' {
      var m := OnlySpacesAreTrimmed(s[..|s| - 1]);
      n := m + 1;
      assert s == s[..|s| - 1] + " ";
    }
  }

  /** Two texts are one under the collation exactly where what is left of each once
      the spaces it ends in are gone is the same letter for letter, however cased;
      spaces in front count. */
  lemma TextsAreOne(a: string, b: string, w: World)
    ensures var x, y := TrimRight(a), TrimRight(b);
            Compare(Eq, Text(a), Text(b), w)
            == Ok(|x| == |y| && forall i :: 0 <= i < |x| && i < |y| ==> Lower(x[i]) == Lower(y[i]))
  {
    var x, y := TrimRight(a), TrimRight(b);
    hide TrimRight;
    if |x| == |y| && forall i :: 0 <= i < |x| && i < |y| ==> Lower(x[i]) == Lower(y[i]) {
      assert Fold(x) == Fold(y);
    }
    if Fold(x) == Fold(y) {
      forall i | 0 <= i < |x| && i < |y| ensures Lower(x[i]) == Lower(y[i]) {
        assert Fold(x)[i] == Fold(y)[i];
      }
    }
  }

  /** Beside a number a text is read as one first, beside a moment as a moment, and
      one that does not read so is refused. */
  lemma TextIsConverted(s: string, i: int, t: int, w: World)
    ensures var n := w.numberIn(s);
            Compare(Lt, Text(s), Int(i), w) == if n.Some? then Ok(n.value < i as real) else Err(Unreadable)
    ensures var m := w.momentOf(Text(s));
            Compare(Lt, Text(s), Moment(t), w) == if m.Some? then Ok(m.value < t) else Err(Unreadable)
  {
  }
}
