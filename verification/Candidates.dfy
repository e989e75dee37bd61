/** The right-hand side of an IN, or the values an EXISTS was matched on, kept
    ready to be looked a value up in: sets for what a set can answer, and the
    few candidates that could refuse rather than miss compared one at a time. */
module Lookup {
  import opened Outcomes
  import opened Values

  /** Which values a leftover candidate matters for. */
  datatype Mattering = AnyValue | ANumber | TextThatIsNotANumber

  datatype Candidates = Candidates(
    folded: set<Key>,
    numbersOfText: set<real>,
    numbersOfOthers: set<real>,
    awkward: seq<Value>,
    uncertain: seq<(Mattering, Value)>)

  const NOBODY := Candidates({}, {}, {}, [], [])

  function Offer(c: Candidates, other: Value, w: World): Candidates {
    match other
    case Null => c
    case Moment(_) => c.(awkward := c.awkward + [other], uncertain := c.uncertain + [(AnyValue, other)])
    case _ =>
      var known := c.(folded := c.folded + {Collated(other)});
      match AsNumber(other, w)
      case None => if other.Text? then known.(uncertain := c.uncertain + [(ANumber, other)]) else known
      case Some(n) =>
        if other.Text? then known.(numbersOfText := c.numbersOfText + {n})
        else known.(numbersOfOthers := c.numbersOfOthers + {n},
                    uncertain := c.uncertain + [(TextThatIsNotANumber, other)])
  }

  function CandidatesOf(offered: seq<Value>, w: World): Candidates {
    if offered == [] then NOBODY
    else Offer(CandidatesOf(offered[..|offered| - 1], w), offered[|offered| - 1], w)
  }

  /** The sets, filled by one pass over what was offered. */
  method Prepare(offered: seq<Value>, w: World) returns (c: Candidates)
    ensures c == CandidatesOf(offered, w)
  {
    var folded: set<Key>, numbersOfText: set<real>, numbersOfOthers: set<real> := {}, {}, {};
    var awkward: seq<Value>, uncertain: seq<(Mattering, Value)> := [], [];
    for at := 0 to |offered|
      invariant Candidates(folded, numbersOfText, numbersOfOthers, awkward, uncertain) == CandidatesOf(offered[..at], w)
    {
      assert offered[..at + 1][..at] == offered[..at];
      var other := offered[at];
      if other.Null? {
        continue;
      }
      if other.Moment? {
        awkward := awkward + [other];
        uncertain := uncertain + [(AnyValue, other)];
        continue;
      }
      folded := folded + {Collated(other)};
      var number := AsNumber(other, w);
      if number.None? {
        if other.Text? {
          uncertain := uncertain + [(ANumber, other)];
        }
      } else if other.Text? {
        numbersOfText := numbersOfText + {number.value};
      } else {
        numbersOfOthers := numbersOfOthers + {number.value};
        uncertain := uncertain + [(TextThatIsNotANumber, other)];
      }
    }
    assert offered[..|offered|] == offered;
    c := Candidates(folded, numbersOfText, numbersOfOthers, awkward, uncertain);
  }

  /** The candidates compared with every value, and the first that refuses
      values of one kind: any after it refuses the same way. */
  function UpToTheFirst(uncertain: seq<(Mattering, Value)>, refusing: Mattering, refused: bool): seq<Value> {
    if uncertain == [] then []
    else
      var (kind, one) := uncertain[0];
      if kind == AnyValue then [one] + UpToTheFirst(uncertain[1..], refusing, refused)
      else if kind == refusing && !refused then [one] + UpToTheFirst(uncertain[1..], refusing, true)
      else UpToTheFirst(uncertain[1..], refusing, refused)
  }

  function LeftOver(c: Candidates, value: Value, w: World): seq<Value> {
    if value.Int? || value.Real? then UpToTheFirst(c.uncertain, ANumber, false)
    else if value.Text? && AsNumber(value, w).None? then UpToTheFirst(c.uncertain, TextThatIsNotANumber, false)
    else UpToTheFirst(c.uncertain, AnyValue, true)
  }

  /** A folded key read back as the value it stands for. */
  function Spoken(k: Key): Value {
    match k
    case Nothing => Null
    case Number(n) => Real(n)
    case Folded(s) => Text(s)
    case Instant(t) => Moment(t)
  }

  function Contains(c: Candidates, value: Value, w: World): Result<bool> {
    if value.Moment? then
      if (exists k :: k in c.folded && AsMoment(Spoken(k), w).None?) then Err(Unreadable)
      else Ok((exists k :: k in c.folded && AsMoment(Spoken(k), w) == Some(value.t)) || value in c.awkward)
    else if Collated(value) in c.folded then Ok(true)
    else
      var number := AsNumber(value, w);
      if number.Some? && number.value in (if value.Text? then c.numbersOfOthers else c.numbersOfText) then Ok(true)
      else AnyMatch(value, LeftOver(c, value, w), w)
  }

  // ---- what a lookup has to answer -----------------------------------------

  /** The candidates compared one at a time: a match wins over a refusal
      wherever the two were written. */
  function AnyMatch(value: Value, candidates: seq<Value>, w: World): Result<bool> {
    if candidates == [] then Ok(false)
    else
      var here, later := Compare(Eq, value, candidates[0], w), AnyMatch(value, candidates[1..], w);
      if here == Ok(true) || later == Ok(true) then Ok(true)
      else if here.Err? || later.Err? then Err(Unreadable)
      else Ok(false)
  }

  function Present(values: seq<Value>): seq<Value> {
    if values == [] then []
    else (if values[0].Null? then [] else [values[0]]) + Present(values[1..])
  }

  ghost predicate MatchesSome(value: Value, candidates: seq<Value>, w: World) {
    exists c :: c in candidates && !c.Null? && Compare(Eq, value, c, w) == Ok(true)
  }

  ghost predicate Refused(value: Value, candidates: seq<Value>, w: World) {
    exists c :: c in candidates && !c.Null? && Compare(Eq, value, c, w).Err?
  }

  lemma {:induction false} PresentAreTheValues(values: seq<Value>)
    ensures forall v :: v in Present(values) <==> v in values && !v.Null?
  {
    if values != [] {
      PresentAreTheValues(values[1..]);
      assert values == [values[0]] + values[1..];
    }
  }

  lemma {:induction false} AnyMatchSays(value: Value, candidates: seq<Value>, w: World)
    requires Null !in candidates
    ensures AnyMatch(value, candidates, w) ==
            if MatchesSome(value, candidates, w) then Ok(true)
            else if Refused(value, candidates, w) then Err(Unreadable)
            else Ok(false)
  {
    if candidates != [] {
      AnyMatchSays(value, candidates[1..], w);
      assert candidates == [candidates[0]] + candidates[1..];
      var c := candidates[0];
      assert MatchesSome(value, candidates, w)
             <==> Compare(Eq, value, c, w) == Ok(true) || MatchesSome(value, candidates[1..], w);
      assert Refused(value, candidates, w) <==> Compare(Eq, value, c, w).Err? || Refused(value, candidates[1..], w);
    }
  }

  // ---- what the sets hold --------------------------------------------------

  ghost predicate IsFolded(offered: seq<Value>, k: Key) {
    exists v :: v in offered && !v.Null? && !v.Moment? && Collated(v) == k
  }

  ghost predicate IsNumberOf(offered: seq<Value>, text: bool, n: real, w: World) {
    exists v :: v in offered && !v.Null? && !v.Moment? && v.Text? == text && AsNumber(v, w) == Some(n)
  }

  predicate IsUncertain(v: Value, kind: Mattering, w: World) {
    match kind
    case AnyValue => v.Moment?
    case ANumber => v.Text? && AsNumber(v, w).None?
    case TextThatIsNotANumber => v.Int? || v.Real?
  }

  ghost predicate SetsAreFaithful(c: Candidates, offered: seq<Value>, w: World) {
    && (forall k :: k in c.folded <==> IsFolded(offered, k))
    && (forall n :: n in c.numbersOfText <==> IsNumberOf(offered, true, n, w))
    && (forall n :: n in c.numbersOfOthers <==> IsNumberOf(offered, false, n, w))
  }

  ghost predicate ListsAreFaithful(c: Candidates, offered: seq<Value>, w: World) {
    && (forall v :: v in c.awkward <==> v in offered && v.Moment?)
    && (forall kind, v :: (kind, v) in c.uncertain <==> v in offered && IsUncertain(v, kind, w))
  }

  ghost predicate Faithful(c: Candidates, offered: seq<Value>, w: World) {
    SetsAreFaithful(c, offered, w) && ListsAreFaithful(c, offered, w)
  }

  lemma {:induction false} CandidatesAreFaithful(offered: seq<Value>, w: World)
    ensures Faithful(CandidatesOf(offered, w), offered, w)
  {
    if offered != [] {
      var n := |offered| - 1;
      CandidatesAreFaithful(offered[..n], w);
      OfferFillsTheSets(CandidatesOf(offered[..n], w), offered[..n], offered[n], w);
      OfferFillsTheLists(CandidatesOf(offered[..n], w), offered[..n], offered[n], w);
      assert offered == offered[..n] + [offered[n]];
      hide SetsAreFaithful, ListsAreFaithful, Offer;
    }
  }

  lemma OfferFillsTheSets(c: Candidates, before: seq<Value>, v: Value, w: World)
    requires SetsAreFaithful(c, before, w)
    ensures SetsAreFaithful(Offer(c, v, w), before + [v], w)
  {
    var now := Offer(c, v, w);
    assert now.folded == if v.Null? || v.Moment? then c.folded else c.folded + {Collated(v)};
    hide IsFolded, IsNumberOf, Collated, AsNumber;
    forall k ensures k in now.folded <==> IsFolded(before + [v], k) {
      FoldedByOneMore(before, v, k);
    }
    forall m ensures m in now.numbersOfText <==> IsNumberOf(before + [v], true, m, w) {
      NumberByOneMore(before, v, true, m, w);
    }
    forall m ensures m in now.numbersOfOthers <==> IsNumberOf(before + [v], false, m, w) {
      NumberByOneMore(before, v, false, m, w);
    }
  }

  lemma OfferFillsTheLists(c: Candidates, before: seq<Value>, v: Value, w: World)
    requires ListsAreFaithful(c, before, w)
    ensures ListsAreFaithful(Offer(c, v, w), before + [v], w)
  {
    assert (v.Int? || v.Real?) ==> AsNumber(v, w).Some?;
    hide Collated, AsNumber;
  }

  lemma FoldedByOneMore(before: seq<Value>, v: Value, k: Key)
    ensures IsFolded(before + [v], k) <==> IsFolded(before, k) || (!v.Null? && !v.Moment? && Collated(v) == k)
  {
    hide Collated;
    assert v in before + [v];
  }

  lemma NumberByOneMore(before: seq<Value>, v: Value, text: bool, m: real, w: World)
    ensures IsNumberOf(before + [v], text, m, w)
       <==> IsNumberOf(before, text, m, w) || (!v.Null? && !v.Moment? && v.Text? == text && AsNumber(v, w) == Some(m))
  {
    hide AsNumber;
    assert v in before + [v];
  }

  /** What is left over holds every candidate compared with all values, one
      that refuses where there is any, and nothing else. */
  lemma {:induction false} UpToSays(uncertain: seq<(Mattering, Value)>, refusing: Mattering, refused: bool)
    ensures forall v :: (AnyValue, v) in uncertain ==> v in UpToTheFirst(uncertain, refusing, refused)
    ensures forall v :: v in UpToTheFirst(uncertain, refusing, refused) ==>
            (AnyValue, v) in uncertain || (refusing, v) in uncertain
    ensures !refused && (exists v :: (refusing, v) in uncertain)
            ==> exists v :: v in UpToTheFirst(uncertain, refusing, refused) && (refusing, v) in uncertain
    ensures refused ==> forall v :: v in UpToTheFirst(uncertain, refusing, refused) ==> (AnyValue, v) in uncertain
  {
    if uncertain != [] {
      var (kind, one) := uncertain[0];
      assert uncertain == [(kind, one)] + uncertain[1..];
      var now := refused || (kind == refusing && kind != AnyValue);
      UpToSays(uncertain[1..], refusing, now);
      if !refused && exists v :: (refusing, v) in uncertain {
        if kind == refusing {
          assert one in UpToTheFirst(uncertain, refusing, refused);
        } else {
          var v :| v in UpToTheFirst(uncertain[1..], refusing, now) && (refusing, v) in uncertain[1..];
          assert v in UpToTheFirst(uncertain, refusing, refused);
        }
      }
    }
  }

  /** Looking a value up answers what comparing it with every candidate in
      turn answers, refusals included. */
  lemma LookupIsComparingEach(offered: seq<Value>, value: Value, w: World)
    requires !value.Null? && !value.Moment?
    ensures Contains(CandidatesOf(offered, w), value, w) == AnyMatch(value, Present(offered), w)
  {
    var c := CandidatesOf(offered, w);
    CandidatesAreFaithful(offered, w);
    PresentAreTheValues(offered);
    AnyMatchSays(value, Present(offered), w);
    assert MatchesSome(value, Present(offered), w) == MatchesSome(value, offered, w);
    assert Refused(value, Present(offered), w) == Refused(value, offered, w);
    if Collated(value) in c.folded {
      FoldedIsAMatch(offered, value, w);
    } else if Contains(c, value, w) == Ok(true) && AsNumber(value, w).Some?
              && AsNumber(value, w).value in (if value.Text? then c.numbersOfOthers else c.numbersOfText) {
      var n := AsNumber(value, w).value;
      var v :| v in offered && !v.Null? && !v.Moment? && v.Text? != value.Text? && AsNumber(v, w) == Some(n);
      assert Compare(Eq, value, v, w) == Ok(true);
    } else {
      LeftOverDecides(offered, value, w);
    }
  }

  lemma FoldedIsAMatch(offered: seq<Value>, value: Value, w: World)
    requires !value.Null? && !value.Moment? && IsFolded(offered, Collated(value))
    ensures MatchesSome(value, offered, w)
  {
    var v :| v in offered && !v.Null? && !v.Moment? && Collated(v) == Collated(value);
    assert Compare(Eq, value, v, w) == Ok(true);
  }

  /** Where no set finds the value, only what is left over can match it, and
      it is refused exactly where some candidate refuses it. */
  lemma LeftOverDecides(offered: seq<Value>, value: Value, w: World)
    requires !value.Null? && !value.Moment?
    requires Collated(value) !in CandidatesOf(offered, w).folded
    requires var c := CandidatesOf(offered, w); var n := AsNumber(value, w);
             n.None? || n.value !in (if value.Text? then c.numbersOfOthers else c.numbersOfText)
    ensures var left := LeftOver(CandidatesOf(offered, w), value, w);
            AnyMatch(value, left, w) == if MatchesSome(value, offered, w) then Ok(true)
                                        else if Refused(value, offered, w) then Err(Unreadable) else Ok(false)
  {
    var c := CandidatesOf(offered, w);
    CandidatesAreFaithful(offered, w);
    var refusing := if value.Int? || value.Real? then ANumber
                    else if AsNumber(value, w).None? then TextThatIsNotANumber else AnyValue;
    var left := UpToTheFirst(c.uncertain, refusing, refusing == AnyValue);
    assert left == LeftOver(c, value, w);
    UpToSays(c.uncertain, refusing, refusing == AnyValue);
    forall v | v in left ensures v in offered && !v.Null? {
      assert (AnyValue, v) in c.uncertain || (refusing, v) in c.uncertain;
    }
    AnyMatchSays(value, left, w);
    if MatchesSome(value, offered, w) {
      var v :| v in offered && !v.Null? && Compare(Eq, value, v, w) == Ok(true);
      MatchIsInASet(offered, value, v, w);
      assert (AnyValue, v) in c.uncertain && v in left;
    }
    if Refused(value, offered, w) {
      var v :| v in offered && !v.Null? && Compare(Eq, value, v, w).Err?;
      if v.Moment? {
        assert (AnyValue, v) in c.uncertain && v in left;
      } else {
        assert IsUncertain(v, refusing, w) && (refusing, v) in c.uncertain;
        var u :| u in left && (refusing, u) in c.uncertain;
        assert Compare(Eq, value, u, w).Err?;
      }
      assert Refused(value, left, w);
    }
  }

  /** A match is one of the sets' or a moment. */
  lemma MatchIsInASet(offered: seq<Value>, value: Value, v: Value, w: World)
    requires !value.Null? && !value.Moment? && v in offered && !v.Null? && Compare(Eq, value, v, w) == Ok(true)
    ensures v.Moment? || IsFolded(offered, Collated(value))
         || (AsNumber(value, w).Some? && IsNumberOf(offered, !value.Text?, AsNumber(value, w).value, w))
  {
    if !v.Moment? && v.Text? != value.Text? {
      assert AsNumber(v, w) == AsNumber(value, w);
    }
  }

  /** Values the collation calls one read as one moment. */
  ghost predicate ReadsMomentsByKey(w: World) {
    forall a, b :: Collated(a) == Collated(b) ==> AsMoment(a, w) == AsMoment(b, w)
  }

  lemma FoldedReadsAlike(offered: seq<Value>, v: Value, w: World)
    requires ReadsMomentsByKey(w) && v in offered && !v.Null? && !v.Moment?
    ensures Collated(v) in CandidatesOf(offered, w).folded
    ensures AsMoment(Spoken(Collated(v)), w) == AsMoment(v, w)
  {
    CandidatesAreFaithful(offered, w);
    assert IsFolded(offered, Collated(v));
    SpokenKeepsTheKey(v);
  }

  lemma SomeValueIsFolded(offered: seq<Value>, k: Key, w: World) returns (v: Value)
    requires ReadsMomentsByKey(w) && k in CandidatesOf(offered, w).folded
    ensures v in offered && !v.Null? && !v.Moment? && AsMoment(v, w) == AsMoment(Spoken(k), w)
  {
    CandidatesAreFaithful(offered, w);
    v :| v in offered && !v.Null? && !v.Moment? && Collated(v) == k;
    SpokenKeepsTheKey(v);
  }

  lemma MomentsRefuse(offered: seq<Value>, value: Value, w: World)
    requires value.Moment? && ReadsMomentsByKey(w)
    ensures Refused(value, offered, w)
       <==> exists k :: k in CandidatesOf(offered, w).folded && AsMoment(Spoken(k), w).None?
  {
    var c := CandidatesOf(offered, w);
    if Refused(value, offered, w) {
      var v :| v in offered && !v.Null? && Compare(Eq, value, v, w).Err?;
      FoldedReadsAlike(offered, v, w);
    }
    if exists k :: k in c.folded && AsMoment(Spoken(k), w).None? {
      var k :| k in c.folded && AsMoment(Spoken(k), w).None?;
      var v := SomeValueIsFolded(offered, k, w);
      assert Compare(Eq, value, v, w).Err?;
    }
  }

  lemma MomentsMatch(offered: seq<Value>, value: Value, w: World)
    requires value.Moment? && ReadsMomentsByKey(w)
    ensures MatchesSome(value, offered, w)
       <==> (exists k :: k in CandidatesOf(offered, w).folded && AsMoment(Spoken(k), w) == Some(value.t))
            || value in CandidatesOf(offered, w).awkward
  {
    var c := CandidatesOf(offered, w);
    CandidatesAreFaithful(offered, w);
    if MatchesSome(value, offered, w) {
      var v :| v in offered && !v.Null? && Compare(Eq, value, v, w) == Ok(true);
      if !v.Moment? {
        FoldedReadsAlike(offered, v, w);
      }
    }
    if exists k :: k in c.folded && AsMoment(Spoken(k), w) == Some(value.t) {
      var k :| k in c.folded && AsMoment(Spoken(k), w) == Some(value.t);
      var v := SomeValueIsFolded(offered, k, w);
      assert Compare(Eq, value, v, w) == Ok(true);
    }
    if value in c.awkward {
      assert Compare(Eq, value, value, w) == Ok(true);
    }
  }

  /** A moment is looked up among the candidates read as moments, all of them
      before any is compared, so one that will not convert is refused even
      where another matches. */
  lemma LookupOfAMoment(offered: seq<Value>, value: Value, w: World)
    requires value.Moment? && ReadsMomentsByKey(w)
    ensures Contains(CandidatesOf(offered, w), value, w)
         == if Refused(value, offered, w) then Err(Unreadable) else Ok(MatchesSome(value, offered, w))
  {
    MomentsRefuse(offered, value, w);
    MomentsMatch(offered, value, w);
  }

  lemma {:induction false} FoldingTwiceIsOnce(s: string)
    ensures TrimRight(TrimRight(s)) == TrimRight(s)
    ensures Fold(Fold(s)) == Fold(s)
    ensures TrimRight(Fold(s)) == Fold(TrimRight(s))
  {
    if s != [] && s[|s| - 1] == ' ' {
      FoldingTwiceIsOnce(s[..|s| - 1]);
      assert Fold(s)[..|s| - 1] == Fold(s[..|s| - 1]);
    }
  }

  lemma SpokenKeepsTheKey(v: Value)
    ensures Collated(Spoken(Collated(v))) == Collated(v)
  {
    if v.Text? {
      FoldingTwiceIsOnce(v.s);
      FoldingTwiceIsOnce(TrimRight(v.s));
    }
  }
}
