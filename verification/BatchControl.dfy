/** Which statements of a batch run: of an IF the branch its condition chooses, of
    a WHILE its body while the condition holds, of a TRY its body until a statement
    fails and then its CATCH. */
module BatchControl {
  import opened Outcomes
  import opened Values
  import opened Batch
  import Transactions

  // ---- one statement after another -----------------------------------------

  /** Two runs of statements are the second run from where the first ends, unless
      the first is left or stopped. */
  lemma {:induction false} RunsInTurn(a: seq<Stmt>, b: seq<Stmt>, st: State, catching: bool)
    ensures var first := RunAll(a, st, catching);
            RunAll(a + b, st, catching) == if first.exit.Normal? then RunAll(b, first.state, catching) else first
    decreases |a|
  {
    if a == [] {
      assert a + b == b;
    } else {
      assert (a + b)[1..] == a[1..] + b;
      var end := Statement(a[0], st, catching);
      match end.exit
      case Normal =>
        RunsInTurn(a[1..], b, if ClearsTheError(a[0]) then end.state.(error := 0) else end.state, catching);
      case Raised(e) =>
        if catching && GoesOn(e, end.state.xactAbort) {
          RunsInTurn(a[1..], b, CarriedPast(end.state, e), catching);
        }
      case _ =>
    }
  }

  /** A SELECT of one integer. */
  function Answering(i: int): Stmt {
    Act((view: View) => Goes(view.store, Some([[Int(i)]]), Some(1)), true)
  }

  lemma AnsweringAnswers(i: int, st: State, catching: bool)
    ensures Statement(Answering(i), st, catching)
         == End(st.(answers := st.answers + [Rows([[Int(i)]])], rowCount := 1), Normal)
    ensures RunAll([Answering(i)], st, catching)
         == End(st.(answers := st.answers + [Rows([[Int(i)]])], rowCount := 1, error := 0), Normal)
  {
    assert [Answering(i)][1..] == [];
  }

  // ---- IF ------------------------------------------------------------------

  /** The branch an IF does not choose is idle, whatever it holds, and the one it
      chooses answers what it answers from @@ROWCOUNT and @@ERROR at nought; where
      the condition cannot be asked neither runs. */
  lemma UnchosenBranchIsIdle(condition: View -> Says, thn: seq<Stmt>, els: seq<Stmt>, other: seq<Stmt>, st: State,
                             catching: bool)
    ensures condition(ViewOf(st)) == Says(true) ==>
              && Statement(If(condition, thn, els), st, catching) == Statement(If(condition, thn, other), st, catching)
              && Statement(If(condition, thn, els), st, catching).state.answers
                 == RunAll(thn, st.(rowCount := 0, error := 0), catching).state.answers
    ensures condition(ViewOf(st)) == Says(false) ==>
              && Statement(If(condition, thn, els), st, catching) == Statement(If(condition, other, els), st, catching)
              && Statement(If(condition, thn, els), st, catching).state.answers
                 == RunAll(els, st.(rowCount := 0, error := 0), catching).state.answers
    ensures condition(ViewOf(st)).CannotSay? ==>
              Statement(If(condition, thn, els), st, catching) == End(st, Raised(condition(ViewOf(st)).error))
  {
  }

  /** IF 1 = 1 SELECT 1 ELSE SELECT 2 answers 1, and IF 1 = 2 the other. */
  lemma IfAnswersItsBranch(holds: bool, st: State)
    requires st.answers == []
    ensures RunAll([If((view: View) => Says(holds), [Answering(1)], [Answering(2)])], st, true).state.answers
         == [Rows([[Int(if holds then 1 else 2)]])]
  {
    var s := If((view: View) => Says(holds), [Answering(1)], [Answering(2)]);
    var asked := st.(rowCount := 0, error := 0);
    AnsweringAnswers(1, asked, true);
    AnsweringAnswers(2, asked, true);
    UnchosenBranchIsIdle(s.condition, s.thn, s.els, [], st, true);
    assert Statement(s, st, true).exit.Normal?;
    assert [s][1..] == [];
    hide Statement;
  }

  // ---- WHILE ---------------------------------------------------------------

  /** @i, as a number. */
  function Counter(store: Store): int {
    if "i" in store && store["i"].Int? then store["i"].i else 0
  }

  /** SELECT @i and then SET @i = @i + 1, as one statement. */
  const COUNTING: Stmt :=
    Act((view: View) =>
          Goes(view.store["i" := Int(Counter(view.store) + 1)], Some([[Int(Counter(view.store))]]), Some(1)),
        true)

  /** @i < n. */
  function Below(n: int): View -> Says {
    (view: View) => Says(Counter(view.store) < n)
  }

  function Counted(i: int, n: nat): (answers: seq<Answer>)
    ensures |answers| == n && forall k :: 0 <= k < n ==> answers[k] == Rows([[Int(i + k)]])
  {
    seq(n, k requires 0 <= k < n => Rows([[Int(i + k)]]))
  }

  lemma CountingCounts(st: State, catching: bool)
    ensures var end := RunAll([COUNTING], st, catching);
            && end.exit.Normal? && Counter(end.state.store) == Counter(st.store) + 1
            && end.state.answers == st.answers + [Rows([[Int(Counter(st.store))]])]
  {
    assert [COUNTING][1..] == [];
  }

  /** A WHILE runs its body once for each turn its condition holds, in order, and
      stops when it does not: WHILE @i < n counting up answers i, i + 1 and so on to
      n - 1, for any i and n not too far apart, and where they are it is stopped at
      the bound with what it answered by then. */
  lemma {:induction false} LoopsCountUp(n: int, st: State, turns: nat, catching: bool)
    requires turns <= MAX_LOOP_TURNS
    ensures var i, end := Counter(st.store), Looped(Below(n), [COUNTING], st, turns, catching);
            var left := if i < n then n - i else 0;
            if turns + left <= MAX_LOOP_TURNS then
              && end.exit.Normal? && end.turns == turns + left && end.state.error == 0
              && Counter(end.state.store) == i + left && end.state.answers == st.answers + Counted(i, left)
            else
              && end.exit == Raised(Error(UNSUPPORTED, None)) && end.turns == MAX_LOOP_TURNS
              && end.state.answers == st.answers + Counted(i, MAX_LOOP_TURNS - turns)
    decreases MAX_LOOP_TURNS - turns
  {
    var i := Counter(st.store);
    LoopTurns(n, st, turns, catching);
    assert Counted(i, 0) == [] && st.answers + [] == st.answers;
    if i < n && turns < MAX_LOOP_TURNS {
      var asked := Batch.Asked(st);
      CountingCounts(asked, catching);
      var end := RunAll([COUNTING], asked, catching);
      hide RunAll, Looped;
      LoopsCountUp(n, end.state, turns + 1, catching);
      var more := if turns + (n - i) <= MAX_LOOP_TURNS then n - i - 1 else MAX_LOOP_TURNS - turns - 1;
      CountsOnFromOne(st.answers, i, more);
    }
  }

  lemma CountsOnFromOne(answers: seq<Answer>, i: int, more: nat)
    ensures (answers + [Rows([[Int(i)]])]) + Counted(i + 1, more) == answers + Counted(i, more + 1)
  {
    assert Counted(i, more + 1) == [Rows([[Int(i)]])] + Counted(i + 1, more);
  }

  /** One turn of the loop, or its end. */
  lemma LoopTurns(n: int, st: State, turns: nat, catching: bool)
    requires turns <= MAX_LOOP_TURNS
    ensures var asked, end := Batch.Asked(st), Looped(Below(n), [COUNTING], st, turns, catching);
            if Counter(st.store) >= n then end == LoopEnd(asked, Normal, turns)
            else if turns == MAX_LOOP_TURNS then end == LoopEnd(asked, Raised(Error(UNSUPPORTED, None)), turns)
            else
              RunAll([COUNTING], asked, catching).exit.Normal? ==>
                end == Looped(Below(n), [COUNTING], RunAll([COUNTING], asked, catching).state, turns + 1, catching)
  {
    hide RunAll;
  }

  /** The same of the statement. */
  lemma WhileCountsUp(n: nat, st: State, catching: bool)
    requires n <= MAX_LOOP_TURNS && Counter(st.store) == 0
    ensures var end := Statement(While(Below(n), [COUNTING]), st, catching);
            end.exit.Normal? && Counter(end.state.store) == n && end.state.answers == st.answers + Counted(0, n)
  {
    LoopsCountUp(n, st, 0, catching);
    hide Looped;
  }

  /** A BREAK ends the loop there, and a CONTINUE the turn: what stands behind either
      in the body is idle. */
  lemma BehindALeaveIsIdle(before: seq<Stmt>, breaks: bool, behind: seq<Stmt>, st: State, catching: bool)
    ensures RunAll(before + [Leave(breaks)] + behind, st, catching) == RunAll(before + [Leave(breaks)], st, catching)
    ensures RunAll(before, st, catching).exit.Normal? ==>
              RunAll(before + [Leave(breaks)] + behind, st, catching)
              == End(RunAll(before, st, catching).state, Left(breaks))
  {
    RunsInTurn(before, [Leave(breaks)], st, catching);
    RunsInTurn(before + [Leave(breaks)], behind, st, catching);
  }

  /** So with a BREAK behind it the counting body runs once, and with a CONTINUE as
      often as without. */
  lemma BreakEndsTheLoop(n: int, st: State, catching: bool)
    requires Counter(st.store) < n
    ensures var end := Statement(While(Below(n), [COUNTING, Leave(true)]), st, catching);
            && end.exit.Normal? && Counter(end.state.store) == Counter(st.store) + 1
            && end.state.answers == st.answers + Counted(Counter(st.store), 1)
  {
    var asked := Batch.Asked(st);
    CountingCounts(asked, catching);
    BehindALeaveIsIdle([COUNTING], true, [], asked, catching);
    assert [COUNTING] + [Leave(true)] + [] == [COUNTING, Leave(true)];
    hide RunAll;
  }

  lemma {:induction false} ContinueTurnsAgain(n: int, st: State, turns: nat, catching: bool, behind: seq<Stmt>)
    requires turns <= MAX_LOOP_TURNS
    ensures var body := [COUNTING] + [Leave(false)] + behind;
            Looped(Below(n), body, st, turns, catching) == Looped(Below(n), [COUNTING], st, turns, catching)
    decreases MAX_LOOP_TURNS - turns
  {
    var asked := Batch.Asked(st);
    CountingCounts(asked, catching);
    BehindALeaveIsIdle([COUNTING], false, behind, asked, catching);
    if Counter(st.store) < n && turns < MAX_LOOP_TURNS {
      ContinueTurnsAgain(n, RunAll([COUNTING], asked, catching).state, turns + 1, catching, behind);
    }
    hide RunAll;
  }

  // ---- TRY -----------------------------------------------------------------

  /** Statements of a TRY run one after another until one does not end normally, and
      what stands behind that one is idle. */
  lemma {:induction false} TriesInTurn(a: seq<Stmt>, b: seq<Stmt>, st: State)
    ensures var first := Tried(a, st);
            Tried(a + b, st) == if first.exit.Normal? then Tried(b, first.state) else first
    decreases |a|
  {
    if a == [] {
      assert a + b == b;
    } else {
      assert (a + b)[1..] == a[1..] + b;
      var end := Statement(a[0], st, false);
      if end.exit.Normal? {
        TriesInTurn(a[1..], b, end.state);
      }
    }
  }

  /** A CATCH is idle where its TRY does not fail. */
  lemma UnraisedCatchIsIdle(body: seq<Stmt>, catch: seq<Stmt>, other: seq<Stmt>, st: State, catching: bool)
    requires !Tried(body, st).exit.Raised?
    ensures Statement(Try(body, catch), st, catching) == Statement(Try(body, other), st, catching)
    ensures Statement(Try(body, catch), st, catching).state.answers == Tried(body, st).state.answers
  {
  }

  /** SELECT ERROR_NUMBER(), or 0 where nothing is caught. */
  const NUMBER_CAUGHT: Stmt :=
    Act((view: View) =>
          var number := if view.caught.Some? then view.caught.value.number else 0;
          Goes(view.store, Some([[Int(number), Int(view.error)]]), Some(1)),
        true)

  /** Where it fails the CATCH runs from there, and reads what sent it there both
      ways: a TRY that answers, fails and would answer again, with a CATCH that
      answers ERROR_NUMBER() and @@ERROR, answers the first and the error twice
      over, and outside it nothing is caught any more. */
  lemma FailedTryRunsItsCatch(number: int, st: State, catching: bool)
    ensures var raising := Act((view: View) => Raises(view.store, Error(number, None)), true);
            var end := Statement(Try([Answering(1), raising, Answering(2)], [NUMBER_CAUGHT]), st, catching);
            && end.exit.Normal? && end.state.caught.None?
            && end.state.answers == st.answers + [Rows([[Int(1)]]), Rows([[Int(number), Int(number)]])]
  {
    var raising := Act((view: View) => Raises(view.store, Error(number, None)), true);
    var first := st.(answers := st.answers + [Rows([[Int(1)]])], rowCount := 1);
    AnsweringAnswers(1, st, false);
    var body := [Answering(1), raising, Answering(2)];
    assert body[1..] == [raising, Answering(2)];
    assert Statement(raising, first, false) == End(first, Raised(Error(number, None)));
    assert Tried(body[1..], first) == End(first, Raised(Error(number, None)));
    assert Tried(body, st) == End(first, Raised(Error(number, None)));
    var caught := first.(error := number, caught := Some(Error(number, None)));
    var answered := caught.(answers := caught.answers + [Rows([[Int(number), Int(number)]])], rowCount := 1);
    assert [NUMBER_CAUGHT][1..] == [];
    assert Statement(NUMBER_CAUGHT, caught, catching) == End(answered, Normal);
    assert RunAll([NUMBER_CAUGHT], caught, catching) == End(answered.(error := 0), Normal);
    assert (st.answers + [Rows([[Int(1)]])]) + [Rows([[Int(number), Int(number)]])]
        == st.answers + [Rows([[Int(1)]]), Rows([[Int(number), Int(number)]])];
  }

  // ---- errors that stop a batch --------------------------------------------

  function Failing(number: int): Stmt {
    Act((view: View) => Raises(view.store, Error(number, None)), true)
  }

  /** A batch that answers, fails and would answer again. */
  function Interrupted(number: int): seq<Stmt> {
    [Answering(1), Failing(number), Answering(2)]
  }

  lemma InterruptedRuns(number: int, st: State)
    requires st.answers == []
    ensures var end, one, two := RunAll(Interrupted(number), st, true), Rows([[Int(1)]]), Rows([[Int(2)]]);
            var e := Error(number, None);
            && end.state.xactAbort == st.xactAbort && end.state.transactions == st.transactions
            && if GoesOn(e, st.xactAbort) then end.exit.Normal? && end.state.answers == [one, Failed(e), two]
               else end.exit == Raised(e) && end.state.answers == [one]
  {
    var stmts, e := Interrupted(number), Error(number, None);
    var first := st.(answers := st.answers + [Rows([[Int(1)]])], rowCount := 1);
    var cleared := first.(error := 0);
    AnsweringAnswers(1, st, true);
    AnsweringAnswers(2, CarriedPast(cleared, e), true);
    assert stmts[1..] == [Failing(number), Answering(2)] && stmts[1..][1..] == [Answering(2)];
    assert Statement(Failing(number), cleared, true) == End(cleared, Raised(e));
    assert RunAll(stmts, st, true) == RunAll(stmts[1..], cleared, true);
  }

  /** A divide by zero leaves the batch going unless the setting is on, where what
      answered before it is kept and the transaction is lost; a table that is not
      there stops it, what answered kept and the transaction too unless the setting
      is on; a column that is not there throws away what answered, and the
      transaction; and what would not have compiled throws away what answered and
      keeps the transaction. */
  lemma WhatAnErrorLeaves(number: int, st: State)
    requires st.answers == [] && st.transactions.count > 0
    ensures var end := RunAll(Interrupted(number), st, true);
            var one, two, e := Rows([[Int(1)]]), Rows([[Int(2)]]), Failed(Error(number, None));
            var sent, kept := SentOf(end), AfterBatch(end).transactions == st.transactions;
            && (number == 8134 && !st.xactAbort ==> sent == Sent([one, e, two]) && kept)
            && (number == 8134 && st.xactAbort ==> sent == Sent([one, e]) && !kept)
            && (number == 3701 ==> sent == Sent([one, e, two]) && kept)
            && (number == 208 ==> sent == Sent([one, e]) && kept == !st.xactAbort)
            && (number == 207 ==> sent == Sent([e]) && !kept)
            && (number == 102 || number == 50000 ==> sent == Sent([e]) && kept)
  {
    hide *;
    ByItsNumber(number, st.xactAbort);
    InterruptedLeaves(number, st);
  }

  lemma InterruptedLeaves(number: int, st: State)
    requires st.answers == [] && st.transactions.count > 0
    ensures var end, e, on := RunAll(Interrupted(number), st, true), Error(number, None), st.xactAbort;
            var one, two := Rows([[Int(1)]]), Rows([[Int(2)]]);
            && SentOf(end) == (if GoesOn(e, on) then Sent([one, Failed(e), two])
                               else if Keeps(e, on) then Sent([one, Failed(e)]) else Sent([Failed(e)]))
            && (AfterBatch(end).transactions == st.transactions <==> GoesOn(e, on) || !RollsBack(e, on))
  {
    InterruptedRuns(number, st);
    hide RunAll, GoesOn, Keeps, RollsBack;
  }

  lemma ByItsNumber(number: int, on: bool)
    ensures var e := Error(number, None);
            && GoesOn(Error(8134, None), on) == !on && Keeps(Error(8134, None), true)
            && RollsBack(Error(8134, None), on)
            && GoesOn(Error(3701, None), on)
            && (number in {208, 207, 102, 50000} ==> !GoesOn(e, on))
            && Keeps(Error(208, None), on) && !Keeps(Error(207, None), on)
            && !Keeps(Error(102, None), on) && !Keeps(Error(50000, None), on)
            && RollsBack(Error(208, None), on) == on && RollsBack(Error(207, None), on)
            && !RollsBack(Error(102, None), on) && !RollsBack(Error(50000, None), on)
  {
  }

  /** A bare THROW raises again what its CATCH caught and ends the batch there, even
      where that error would not have. */
  lemma ThrowEndsTheBatch(st: State)
    requires st.answers == [] && !st.xactAbort
    ensures var end := RunAll([Try([Failing(8134)], [Rethrow]), Answering(1)], st, true);
            end.exit == Raised(Error(8134, Some(false))) && SentOf(end) == Sent([Failed(Error(8134, Some(false)))])
  {
    var s := Try([Failing(8134)], [Rethrow]);
    var e := Error(8134, None);
    assert Statement(Failing(8134), st, false) == End(st, Raised(e));
    assert Tried([Failing(8134)], st) == End(st, Raised(e));
    var caught := st.(error := 8134, caught := Some(e));
    assert Statement(Rethrow, caught, true) == End(caught, Raised(Error(8134, Some(false))));
    assert [Rethrow][1..] == [];
    assert RunAll([Rethrow], caught, true).exit == Raised(Error(8134, Some(false)));
    assert RunAll([Rethrow], caught, true).state.answers == [];
    assert Statement(s, st, true).exit == Raised(Error(8134, Some(false)));
  }

  /** SELECT @@ROWCOUNT. */
  const ROWS_COUNTED: Stmt := Act((view: View) => Goes(view.store, Some([[Int(view.rowCount)]]), Some(1)), true)

  /** @@ROWCOUNT is what the statement before answered, nought where it failed and
      nought once an IF has asked its condition. */
  lemma CountIsOfTheLast(st: State)
    requires st.answers == [] && !st.xactAbort
    ensures RunAll([Answering(7), ROWS_COUNTED], st, true).state.answers == [Rows([[Int(7)]]), Rows([[Int(1)]])]
    ensures RunAll([Failing(8134), ROWS_COUNTED], st, true).state.answers
         == [Failed(Error(8134, None)), Rows([[Int(0)]])]
    ensures RunAll([If((view: View) => Says(true), [ROWS_COUNTED], [])], st, true).state.answers == [Rows([[Int(0)]])]
  {
    var e := Error(8134, None);
    RunsInTurn([Answering(7)], [ROWS_COUNTED], st, true);
    AnsweringAnswers(7, st, true);
    assert [Answering(7)] + [ROWS_COUNTED] == [Answering(7), ROWS_COUNTED];
    CountIsRead(RunAll([Answering(7)], st, true).state);
    assert [Failing(8134), ROWS_COUNTED][1..] == [ROWS_COUNTED];
    assert Statement(Failing(8134), st, true) == End(st, Raised(e));
    CountIsRead(CarriedPast(st, e));
    var s, asked := If((view: View) => Says(true), [ROWS_COUNTED], []), st.(rowCount := 0, error := 0);
    assert [s][1..] == [];
    CountIsRead(asked);
    assert Statement(s, st, true) == RunAll([ROWS_COUNTED], asked, true);
    hide Statement;
  }

  /** @@ROWCOUNT is nought after BEGIN, COMMIT, ROLLBACK or SAVE TRANSACTION that was
      not refused, and after SET XACT_ABORT, whatever it was before. */
  lemma CountIsNoughtAfterTransactions(st: State, t: Transactions.Statement, on: bool)
    ensures Transactions.Step(st.transactions, t).1.Done? ==>
              RunAll([Transact(t), ROWS_COUNTED], st, true).state.answers == st.answers + [Rows([[Int(0)]])]
    ensures RunAll([SetXactAbort(on), ROWS_COUNTED], st, true).state.answers == st.answers + [Rows([[Int(0)]])]
  {
    assert [Transact(t), ROWS_COUNTED][1..] == [SetXactAbort(on), ROWS_COUNTED][1..] == [ROWS_COUNTED];
    CountIsRead(Statement(SetXactAbort(on), st, true).state.(error := 0));
    CountIsRead(Statement(Transact(t), st, true).state.(error := 0));
  }

  lemma CountIsRead(st: State)
    ensures var end := RunAll([ROWS_COUNTED], st, true);
            end.exit.Normal? && end.state.answers == st.answers + [Rows([[Int(st.rowCount)]])]
  {
    assert [ROWS_COUNTED][1..] == [];
  }
}
