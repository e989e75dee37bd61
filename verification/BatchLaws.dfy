/** What every run of a batch keeps to. */
module BatchLaws {
  import opened Outcomes
  import opened Values
  import opened Batch
  import Transactions

  // ---- answers only grow ---------------------------------------------------

  /** The answers of one state begin another's. */
  predicate Grew(before: State, after: State) {
    before.answers <= after.answers
  }

  lemma {:induction false} StatementOnlyAnswers(s: Stmt, st: State, catching: bool)
    ensures Grew(st, Statement(s, st, catching).state)
    decreases s, 0, 0
  {
    match s
    case If(condition, thn, els) =>
      RunOnlyAnswers(thn, Batch.Asked(st), catching);
      RunOnlyAnswers(els, Batch.Asked(st), catching);
    case While(condition, body) =>
      LoopOnlyAnswers(condition, body, st, 0, catching);
    case Block(body) =>
      RunOnlyAnswers(body, st, catching);
    case Try(body, catch) =>
      var tried := Tried(body, st);
      TriedOnlyAnswers(body, st);
      if tried.exit.Raised? {
        var e := tried.exit.error;
        RunOnlyAnswers(catch, tried.state.(error := e.number, caught := Some(e)), catching);
      }
    case _ =>
  }

  /** However a run ends, what was answered before it is still answered after
      it, in front of whatever it answered. */
  lemma {:induction false} RunOnlyAnswers(stmts: seq<Stmt>, st: State, catching: bool)
    ensures Grew(st, RunAll(stmts, st, catching).state)
    decreases stmts, 0, 0
  {
    if stmts != [] {
      StatementOnlyAnswers(stmts[0], st, catching);
      var end := Statement(stmts[0], st, catching);
      match end.exit
      case Normal =>
        RunOnlyAnswers(stmts[1..], if ClearsTheError(stmts[0]) then end.state.(error := 0) else end.state, catching);
      case Raised(e) =>
        if catching && GoesOn(e, end.state.xactAbort) {
          RunOnlyAnswers(stmts[1..], CarriedPast(end.state, e), catching);
        }
      case _ =>
    }
  }

  lemma {:induction false} TriedOnlyAnswers(stmts: seq<Stmt>, st: State)
    ensures Grew(st, Tried(stmts, st).state)
    decreases stmts, 0, 0
  {
    if stmts != [] {
      StatementOnlyAnswers(stmts[0], st, false);
      var end := Statement(stmts[0], st, false);
      if end.exit.Normal? {
        TriedOnlyAnswers(stmts[1..], end.state);
      }
    }
  }

  lemma {:induction false} LoopOnlyAnswers(condition: View -> Says, body: seq<Stmt>, st: State, turns: nat,
                                           catching: bool)
    requires turns <= MAX_LOOP_TURNS
    ensures Grew(st, Looped(condition, body, st, turns, catching).state)
    decreases body, 1, MAX_LOOP_TURNS - turns
  {
    var said := condition(ViewOf(st));
    if said.Says? && said.holds && turns < MAX_LOOP_TURNS {
      RunOnlyAnswers(body, Batch.Asked(st), catching);
      var end := RunAll(body, Batch.Asked(st), catching);
      if end.exit.Normal? || (end.exit.Left? && !end.exit.breaks) {
        LoopOnlyAnswers(condition, body, end.state, turns + 1, catching);
      }
    }
  }

  // ---- nothing is caught inside a TRY --------------------------------------

  /** What is answered between two states is rows and no errors. */
  predicate AnsweredRows(before: State, after: State) {
    Grew(before, after) && forall i :: |before.answers| <= i < |after.answers| ==> after.answers[i].Rows?
  }

  lemma RowsAndRows(a: State, b: State, c: State)
    requires AnsweredRows(a, b) && AnsweredRows(b, c)
    ensures AnsweredRows(a, c)
  {
  }

  lemma {:induction false} StatementInATry(s: Stmt, st: State)
    ensures AnsweredRows(st, Statement(s, st, false).state)
    decreases s, 0, 0
  {
    match s
    case If(condition, thn, els) =>
      RunInATry(thn, Batch.Asked(st));
      RunInATry(els, Batch.Asked(st));
    case While(condition, body) =>
      LoopInATry(condition, body, st, 0);
    case Block(body) =>
      RunInATry(body, st);
    case Try(body, catch) =>
      var tried := Tried(body, st);
      TriedAnswersRows(body, st);
      if tried.exit.Raised? {
        var e := tried.exit.error;
        var caught := tried.state.(error := e.number, caught := Some(e));
        RunInATry(catch, caught);
        RowsAndRows(st, caught, RunAll(catch, caught, false).state);
      }
    case _ =>
  }

  /** A run inside a TRY, however deep, never leaves an error among the answers:
      the CATCH gets it. */
  lemma {:induction false} RunInATry(stmts: seq<Stmt>, st: State)
    ensures AnsweredRows(st, RunAll(stmts, st, false).state)
    decreases stmts, 0, 0
  {
    if stmts != [] {
      StatementInATry(stmts[0], st);
      var end := Statement(stmts[0], st, false);
      if end.exit.Normal? {
        var next := if ClearsTheError(stmts[0]) then end.state.(error := 0) else end.state;
        RunInATry(stmts[1..], next);
        RowsAndRows(st, next, RunAll(stmts[1..], next, false).state);
      }
    }
  }

  lemma {:induction false} TriedAnswersRows(stmts: seq<Stmt>, st: State)
    ensures AnsweredRows(st, Tried(stmts, st).state)
    decreases stmts, 0, 0
  {
    if stmts != [] {
      StatementInATry(stmts[0], st);
      var end := Statement(stmts[0], st, false);
      if end.exit.Normal? {
        TriedAnswersRows(stmts[1..], end.state);
        RowsAndRows(st, end.state, Tried(stmts[1..], end.state).state);
      }
    }
  }

  lemma {:induction false} LoopInATry(condition: View -> Says, body: seq<Stmt>, st: State, turns: nat)
    requires turns <= MAX_LOOP_TURNS
    ensures AnsweredRows(st, Looped(condition, body, st, turns, false).state)
    decreases body, 1, MAX_LOOP_TURNS - turns
  {
    var said := condition(ViewOf(st));
    if said.Says? && said.holds && turns < MAX_LOOP_TURNS {
      RunInATry(body, Batch.Asked(st));
      var end := RunAll(body, Batch.Asked(st), false);
      if end.exit.Normal? || (end.exit.Left? && !end.exit.breaks) {
        LoopInATry(condition, body, end.state, turns + 1);
        RowsAndRows(Batch.Asked(st), end.state, Looped(condition, body, end.state, turns + 1, false).state);
      }
    }
  }

  // ---- what was caught goes with its CATCH ---------------------------------

  /** What is caught is left as it was, or gone. */
  predicate LeftOrGone(before: State, after: State) {
    after.caught == before.caught || after.caught.None?
  }

  lemma {:induction false} StatementLeavesCaught(s: Stmt, st: State, catching: bool)
    ensures LeftOrGone(st, Statement(s, st, catching).state)
    decreases s, 0, 0
  {
    match s
    case If(condition, thn, els) =>
      RunLeavesCaught(thn, Batch.Asked(st), catching);
      RunLeavesCaught(els, Batch.Asked(st), catching);
    case While(condition, body) =>
      LoopLeavesCaught(condition, body, st, 0, catching);
    case Block(body) =>
      RunLeavesCaught(body, st, catching);
    case Try(body, catch) =>
      TriedLeavesCaught(body, st);
    case _ =>
  }

  /** A run never leaves anything caught that was not before it, through nested
      TRYs and CATCHes and errors raised inside a CATCH; so one begun with
      nothing caught ends with nothing caught. */
  lemma {:induction false} RunLeavesCaught(stmts: seq<Stmt>, st: State, catching: bool)
    ensures LeftOrGone(st, RunAll(stmts, st, catching).state)
    decreases stmts, 0, 0
  {
    if stmts != [] {
      StatementLeavesCaught(stmts[0], st, catching);
      var end := Statement(stmts[0], st, catching);
      match end.exit
      case Normal =>
        RunLeavesCaught(stmts[1..], if ClearsTheError(stmts[0]) then end.state.(error := 0) else end.state, catching);
      case Raised(e) =>
        if catching && GoesOn(e, end.state.xactAbort) {
          RunLeavesCaught(stmts[1..], CarriedPast(end.state, e), catching);
        }
      case _ =>
    }
  }

  lemma {:induction false} TriedLeavesCaught(stmts: seq<Stmt>, st: State)
    ensures LeftOrGone(st, Tried(stmts, st).state)
    decreases stmts, 0, 0
  {
    if stmts != [] {
      StatementLeavesCaught(stmts[0], st, false);
      var end := Statement(stmts[0], st, false);
      if end.exit.Normal? {
        TriedLeavesCaught(stmts[1..], end.state);
      }
    }
  }

  lemma {:induction false} LoopLeavesCaught(condition: View -> Says, body: seq<Stmt>, st: State, turns: nat,
                                            catching: bool)
    requires turns <= MAX_LOOP_TURNS
    ensures LeftOrGone(st, Looped(condition, body, st, turns, catching).state)
    decreases body, 1, MAX_LOOP_TURNS - turns
  {
    var said := condition(ViewOf(st));
    if said.Says? && said.holds && turns < MAX_LOOP_TURNS {
      RunLeavesCaught(body, Batch.Asked(st), catching);
      var end := RunAll(body, Batch.Asked(st), catching);
      if end.exit.Normal? || (end.exit.Left? && !end.exit.breaks) {
        LoopLeavesCaught(condition, body, end.state, turns + 1, catching);
      }
    }
  }

  // ---- BREAK and CONTINUE stay inside their WHILE --------------------------

  /** Every BREAK and CONTINUE stands under some WHILE. */
  predicate Placed(s: Stmt, inALoop: bool)
    decreases s, 0
  {
    match s
    case Leave(_) => inALoop
    case If(_, thn, els) => AllPlaced(thn, inALoop) && AllPlaced(els, inALoop)
    case While(_, body) => AllPlaced(body, true)
    case Block(body) => AllPlaced(body, inALoop)
    case Try(body, catch) => AllPlaced(body, inALoop) && AllPlaced(catch, inALoop)
    case _ => true
  }

  predicate AllPlaced(stmts: seq<Stmt>, inALoop: bool)
    decreases stmts, 0
  {
    stmts == [] || (Placed(stmts[0], inALoop) && AllPlaced(stmts[1..], inALoop))
  }

  lemma {:induction false} PlacedNeverEscapes(s: Stmt, st: State, catching: bool)
    requires Placed(s, false)
    ensures !Statement(s, st, catching).exit.Left?
    decreases s, 0
  {
    match s
    case If(_, thn, els) =>
      NoneEscapes(thn, Batch.Asked(st), catching);
      NoneEscapes(els, Batch.Asked(st), catching);
    case While(condition, body) =>
      LoopsAreLeft(condition, body, st, 0, catching);
    case Block(body) =>
      NoneEscapes(body, st, catching);
    case Try(body, catch) =>
      var tried := Tried(body, st);
      NoneEscapesATry(body, st);
      if tried.exit.Raised? {
        var e := tried.exit.error;
        NoneEscapes(catch, tried.state.(error := e.number, caught := Some(e)), catching);
      }
    case _ =>
  }

  /** Where every BREAK and CONTINUE stands under some WHILE, none escapes a run,
      however deep in blocks, IFs, TRYs and CATCHes it stood. */
  lemma {:induction false} NoneEscapes(stmts: seq<Stmt>, st: State, catching: bool)
    requires AllPlaced(stmts, false)
    ensures !RunAll(stmts, st, catching).exit.Left?
    decreases stmts, 0
  {
    if stmts != [] {
      PlacedNeverEscapes(stmts[0], st, catching);
      var end := Statement(stmts[0], st, catching);
      match end.exit
      case Normal =>
        NoneEscapes(stmts[1..], if ClearsTheError(stmts[0]) then end.state.(error := 0) else end.state, catching);
      case Raised(e) =>
        if catching && GoesOn(e, end.state.xactAbort) {
          NoneEscapes(stmts[1..], CarriedPast(end.state, e), catching);
        }
      case _ =>
    }
  }

  lemma {:induction false} NoneEscapesATry(stmts: seq<Stmt>, st: State)
    requires AllPlaced(stmts, false)
    ensures !Tried(stmts, st).exit.Left?
    decreases stmts, 0
  {
    if stmts != [] {
      PlacedNeverEscapes(stmts[0], st, false);
      var end := Statement(stmts[0], st, false);
      if end.exit.Normal? {
        NoneEscapesATry(stmts[1..], end.state);
      }
    }
  }

  /** A WHILE is never left by a BREAK or CONTINUE of its own body, and runs that
      body at most MAX_LOOP_TURNS times. */
  lemma {:induction false} LoopsAreLeft(condition: View -> Says, body: seq<Stmt>, st: State, turns: nat, catching: bool)
    requires turns <= MAX_LOOP_TURNS
    ensures !Looped(condition, body, st, turns, catching).exit.Left?
    ensures Looped(condition, body, st, turns, catching).turns <= MAX_LOOP_TURNS
    decreases MAX_LOOP_TURNS - turns
  {
    var said := condition(ViewOf(st));
    if said.Says? && said.holds && turns < MAX_LOOP_TURNS {
      var end := RunAll(body, Batch.Asked(st), catching);
      if end.exit.Normal? || (end.exit.Left? && !end.exit.breaks) {
        LoopsAreLeft(condition, body, end.state, turns + 1, catching);
      }
    }
  }

  // ---- XACT_ABORT ----------------------------------------------------------

  /** No statement sets XACT_ABORT. */
  predicate Unset(s: Stmt)
    decreases s, 0
  {
    match s
    case SetXactAbort(_) => false
    case If(_, thn, els) => AllUnset(thn) && AllUnset(els)
    case While(_, body) => AllUnset(body)
    case Block(body) => AllUnset(body)
    case Try(body, catch) => AllUnset(body) && AllUnset(catch)
    case _ => true
  }

  predicate AllUnset(stmts: seq<Stmt>)
    decreases stmts, 0
  {
    stmts == [] || (Unset(stmts[0]) && AllUnset(stmts[1..]))
  }

  function On(st: State): State {
    st.(xactAbort := true)
  }

  function Off(st: State): State {
    st.(xactAbort := false)
  }

  /** An error the batch runs on past with the setting off and stops at with it
      on. */
  predicate StopsWithItOn(e: Error) {
    GoesOn(e, false) && !GoesOn(e, true)
  }

  /** The two runs ended alike: the same way, in states differing only in the
      setting. */
  predicate Alike(on: End, off: End) {
    on.exit == off.exit && on.state == On(off.state) && !off.state.xactAbort
  }

  /** The run with the setting on stopped at an error the other carried past,
      which answered as much, then that error, and then went on. */
  predicate StoppedEarlier(on: End, off: End) {
    && on.exit.Raised? && StopsWithItOn(on.exit.error)
    && on.state.xactAbort && !off.state.xactAbort
    && on.state.answers + [Failed(on.exit.error)] <= off.state.answers
  }

  lemma StoppedStaysStopped(on: End, off: End, later: End)
    requires StoppedEarlier(on, off) && Grew(off.state, later.state) && !later.state.xactAbort
    ensures StoppedEarlier(on, later)
  {
  }

  lemma {:induction false} StatementKeepsTheSetting(s: Stmt, st: State, catching: bool)
    requires Unset(s)
    ensures Statement(s, st, catching).state.xactAbort == st.xactAbort
    decreases s, 0, 0
  {
    match s
    case If(condition, thn, els) =>
      RunKeepsTheSetting(thn, Batch.Asked(st), catching);
      RunKeepsTheSetting(els, Batch.Asked(st), catching);
    case While(condition, body) =>
      LoopKeepsTheSetting(condition, body, st, 0, catching);
    case Block(body) =>
      RunKeepsTheSetting(body, st, catching);
    case Try(body, catch) =>
      var tried := Tried(body, st);
      TriedKeepsTheSetting(body, st);
      if tried.exit.Raised? {
        var e := tried.exit.error;
        RunKeepsTheSetting(catch, tried.state.(error := e.number, caught := Some(e)), catching);
      }
    case _ =>
  }

  lemma {:induction false} RunKeepsTheSetting(stmts: seq<Stmt>, st: State, catching: bool)
    requires AllUnset(stmts)
    ensures RunAll(stmts, st, catching).state.xactAbort == st.xactAbort
    decreases stmts, 0, 0
  {
    if stmts != [] {
      StatementKeepsTheSetting(stmts[0], st, catching);
      var end := Statement(stmts[0], st, catching);
      match end.exit
      case Normal =>
        var next := if ClearsTheError(stmts[0]) then end.state.(error := 0) else end.state;
        RunKeepsTheSetting(stmts[1..], next, catching);
      case Raised(e) =>
        if catching && GoesOn(e, end.state.xactAbort) {
          RunKeepsTheSetting(stmts[1..], CarriedPast(end.state, e), catching);
        }
      case _ =>
    }
  }

  lemma {:induction false} TriedKeepsTheSetting(stmts: seq<Stmt>, st: State)
    requires AllUnset(stmts)
    ensures Tried(stmts, st).state.xactAbort == st.xactAbort
    decreases stmts, 0, 0
  {
    if stmts != [] {
      StatementKeepsTheSetting(stmts[0], st, false);
      var end := Statement(stmts[0], st, false);
      if end.exit.Normal? {
        TriedKeepsTheSetting(stmts[1..], end.state);
      }
    }
  }

  lemma {:induction false} LoopKeepsTheSetting(condition: View -> Says, body: seq<Stmt>, st: State, turns: nat,
                                               catching: bool)
    requires AllUnset(body) && turns <= MAX_LOOP_TURNS
    ensures Looped(condition, body, st, turns, catching).state.xactAbort == st.xactAbort
    decreases body, 1, MAX_LOOP_TURNS - turns
  {
    var said := condition(ViewOf(st));
    if said.Says? && said.holds && turns < MAX_LOOP_TURNS {
      RunKeepsTheSetting(body, Batch.Asked(st), catching);
      var end := RunAll(body, Batch.Asked(st), catching);
      if end.exit.Normal? || (end.exit.Left? && !end.exit.breaks) {
        LoopKeepsTheSetting(condition, body, end.state, turns + 1, catching);
      }
    }
  }

  /** What the setting changes of a run: nothing, or where it stopped. Inside a
      TRY it changes nothing. */
  predicate OnlyWhereItStops(on: End, off: End, catching: bool) {
    Alike(on, off) || (catching && StoppedEarlier(on, off))
  }

  lemma {:induction false} StatementUnderTheSetting(s: Stmt, st: State, catching: bool)
    requires Unset(s)
    ensures OnlyWhereItStops(Statement(s, On(st), catching), Statement(s, Off(st), catching), catching)
    decreases s, 1, 0
  {
    match s
    case If(condition, thn, els) =>
      assert ViewOf(On(st)) == ViewOf(Off(st));
      assert Batch.Asked(On(st)) == On(Batch.Asked(st)) && Batch.Asked(Off(st)) == Off(Batch.Asked(st));
      RunUnderTheSetting(thn, Batch.Asked(st), catching);
      RunUnderTheSetting(els, Batch.Asked(st), catching);
    case While(condition, body) =>
      LoopUnderTheSetting(condition, body, st, 0, catching);
    case Block(body) =>
      RunUnderTheSetting(body, st, catching);
    case Try(body, catch) =>
      TryUnderTheSetting(body, catch, st, catching);
    case _ =>
  }

  lemma {:induction false} TryUnderTheSetting(body: seq<Stmt>, catch: seq<Stmt>, st: State, catching: bool)
    requires AllUnset(body) && AllUnset(catch)
    ensures OnlyWhereItStops(Statement(Try(body, catch), On(st), catching),
                             Statement(Try(body, catch), Off(st), catching), catching)
    decreases Try(body, catch), 0, 0
  {
    TriedUnderTheSetting(body, st);
    var off := Tried(body, Off(st));
    if off.exit.Raised? {
      var e := off.exit.error;
      var caught := off.state.(error := e.number, caught := Some(e));
      assert Tried(body, On(st)).state.(error := e.number, caught := Some(e)) == On(caught);
      assert caught == Off(caught);
      RunUnderTheSetting(catch, caught, catching);
    }
  }

  /** XACT_ABORT changes where a run stops and nothing else: with it on, either
      the run ends as it does with it off, or it stops at an error the other
      carries past, having answered what the other had answered by then. */
  lemma {:induction false} RunUnderTheSetting(stmts: seq<Stmt>, st: State, catching: bool)
    requires AllUnset(stmts)
    ensures OnlyWhereItStops(RunAll(stmts, On(st), catching), RunAll(stmts, Off(st), catching), catching)
    decreases stmts, 0, 0
  {
    if stmts != [] {
      var s, rest := stmts[0], stmts[1..];
      var on, off := Statement(s, On(st), catching), Statement(s, Off(st), catching);
      StatementUnderTheSetting(s, st, catching);
      StatementKeepsTheSetting(s, Off(st), catching);
      RunKeepsTheSetting(stmts, Off(st), catching);
      RestOnlyAnswers(stmts, Off(st), catching);
      if Alike(on, off) {
        match off.exit
        case Normal =>
          var next := if ClearsTheError(s) then off.state.(error := 0) else off.state;
          assert next == Off(next);
          RunUnderTheSetting(rest, next, catching);
        case Raised(e) =>
          if catching && GoesOn(e, true) {
            var next := CarriedPast(off.state, e);
            assert next == Off(next) && CarriedPast(on.state, e) == On(next);
            RunUnderTheSetting(rest, next, catching);
          } else if catching && GoesOn(e, false) {
            RunOnlyAnswers(rest, CarriedPast(off.state, e), catching);
          }
        case _ =>
      } else {
        StoppedStaysStopped(on, off, RunAll(stmts, Off(st), catching));
      }
    }
  }

  /** A run answers at least what its first statement did. */
  lemma RestOnlyAnswers(stmts: seq<Stmt>, st: State, catching: bool)
    requires stmts != []
    ensures Grew(Statement(stmts[0], st, catching).state, RunAll(stmts, st, catching).state)
  {
    var end := Statement(stmts[0], st, catching);
    match end.exit
    case Normal =>
      RunOnlyAnswers(stmts[1..], if ClearsTheError(stmts[0]) then end.state.(error := 0) else end.state, catching);
    case Raised(e) =>
      if catching && GoesOn(e, end.state.xactAbort) {
        RunOnlyAnswers(stmts[1..], CarriedPast(end.state, e), catching);
      }
    case _ =>
  }

  lemma {:induction false} TriedUnderTheSetting(stmts: seq<Stmt>, st: State)
    requires AllUnset(stmts)
    ensures Alike(Tried(stmts, On(st)), Tried(stmts, Off(st)))
    decreases stmts, 0, 0
  {
    if stmts != [] {
      StatementUnderTheSetting(stmts[0], st, false);
      var off := Statement(stmts[0], Off(st), false);
      assert off.state == Off(off.state);
      if off.exit.Normal? {
        TriedUnderTheSetting(stmts[1..], off.state);
      }
    }
  }

  lemma {:induction false} LoopUnderTheSetting(condition: View -> Says, body: seq<Stmt>, st: State, turns: nat,
                                               catching: bool)
    requires AllUnset(body) && turns <= MAX_LOOP_TURNS
    ensures var on, off :=
            Looped(condition, body, On(st), turns, catching), Looped(condition, body, Off(st), turns, catching);
            OnlyWhereItStops(End(on.state, on.exit), End(off.state, off.exit), catching)
    decreases body, 1, MAX_LOOP_TURNS - turns
  {
    assert ViewOf(On(st)) == ViewOf(Off(st));
    var asked := Batch.Asked(st);
    assert Batch.Asked(On(st)) == On(asked) && Batch.Asked(Off(st)) == Off(asked);
    var said := condition(ViewOf(Off(st)));
    if said.Says? && said.holds && turns < MAX_LOOP_TURNS {
      RunUnderTheSetting(body, asked, catching);
      var on, off := RunAll(body, On(asked), catching), RunAll(body, Off(asked), catching);
      RunKeepsTheSetting(body, Off(asked), catching);
      LoopKeepsTheSetting(condition, body, off.state, turns + 1, catching);
      if off.exit.Normal? || (off.exit.Left? && !off.exit.breaks) {
        if Alike(on, off) {
          assert off.state == Off(off.state);
          LoopUnderTheSetting(condition, body, off.state, turns + 1, catching);
        } else {
          LoopOnlyAnswers(condition, body, off.state, turns + 1, catching);
          var later := Looped(condition, body, off.state, turns + 1, catching);
          StoppedStaysStopped(on, off, End(later.state, later.exit));
        }
      }
    }
  }

  // ---- a whole batch under XACT_ABORT --------------------------------------

  lemma {:induction false} BatchesStopAtEnders(stmts: seq<Stmt>, st: State)
    requires AllUnset(stmts)
    ensures var end := RunAll(stmts, st, true); end.exit.Raised? ==> !GoesOn(end.exit.error, st.xactAbort)
    decreases stmts
  {
    if stmts != [] {
      var end := Statement(stmts[0], st, true);
      StatementKeepsTheSetting(stmts[0], st, true);
      match end.exit
      case Normal =>
        BatchesStopAtEnders(stmts[1..], if ClearsTheError(stmts[0]) then end.state.(error := 0) else end.state);
      case Raised(e) =>
        if GoesOn(e, end.state.xactAbort) {
          BatchesStopAtEnders(stmts[1..], CarriedPast(end.state, e));
        }
      case _ =>
    }
  }

  /** What a client is sent of a batch with the setting on begins what it is sent
      with it off, exactly unless the batch with it off goes on past where the
      other stopped and then ends at an error that throws away what answered. */
  lemma BatchUnderTheSetting(stmts: seq<Stmt>, st: State)
    requires AllUnset(stmts) && AllPlaced(stmts, false)
    requires !RunAll(stmts, Off(st), true).exit.Broken?
    ensures var on, off := RunAll(stmts, On(st), true), RunAll(stmts, Off(st), true);
            && SentOf(on).Sent? && SentOf(off).Sent?
            && (SentOf(on).answers <= SentOf(off).answers
                <==> !(StoppedEarlier(on, off) && off.exit.Raised? && !Keeps(off.exit.error, false)))
  {
    var on, off := RunAll(stmts, On(st), true), RunAll(stmts, Off(st), true);
    RunUnderTheSetting(stmts, st, true);
    RunKeepsTheSetting(stmts, On(st), true);
    RunKeepsTheSetting(stmts, Off(st), true);
    NoneEscapes(stmts, On(st), true);
    NoneEscapes(stmts, Off(st), true);
    BatchesStopAtEnders(stmts, Off(st));
    if StoppedEarlier(on, off) {
      SentWhenStopped(on, off);
    } else {
      assert Alike(on, off);
    }
  }

  lemma SentWhenStopped(on: End, off: End)
    requires StoppedEarlier(on, off) && (off.exit.Normal? || off.exit.Raised?)
    requires off.exit.Raised? ==> !GoesOn(off.exit.error, false)
    ensures SentOf(on) == Sent(on.state.answers + [Failed(on.exit.error)])
    ensures SentOf(on).answers <= SentOf(off).answers <==> !(off.exit.Raised? && !Keeps(off.exit.error, false))
  {
    var e := on.exit.error;
    assert Keeps(e, true);
    assert on.state.answers == [] ==> [] + [Failed(e)] == [Failed(e)];
    assert off.state.answers != [];
    if off.exit.Raised? {
      var last := off.exit.error;
      if !Keeps(last, false) {
        assert SentOf(off).answers == [Failed(last)];
        assert last != e;
        assert SentOf(on).answers[|on.state.answers|] == Failed(e);
      }
    }
  }

  /** A read that raises this. */
  function Raising(number: int): Stmt {
    Act((view: View) => Raises(view.store, Error(number, None)), true)
  }

  lemma RaisingRaises(number: int, st: State, catching: bool)
    ensures Statement(Raising(number), st, catching) == End(st, Batch.Raised(Error(number, None)))
  {
  }

  /** A divide by zero, then a column that is not there: with the setting on a
      client reads the first, and with it off the second alone. */
  lemma LaterErrorHidesTheFirst(st: State)
    requires st.answers == []
    ensures var stmts, first := [Raising(8134), Raising(207)], Error(8134, None);
            && SentOf(RunAll(stmts, On(st), true)) == Sent([Failed(first)])
            && SentOf(RunAll(stmts, Off(st), true)) == Sent([Failed(Error(207, None))])
  {
    var stmts := [Raising(8134), Raising(207)];
    RaisingRaises(8134, On(st), true);
    RaisingRaises(8134, Off(st), true);
    assert stmts[1..] == [Raising(207)];
    RaisingRaises(207, CarriedPast(Off(st), Error(8134, None)), true);
  }

  // ---- transactions after a batch that runs on -----------------------------

  /** Every error answered between two states is one a batch runs on past under
      this setting. */
  predicate Carried(before: State, after: State, on: bool) {
    && Grew(before, after)
    && forall i :: |before.answers| <= i < |after.answers| && after.answers[i].Failed? ==>
         GoesOn(after.answers[i].error, on)
  }

  /** A setting the statements cannot be found under is off. */
  predicate HeldAt(stmts: seq<Stmt>, st: State, on: bool) {
    on ==> st.xactAbort && AllUnset(stmts)
  }

  lemma CarriedAndCarried(a: State, b: State, c: State, on: bool)
    requires Carried(a, b, on) && Carried(b, c, on)
    ensures Carried(a, c, on)
  {
  }

  lemma {:induction false} StatementCarries(s: Stmt, st: State, catching: bool, on: bool)
    requires on ==> st.xactAbort && Unset(s)
    ensures Carried(st, Statement(s, st, catching).state, on)
    decreases s, 0, 0
  {
    match s
    case If(condition, thn, els) =>
      RunCarries(thn, Batch.Asked(st), catching, on);
      RunCarries(els, Batch.Asked(st), catching, on);
    case While(condition, body) =>
      LoopCarries(condition, body, st, 0, catching, on);
    case Block(body) =>
      RunCarries(body, st, catching, on);
    case Try(body, catch) =>
      var tried := Tried(body, st);
      TriedAnswersRows(body, st);
      if tried.exit.Raised? {
        if on {
          TriedKeepsTheSetting(body, st);
        }
        var e := tried.exit.error;
        var caught := tried.state.(error := e.number, caught := Some(e));
        RunCarries(catch, caught, catching, on);
        CarriedAndCarried(st, caught, RunAll(catch, caught, catching).state, on);
      }
    case _ =>
  }

  lemma {:induction false} RunCarries(stmts: seq<Stmt>, st: State, catching: bool, on: bool)
    requires HeldAt(stmts, st, on)
    ensures Carried(st, RunAll(stmts, st, catching).state, on)
    decreases stmts, 0, 0
  {
    if stmts != [] {
      StatementCarries(stmts[0], st, catching, on);
      if on {
        StatementKeepsTheSetting(stmts[0], st, catching);
      }
      var end := Statement(stmts[0], st, catching);
      match end.exit
      case Normal =>
        var next := if ClearsTheError(stmts[0]) then end.state.(error := 0) else end.state;
        RunCarries(stmts[1..], next, catching, on);
        CarriedAndCarried(st, next, RunAll(stmts[1..], next, catching).state, on);
      case Raised(e) =>
        if catching && GoesOn(e, end.state.xactAbort) {
          var next := CarriedPast(end.state, e);
          RunCarries(stmts[1..], next, catching, on);
          CarriedAndCarried(st, next, RunAll(stmts[1..], next, catching).state, on);
        }
      case _ =>
    }
  }

  lemma {:induction false} LoopCarries(condition: View -> Says, body: seq<Stmt>, st: State, turns: nat, catching: bool,
                                       on: bool)
    requires turns <= MAX_LOOP_TURNS && HeldAt(body, st, on)
    ensures Carried(st, Looped(condition, body, st, turns, catching).state, on)
    decreases body, 1, MAX_LOOP_TURNS - turns
  {
    var said := condition(ViewOf(st));
    if said.Says? && said.holds && turns < MAX_LOOP_TURNS {
      RunCarries(body, Batch.Asked(st), catching, on);
      var end := RunAll(body, Batch.Asked(st), catching);
      if end.exit.Normal? || (end.exit.Left? && !end.exit.breaks) {
        if on {
          RunKeepsTheSetting(body, Batch.Asked(st), catching);
        }
        LoopCarries(condition, body, end.state, turns + 1, catching, on);
        CarriedAndCarried(st, end.state, Looped(condition, body, end.state, turns + 1, catching).state, on);
      }
    }
  }

  /** A batch that runs to its end keeps the transactions it has by then, but for
      one that answered a single error and nothing else, which it ran on past
      with the setting off, and then turned the setting on: there the error is
      asked about again and closes them. */
  lemma RunningOnKeepsTransactions(stmts: seq<Stmt>, st: State)
    requires RunAll(stmts, Begun(st), true).exit.Normal?
    ensures var end := RunAll(stmts, Begun(st), true);
            var answers := end.state.answers;
            AfterBatch(end).transactions
            == if |answers| == 1 && answers[0].Failed? && StopsWithItOn(answers[0].error) && end.state.xactAbort
               then Transactions.CLOSED else end.state.transactions
    ensures AllUnset(stmts) ==>
              AfterBatch(RunAll(stmts, Begun(st), true)).transactions
              == RunAll(stmts, Begun(st), true).state.transactions
  {
    hide RunAll, AllUnset, Carried, GoesOn, RollsBack, AfterBatch, StopsWithItOn;
    var end := RunAll(stmts, Begun(st), true);
    RunCarries(stmts, Begun(st), true, false);
    ClosesWhereItStops(Begun(st), end);
    if AllUnset(stmts) {
      RunKeepsTheSetting(stmts, Begun(st), true);
      if st.xactAbort {
        RunCarries(stmts, Begun(st), true, true);
        KeepsWhereCarried(Begun(st), end);
      }
    }
  }

  lemma ClosesWhereItStops(begun: State, end: End)
    requires end.exit.Normal? && begun.answers == [] && Carried(begun, end.state, false)
    ensures var answers := end.state.answers;
            AfterBatch(end).transactions
            == if |answers| == 1 && answers[0].Failed? && StopsWithItOn(answers[0].error) && end.state.xactAbort
               then Transactions.CLOSED else end.state.transactions
  {
  }

  lemma KeepsWhereCarried(begun: State, end: End)
    requires end.exit.Normal? && begun.answers == [] && Carried(begun, end.state, true) && end.state.xactAbort
    ensures AfterBatch(end).transactions == end.state.transactions
  {
  }

  /** In an open transaction, a divide by zero the batch runs on past and then
      SET XACT_ABORT ON: the transaction is gone. */
  lemma LoneErrorLosesTheTransaction(st: State)
    requires st.transactions.count > 0 && !st.xactAbort
    ensures var end := RunAll([Raising(8134), SetXactAbort(true)], Begun(st), true);
            && end.exit.Normal? && end.state.transactions == st.transactions
            && AfterBatch(end).transactions.count == 0
  {
    var stmts := [Raising(8134), SetXactAbort(true)];
    RaisingRaises(8134, Begun(st), true);
    assert stmts[1..] == [SetXactAbort(true)];
    var next := CarriedPast(Begun(st), Error(8134, None));
    assert Statement(SetXactAbort(true), next, true) == End(next.(xactAbort := true, rowCount := 0), Normal);
    assert stmts[1..][1..] == [];
  }

  // ---- @@ERROR after a run -------------------------------------------------

  /** A BREAK of a WHILE around it stands in this statement. */
  predicate Breaks(s: Stmt)
    decreases s, 0
  {
    match s
    case Leave(breaks) => breaks
    case If(_, thn, els) => AnyBreaks(thn) || AnyBreaks(els)
    case Block(body) => AnyBreaks(body)
    case Try(body, catch) => AnyBreaks(body) || AnyBreaks(catch)
    case _ => false
  }

  predicate AnyBreaks(stmts: seq<Stmt>)
    decreases stmts, 0
  {
    stmts != [] && (Breaks(stmts[0]) || AnyBreaks(stmts[1..]))
  }

  lemma {:induction false} UnbrokenIsNotLeft(s: Stmt, st: State, catching: bool)
    requires !Breaks(s)
    ensures Statement(s, st, catching).exit != Left(true)
    decreases s, 0
  {
    match s
    case If(_, thn, els) =>
      NoneIsLeft(thn, Batch.Asked(st), catching);
      NoneIsLeft(els, Batch.Asked(st), catching);
    case While(condition, body) =>
      LoopsAreLeft(condition, body, st, 0, catching);
    case Block(body) =>
      NoneIsLeft(body, st, catching);
    case Try(body, catch) =>
      var tried := Tried(body, st);
      NoneIsLeftInATry(body, st);
      if tried.exit.Raised? {
        var e := tried.exit.error;
        NoneIsLeft(catch, tried.state.(error := e.number, caught := Some(e)), catching);
      }
    case _ =>
  }

  lemma {:induction false} NoneIsLeft(stmts: seq<Stmt>, st: State, catching: bool)
    requires !AnyBreaks(stmts)
    ensures RunAll(stmts, st, catching).exit != Left(true)
    decreases stmts, 0
  {
    if stmts != [] {
      UnbrokenIsNotLeft(stmts[0], st, catching);
      var end := Statement(stmts[0], st, catching);
      match end.exit
      case Normal =>
        NoneIsLeft(stmts[1..], if ClearsTheError(stmts[0]) then end.state.(error := 0) else end.state, catching);
      case Raised(e) =>
        if catching && GoesOn(e, end.state.xactAbort) {
          NoneIsLeft(stmts[1..], CarriedPast(end.state, e), catching);
        }
      case _ =>
    }
  }

  lemma {:induction false} NoneIsLeftInATry(stmts: seq<Stmt>, st: State)
    requires !AnyBreaks(stmts)
    ensures Tried(stmts, st).exit != Left(true)
    decreases stmts, 0
  {
    if stmts != [] {
      UnbrokenIsNotLeft(stmts[0], st, false);
      var end := Statement(stmts[0], st, false);
      if end.exit.Normal? {
        NoneIsLeftInATry(stmts[1..], end.state);
      }
    }
  }

  /** A WHILE with no BREAK of its own that ends leaves @@ERROR at nought, whatever
      failed in its body. */
  lemma {:induction false} UnbrokenLoopsEndAtNought(condition: View -> Says, body: seq<Stmt>, st: State, turns: nat,
                                                    catching: bool)
    requires !AnyBreaks(body) && turns <= MAX_LOOP_TURNS
    ensures var end := Looped(condition, body, st, turns, catching); end.exit.Normal? ==> end.state.error == 0
    decreases MAX_LOOP_TURNS - turns
  {
    var said := condition(ViewOf(st));
    if said.Says? && said.holds && turns < MAX_LOOP_TURNS {
      NoneIsLeft(body, Batch.Asked(st), catching);
      var end := RunAll(body, Batch.Asked(st), catching);
      if end.exit.Normal? || (end.exit.Left? && !end.exit.breaks) {
        UnbrokenLoopsEndAtNought(condition, body, end.state, turns + 1, catching);
      }
    }
  }

  lemma {:induction false} RunThenTheLast(stmts: seq<Stmt>, s: Stmt, st: State, catching: bool)
    requires RunAll(stmts + [s], st, catching).exit.Normal?
    ensures RunAll(stmts, st, catching).exit.Normal?
    ensures RunAll(stmts + [s], st, catching) == RunAll([s], RunAll(stmts, st, catching).state, catching)
    decreases |stmts|
  {
    if stmts == [] {
      assert stmts + [s] == [s];
    } else {
      assert (stmts + [s])[1..] == stmts[1..] + [s];
      var end := Statement(stmts[0], st, catching);
      match end.exit
      case Normal =>
        RunThenTheLast(stmts[1..], s, if ClearsTheError(stmts[0]) then end.state.(error := 0) else end.state, catching);
      case Raised(e) =>
        if catching && GoesOn(e, end.state.xactAbort) {
          RunThenTheLast(stmts[1..], s, CarriedPast(end.state, e), catching);
        }
      case _ =>
    }
  }

  /** A run that goes to its end leaves @@ERROR other than nought exactly where its
      last statement failed and was run on past; or is a DECLARE with no value
      after one that left it so; or an IF whose branch left it so; or a WHILE with
      a BREAK whose body did. */
  lemma OnlyTheseLeaveAnError(stmts: seq<Stmt>, s: Stmt, st: State, catching: bool)
    requires RunAll(stmts + [s], st, catching).exit.Normal?
    ensures RunAll(stmts, st, catching).exit.Normal?
    ensures var before := RunAll(stmts, st, catching).state;
            var end := Statement(s, before, catching);
            RunAll(stmts + [s], st, catching).state.error != 0
            <==> match end.exit
                 case Raised(e) => e.number != 0
                 case _ =>
                   match s
                   case Act(_, clears) => !clears && before.error != 0
                   case If(_, _, _) => end.state.error != 0
                   case While(_, body) => AnyBreaks(body) && end.state.error != 0
                   case _ => false
  {
    RunThenTheLast(stmts, s, st, catching);
    var before := RunAll(stmts, st, catching).state;
    assert [s][1..] == [];
    if s.While? && !AnyBreaks(s.body) {
      UnbrokenLoopsEndAtNought(s.condition, s.body, before, 0, catching);
    }
    hide RunAll, Looped, AnyBreaks, GoesOn;
    LastLeaves(s, before, catching);
  }

  lemma LastLeaves(s: Stmt, st: State, catching: bool)
    ensures var end := Statement(s, st, catching);
            RunAll([s], st, catching).exit.Normal? ==>
              && (end.exit.Normal? || end.exit.Raised?)
              && RunAll([s], st, catching).state.error
                 == match end.exit
                    case Raised(e) => e.number
                    case _ => if ClearsTheError(s) then 0 else end.state.error
    ensures s.Act? && Statement(s, st, catching).exit.Normal? ==> Statement(s, st, catching).state.error == st.error
  {
    assert [s][1..] == [];
  }

  /** With the setting off, a COMMIT with nothing open leaves 3902 behind, and
      between BEGIN and END nought. */
  lemma BlockedCommitIsCleared(st: State)
    requires st.transactions.count == 0 && !st.xactAbort
    ensures RunAll([Transact(Transactions.Commit)], st, true).state.error == 3902
    ensures RunAll([Block([Transact(Transactions.Commit)])], st, true).state.error == 0
  {
    var commit := Transact(Transactions.Commit);
    var block := Block([commit]);
    assert Statement(commit, st, true) == End(st, Batch.Raised(Error(3902, None)));
    assert [commit][1..] == [] && [block][1..] == [] && [] + [block] == [block];
    assert RunAll([commit], st, true).exit.Normal?;
    OnlyTheseLeaveAnError([], block, st, true);
  }
}
