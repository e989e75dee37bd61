/** A batch of statements, from its parsed tree: IF, WHILE, BREAK and CONTINUE,
    nested TRY and CATCH, errors that stop a batch or become one of its
    answers, and the connection's state they all share. */
module Batch {
  import opened Outcomes
  import opened Values
  import Transactions

  const MAX_LOOP_TURNS: nat := 100_000

  const UNSUPPORTED := 50000
  const SOURCE_UNAVAILABLE := 50001
  const NOTHING_TO_RETHROW := 10704

  /** An error a client asked for says itself whether the batch carries on; any
      other leaves that to its number. */
  datatype Error = Error(number: int, carriesOn: Option<bool>)

  datatype Answer = Rows(rows: seq<Row>) | Failed(error: Error)

  type Store = map<string, Value>

  /** Everything a connection and its batch hold: the variables and tables a
      statement may change, @@ROWCOUNT, @@ERROR, what sent it into the CATCH it
      is running, its transactions, its XACT_ABORT, and the answers so far. */
  datatype State = State(
    store: Store, rowCount: nat, error: int, caught: Option<Error>,
    transactions: Transactions.Open, xactAbort: bool, answers: seq<Answer>)

  /** What a read or a condition can see of it, which XACT_ABORT is not. */
  datatype View = View(store: Store, rowCount: nat, error: int, tranCount: nat, caught: Option<Error>)

  function ViewOf(st: State): View {
    View(st.store, st.rowCount, st.error, st.transactions.count, st.caught)
  }

  /** What a plain statement does: it goes, perhaps answering rows and leaving
      @@ROWCOUNT, or it raises. */
  datatype Effect =
    | Goes(store: Store, answer: Option<seq<Row>>, rowCount: Option<nat>)
    | Raises(store: Store, raised: Error)

  datatype Says = Says(holds: bool) | CannotSay(error: Error)

  /** A statement. Act stands for every statement that runs no other: a read, an
      assignment, RAISERROR, THROW with its arguments; it clears @@ERROR when it
      finishes unless it is a DECLARE with no value. */
  datatype Stmt =
    | Act(run: View -> Effect, clears: bool)
    | SetXactAbort(on: bool)
    | Transact(statement: Transactions.Statement)
    | Rethrow
    | Leave(breaks: bool)
    | If(condition: View -> Says, thn: seq<Stmt>, els: seq<Stmt>)
    | While(condition: View -> Says, body: seq<Stmt>)
    | Block(body: seq<Stmt>)
    | Try(body: seq<Stmt>, catch: seq<Stmt>)

  /** How a statement ends: normally, by an error, by a BREAK or CONTINUE on its
      way to its WHILE, or by a failure inside the server. */
  datatype Exit = Normal | Raised(error: Error) | Left(breaks: bool) | Broken

  datatype End = End(state: State, exit: Exit)

  // ---- what an error does to the batch around it ---------------------------

  const THE_BATCH_GOES_ON: set<int> :=
    {220, 244, 248, 517, 535, 2812, 3701, 201, 214, 266, 3902, 3903, 6401, 8162, 8178, 8115, 8134, 9828, 2628}
  const THE_SETTING_DOES_NOT_REACH: set<int> := {3701}
  const THE_BATCH_ENDS_AFTER: set<int> := {208, 241, 245, 281, 628, 2714, 3623, 4116, 8114, 8144, 8169, 8730}
  const SETTLED_WHILE_COMPILING: set<int> := {102, 105, 113, 119, 137, 141, 156, 179, 1087, 4145}
  const KEPT_UNLESS_XACT_ABORT: set<int> := {208, 4195, 4104, 107, 8133, 4127, 4151}

  /** Whether the rest of the batch runs, with this error among its answers. */
  predicate GoesOn(e: Error, xactAbort: bool) {
    if e.carriesOn.Some? then e.carriesOn.value
    else e.number in THE_BATCH_GOES_ON && !(xactAbort && e.number !in THE_SETTING_DOES_NOT_REACH)
  }

  /** Whether what answered before this error still reaches the client. */
  predicate Keeps(e: Error, xactAbort: bool) {
    e.carriesOn.Some? || e.number in THE_BATCH_ENDS_AFTER || (xactAbort && e.number in THE_BATCH_GOES_ON)
  }

  /** Whether a batch ending at this error leaves no transaction open. */
  predicate RollsBack(e: Error, xactAbort: bool) {
    if e.carriesOn.Some? then true
    else if e.number == UNSUPPORTED || e.number == SOURCE_UNAVAILABLE || e.number in SETTLED_WHILE_COMPILING then false
    else if e.number in KEPT_UNLESS_XACT_ABORT then xactAbort
    else true
  }

  /** Whether finishing a statement puts @@ERROR back to nought. */
  predicate ClearsTheError(s: Stmt) {
    match s
    case Act(_, clears) => clears
    case If(_, _, _) => false
    case While(_, _) => false
    case _ => true
  }

  // ---- running it ----------------------------------------------------------

  function Asked(st: State): State {
    st.(rowCount := 0, error := 0)
  }

  /** An error the batch runs on past stays among its answers. */
  function CarriedPast(st: State, e: Error): State {
    st.(error := e.number, rowCount := 0, answers := st.answers + [Failed(e)])
  }

  function Acted(st: State, effect: Effect): End {
    match effect
    case Goes(store, answer, count) =>
      End(st.(store := store,
              answers := if answer.Some? then st.answers + [Rows(answer.value)] else st.answers,
              rowCount := if count.Some? then count.value else st.rowCount), Normal)
    case Raises(store, e) => End(st.(store := store), Raised(e))
  }

  /** A bare THROW re-raises what its CATCH caught, and ends the batch even
      where that error would not have. */
  function Rethrown(caught: Option<Error>): Error {
    if caught.None? then Error(NOTHING_TO_RETHROW, None) else Error(caught.value.number, Some(false))
  }

  function Transacted(st: State, s: Transactions.Statement): End {
    var (now, outcome) := Transactions.Step(st.transactions, s);
    match outcome
    case Done => End(st.(transactions := now, rowCount := 0), Normal)
    case Refused(number) => End(st, Raised(Error(number, None)))
    case Crashed => End(st, Broken)
  }

  function Statement(s: Stmt, st: State, catching: bool): End
    decreases s, 0, 0
  {
    match s
    case Act(run, _) => Acted(st, run(ViewOf(st)))
    case SetXactAbort(on) => End(st.(xactAbort := on, rowCount := 0), Normal)
    case Transact(t) => Transacted(st, t)
    case Rethrow => End(st, Raised(Rethrown(st.caught)))
    case Leave(breaks) => End(st, Left(breaks))
    case If(condition, thn, els) =>
      (match condition(ViewOf(st))
       case CannotSay(e) => End(st, Raised(e))
       case Says(holds) => if holds then RunAll(thn, Asked(st), catching) else RunAll(els, Asked(st), catching))
    case While(condition, body) =>
      var end := Looped(condition, body, st, 0, catching);
      End(end.state, end.exit)
    case Block(body) => RunAll(body, st, catching)
    case Try(body, catch) =>
      var tried := Tried(body, st);
      if !tried.exit.Raised? then tried
      else
        var e := tried.exit.error;
        var ended := RunAll(catch, tried.state.(error := e.number, caught := Some(e)), catching);
        End(ended.state.(caught := None), ended.exit)
  }

  /** Each statement in turn, keeping what those that failed leave behind. */
  function RunAll(stmts: seq<Stmt>, st: State, catching: bool): End
    decreases stmts, 0, 0
  {
    if stmts == [] then End(st, Normal)
    else
      var end := Statement(stmts[0], st, catching);
      match end.exit
      case Normal =>
        RunAll(stmts[1..], if ClearsTheError(stmts[0]) then end.state.(error := 0) else end.state, catching)
      case Raised(e) =>
        if catching && GoesOn(e, end.state.xactAbort) then RunAll(stmts[1..], CarriedPast(end.state, e), catching)
        else End(end.state.(error := e.number), end.exit)
      case _ => end
  }

  /** A TRY's own statements: nothing is caught inside it, so that its CATCH gets
      the error. */
  function Tried(stmts: seq<Stmt>, st: State): End
    decreases stmts, 0, 0
  {
    if stmts == [] then End(st, Normal)
    else
      var end := Statement(stmts[0], st, false);
      if end.exit.Normal? then Tried(stmts[1..], end.state) else end
  }

  datatype LoopEnd = LoopEnd(state: State, exit: Exit, turns: nat)

  /** A WHILE from its condition on, having turned this often. */
  function Looped(condition: View -> Says, body: seq<Stmt>, st: State, turns: nat, catching: bool): (end: LoopEnd)
    requires turns <= MAX_LOOP_TURNS
    ensures turns <= end.turns <= MAX_LOOP_TURNS
    decreases body, 1, MAX_LOOP_TURNS - turns
  {
    match condition(ViewOf(st))
    case CannotSay(e) => LoopEnd(st, Raised(e), turns)
    case Says(holds) =>
      if !holds then LoopEnd(Asked(st), Normal, turns)
      else if turns == MAX_LOOP_TURNS then LoopEnd(Asked(st), Raised(Error(UNSUPPORTED, None)), turns)
      else
        var end := RunAll(body, Asked(st), catching);
        match end.exit
        case Left(breaks) =>
          if breaks then LoopEnd(end.state, Normal, turns + 1)
          else Looped(condition, body, end.state, turns + 1, catching)
        case Normal => Looped(condition, body, end.state, turns + 1, catching)
        case _ => LoopEnd(end.state, end.exit, turns + 1)
  }

  /** What a client is sent of a batch: its answers, or nothing it can read where
      the server itself failed. */
  datatype Sent = Sent(answers: seq<Answer>) | Failure

  /** A whole batch. Where it stops at an error, what answered before it is kept
      or thrown away by the error's kind, and the error is the last thing read. */
  function SentOf(end: End): Sent {
    match end.exit
    case Normal => Sent(end.state.answers)
    case Raised(e) =>
      if end.state.answers == [] || !Keeps(e, end.state.xactAbort) then Sent([Failed(e)])
      else Sent(end.state.answers + [Failed(e)])
    case _ => Failure
  }

  /** The error a batch comes to: the one it stopped at, or the only thing that
      it answered, which is raised again once it has run on. */
  function CameTo(end: End): Option<Error> {
    match end.exit
    case Raised(e) => Some(e)
    case Normal =>
      if |end.state.answers| == 1 && end.state.answers[0].Failed? then Some(end.state.answers[0].error) else None
    case _ => None
  }

  /** What is left of the transactions once it came to an error, which is asked
      about under the setting as it stands by then. */
  function AfterBatch(end: End): State {
    var e, on := CameTo(end), end.state.xactAbort;
    if e.Some? && !GoesOn(e.value, on) && RollsBack(e.value, on) then end.state.(transactions := Transactions.CLOSED)
    else end.state
  }

  /** A batch begins with nothing answered. */
  function Begun(st: State): State {
    st.(answers := [])
  }

  // ---- the interpreter, updating its state in place ------------------------

  class Interpreter {
    var store: Store
    var rowCount: nat
    var error: int
    var caught: Option<Error>
    var transactions: Transactions.Open
    var xactAbort: bool
    var answers: seq<Answer>

    function Now(): State
      reads this
    {
      State(store, rowCount, error, caught, transactions, xactAbort, answers)
    }

    constructor (st: State)
      ensures Now() == st
    {
      store, rowCount, error, caught := st.store, st.rowCount, st.error, st.caught;
      transactions, xactAbort, answers := st.transactions, st.xactAbort, st.answers;
    }

    method RunOne(s: Stmt, catching: bool) returns (exit: Exit)
      modifies this
      ensures End(Now(), exit) == Statement(s, old(Now()), catching)
      decreases s, 0, 0
    {
      match s
      case Act(run, _) =>
        exit := Perform(run(ViewOf(Now())));
      case SetXactAbort(on) =>
        xactAbort := on;
        rowCount := 0;
        exit := Normal;
      case Transact(t) =>
        var (now, outcome) := Transactions.Step(transactions, t);
        match outcome {
          case Done =>
            transactions := now;
            rowCount := 0;
            exit := Normal;
          case Refused(number) =>
            exit := Raised(Error(number, None));
          case Crashed =>
            exit := Broken;
        }
      case Rethrow =>
        exit := Raised(Rethrown(caught));
      case Leave(breaks) =>
        exit := Left(breaks);
      case If(condition, thn, els) =>
        var said := condition(ViewOf(Now()));
        if said.CannotSay? {
          return Raised(said.error);
        }
        rowCount, error := 0, 0;
        if said.holds {
          exit := RunEach(thn, catching);
        } else {
          exit := RunEach(els, catching);
        }
      case While(condition, body) =>
        exit := Loop(condition, body, catching);
      case Block(body) =>
        exit := RunEach(body, catching);
      case Try(body, catch) =>
        exit := TryEach(body);
        if exit.Raised? {
          error := exit.error.number;
          caught := Some(exit.error);
          exit := RunEach(catch, catching);
          caught := None;
        }
    }

    method Perform(effect: Effect) returns (exit: Exit)
      modifies this
      ensures End(Now(), exit) == Acted(old(Now()), effect)
    {
      store := effect.store;
      if effect.Raises? {
        return Raised(effect.raised);
      }
      if effect.answer.Some? {
        answers := answers + [Rows(effect.answer.value)];
      }
      if effect.rowCount.Some? {
        rowCount := effect.rowCount.value;
      }
      exit := Normal;
    }

    method RunEach(stmts: seq<Stmt>, catching: bool) returns (exit: Exit)
      modifies this
      ensures End(Now(), exit) == RunAll(stmts, old(Now()), catching)
      decreases stmts, 0, 0
    {
      ghost var end := RunAll(stmts, Now(), catching);
      assert stmts[0..] == stmts;
      for at := 0 to |stmts|
        invariant RunAll(stmts[at..], Now(), catching) == end
      {
        assert stmts[at..][1..] == stmts[at + 1..];
        exit := RunOne(stmts[at], catching);
        match exit
        case Normal =>
          if ClearsTheError(stmts[at]) {
            error := 0;
          }
        case Raised(e) =>
          error := e.number;
          if !catching || !GoesOn(e, xactAbort) {
            return;
          }
          answers := answers + [Failed(e)];
          rowCount := 0;
        case _ =>
          return;
      }
      exit := Normal;
    }

    method TryEach(stmts: seq<Stmt>) returns (exit: Exit)
      modifies this
      ensures End(Now(), exit) == Tried(stmts, old(Now()))
      decreases stmts, 0, 0
    {
      ghost var end := Tried(stmts, Now());
      assert stmts[0..] == stmts;
      for at := 0 to |stmts|
        invariant Tried(stmts[at..], Now()) == end
      {
        assert stmts[at..][1..] == stmts[at + 1..];
        exit := RunOne(stmts[at], false);
        if !exit.Normal? {
          return;
        }
      }
      exit := Normal;
    }

    method Loop(condition: View -> Says, body: seq<Stmt>, catching: bool) returns (exit: Exit)
      modifies this
      ensures var end := Looped(condition, body, old(Now()), 0, catching); Now() == end.state && exit == end.exit
      decreases body, 1, 0
    {
      ghost var end := Looped(condition, body, Now(), 0, catching);
      var turns := 0;
      while true
        invariant turns <= MAX_LOOP_TURNS
        invariant Looped(condition, body, Now(), turns, catching) == end
        decreases MAX_LOOP_TURNS - turns
      {
        var said := condition(ViewOf(Now()));
        if said.CannotSay? {
          return Raised(said.error);
        }
        rowCount, error := 0, 0;
        if !said.holds {
          return Normal;
        }
        if turns == MAX_LOOP_TURNS {
          return Raised(Error(UNSUPPORTED, None));
        }
        turns := turns + 1;
        exit := RunEach(body, catching);
        if exit.Left? {
          if exit.breaks {
            return Normal;
          }
        } else if !exit.Normal? {
          return exit;
        }
      }
    }

    /** A batch, as what a client is sent of it. */
    method RunBatch(stmts: seq<Stmt>) returns (sent: Sent)
      modifies this
      ensures sent == SentOf(RunAll(stmts, Begun(old(Now())), true))
      ensures Now() == AfterBatch(RunAll(stmts, Begun(old(Now())), true))
    {
      answers := [];
      var exit := RunEach(stmts, true);
      match exit
      case Normal =>
        if |answers| == 1 && answers[0].Failed? {
          EndedAt(answers[0].error);
        }
        sent := Sent(answers);
      case Raised(e) =>
        EndedAt(e);
        sent := Sent(if answers == [] || !Keeps(e, xactAbort) then [Failed(e)] else answers + [Failed(e)]);
      case _ =>
        sent := Failure;
    }

    /** Closes the transactions where this error ended the batch. */
    method EndedAt(e: Error)
      modifies this`transactions
      ensures transactions == if !GoesOn(e, xactAbort) && RollsBack(e, xactAbort) then Transactions.CLOSED
                              else old(transactions)
    {
      if !GoesOn(e, xactAbort) && RollsBack(e, xactAbort) {
        transactions := Transactions.CLOSED;
      }
    }
  }
}
