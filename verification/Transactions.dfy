/** A connection's transactions. Nothing is written here, so there is nothing to
    commit: what is kept is how many are open, what the outermost was called,
    and the savepoints marked inside it, newest last. */
module Transactions {
  import opened Outcomes
  import opened Values

  /** A transaction statement. A name is None where none was written, or where
      the variable written holds NULL. */
  datatype Statement =
    | Begin(name: Option<string>)
    | Commit
    | Rollback(name: Option<string>)
    | Save(name: Option<string>)

  /** A refused statement carries the number a client reads. Crashed is a
      failure inside the server: matching a mark whose name is NULL. */
  datatype Outcome = Done | Refused(number: int) | Crashed

  const COMMIT_WITHOUT_BEGIN := 3902
  const ROLLBACK_WITHOUT_BEGIN := 3903
  const SAVE_WITHOUT_BEGIN := 628
  const NO_SUCH_SAVEPOINT := 6401

  datatype Open = Open(count: nat, name: Option<string>, savepoints: seq<Option<string>>)

  const CLOSED := Open(0, None, [])

  /** Whether a mark answers to this name, however either is cased. */
  predicate IsMarked(mark: Option<string>, name: string) {
    mark.Some? && Fold(mark.value) == Fold(name)
  }

  /** The place of the newest mark of a name, or None. */
  function Newest(marks: seq<Option<string>>, name: string): (at: Option<nat>)
    ensures at.Some? ==> at.value < |marks| && IsMarked(marks[at.value], name)
    ensures at.Some? ==> forall k :: at.value < k < |marks| ==> !IsMarked(marks[k], name)
    ensures at.None? ==> forall k :: 0 <= k < |marks| ==> !IsMarked(marks[k], name)
  {
    if marks == [] then None
    else
      var n := |marks| - 1;
      if IsMarked(marks[n], name) then Some(n) else Newest(marks[..n], name)
  }

  /** What one statement does: a savepoint is looked for before a transaction of
      the same name, and without regard to case where the transaction's name is
      matched exactly. */
  function Step(t: Open, s: Statement): (Open, Outcome) {
    match s
    case Begin(name) =>
      (if t.count == 0 then Open(1, name, []) else t.(count := t.count + 1), Done)
    case Commit =>
      if t.count == 0 then (t, Refused(COMMIT_WITHOUT_BEGIN))
      else (if t.count == 1 then CLOSED else t.(count := t.count - 1), Done)
    case Save(name) =>
      if t.count == 0 then (t, Refused(SAVE_WITHOUT_BEGIN))
      else (t.(savepoints := t.savepoints + [name]), Done)
    case Rollback(name) =>
      if t.count == 0 then (t, Refused(ROLLBACK_WITHOUT_BEGIN))
      else if None in t.savepoints then (t, Crashed)
      else
        var at := if name.Some? then Newest(t.savepoints, name.value) else None;
        if at.Some? then (t.(savepoints := t.savepoints[..at.value]), Done)
        else if name.None? || name == t.name then (CLOSED, Done)
        else (t, Refused(NO_SUCH_SAVEPOINT))
  }

  class Transactions {
    var count: nat
    var name: Option<string>
    var savepoints: seq<Option<string>>

    function State(): Open
      reads this
    {
      Open(count, name, savepoints)
    }

    constructor ()
      ensures State() == CLOSED
    {
      count, name, savepoints := 0, None, [];
    }

    method End()
      modifies this
      ensures State() == CLOSED
    {
      count, name, savepoints := 0, None, [];
    }

    method Run(s: Statement) returns (outcome: Outcome)
      modifies this
      ensures (State(), outcome) == Step(old(State()), s)
    {
      match s
      case Begin(written) =>
        count := count + 1;
        if count == 1 {
          name := written;
          savepoints := [];
        }
        return Done;
      case Commit =>
        if count == 0 {
          return Refused(COMMIT_WITHOUT_BEGIN);
        }
        count := count - 1;
        if count == 0 {
          End();
        }
        return Done;
      case Rollback(named) =>
        if count == 0 {
          return Refused(ROLLBACK_WITHOUT_BEGIN);
        }
        if None in savepoints {
          return Crashed;
        }
        var at := if named.Some? then Newest(savepoints, named.value) else None;
        if at.Some? {
          savepoints := savepoints[..at.value];
        } else if named.None? || named == name {
          End();
        } else {
          return Refused(NO_SUCH_SAVEPOINT);
        }
        return Done;
      case Save(written) =>
        if count == 0 {
          return Refused(SAVE_WITHOUT_BEGIN);
        }
        savepoints := savepoints + [written];
        return Done;
    }
  }

  // ---- what every run keeps ------------------------------------------------

  function After(log: seq<Statement>): Open {
    if log == [] then CLOSED else Step(After(log[..|log| - 1]), log[|log| - 1]).0
  }

  /** With nothing open there is no name and no mark. */
  lemma {:induction false} NothingOpenNothingKept(log: seq<Statement>)
    ensures After(log).count == 0 ==> After(log) == CLOSED
  {
    if log != [] {
      NothingOpenNothingKept(log[..|log| - 1]);
    }
  }

  /** A statement that is not done leaves everything as it was. */
  lemma RefusedChangesNothing(t: Open, s: Statement)
    ensures Step(t, s).1 != Done ==> Step(t, s).0 == t
  {
  }

  /** Rolling back to a mark keeps exactly the marks before its newest, and the
      count and the name. */
  lemma RollingBackToAMark(t: Open, name: string)
    requires t.count > 0 && None !in t.savepoints
    requires exists k :: 0 <= k < |t.savepoints| && IsMarked(t.savepoints[k], name)
    ensures var (now, outcome) := Step(t, Rollback(Some(name)));
            && outcome == Done && now.count == t.count && now.name == t.name
            && now.savepoints < t.savepoints
            && IsMarked(t.savepoints[|now.savepoints|], name)
            && forall k :: |now.savepoints| < k < |t.savepoints| ==> !IsMarked(t.savepoints[k], name)
  {
  }

  predicate SavesAName(s: Statement) {
    s.Save? ==> s.name.Some?
  }

  lemma {:induction false} MarksComeFromSaves(log: seq<Statement>)
    requires forall s :: s in log ==> SavesAName(s)
    ensures None !in After(log).savepoints
  {
    if log != [] {
      var n := |log| - 1;
      var before := log[..n];
      assert log == before + [log[n]];
      MarksComeFromSaves(before);
      StepAddsNoNull(After(before), log[n]);
    }
  }

  lemma StepAddsNoNull(t: Open, s: Statement)
    requires SavesAName(s) && None !in t.savepoints
    ensures None !in Step(t, s).0.savepoints
  {
    var now := Step(t, s).0.savepoints;
    assert now == [] || now <= t.savepoints || (s.Save? && now == t.savepoints + [s.name]);
  }

  /** A ROLLBACK crashes exactly where a mark of no name is held inside an open
      transaction, which SAVE with a variable that is NULL leaves; no log whose
      SAVEs are all named ever crashes. */
  lemma CrashesWhereANullIsMarked(log: seq<Statement>, s: Statement)
    ensures Step(After(log), s).1 == Crashed <==> s.Rollback? && None in After(log).savepoints
    ensures (forall one :: one in log ==> SavesAName(one)) ==> Step(After(log), s).1 != Crashed
  {
    NothingOpenNothingKept(log);
    if forall one :: one in log ==> SavesAName(one) {
      MarksComeFromSaves(log);
    }
  }

  /** BEGIN, SAVE with a variable that is NULL, and a ROLLBACK, even one that names
      nothing. */
  lemma NullMarkCrashes(names: Option<string>)
    ensures Step(After([Begin(None), Save(None)]), Rollback(names)).1 == Crashed
  {
    var log := [Begin(None), Save(None)];
    assert log[..1] == [Begin(None)] && log[..1][..0] == [];
  }

  /** What a statement comes to after any log: BEGIN is always done, COMMIT, SAVE and
      ROLLBACK are refused where nothing is open, and a ROLLBACK is done where it
      names nothing, or a mark held however it is cased, which it goes back to, or
      the outermost transaction to the letter, and else refused; going back to no
      mark closes everything. */
  lemma OutcomesFollowWhatIsHeld(log: seq<Statement>, s: Statement)
    ensures var held := After(log);
            var (now, outcome) := Step(held, s);
            match s
            case Begin(name) => outcome == Done && now.count == held.count + 1
                                && now.name == (if held.count == 0 then name else held.name)
            case Commit =>
              if held.count == 0 then outcome == Refused(3902)
              else
                && outcome == Done && now.count == held.count - 1
                && (now.count > 0 ==> now == held.(count := now.count))
            case Save(name) =>
              if held.count == 0 then outcome == Refused(628)
              else outcome == Done && now == held.(savepoints := held.savepoints + [name])
            case Rollback(name) =>
              if held.count == 0 then outcome == Refused(3903)
              else if None in held.savepoints then outcome == Crashed
              else if name.Some? && exists mark :: mark in held.savepoints && IsMarked(mark, name.value) then
                outcome == Done && now.count == held.count && now.savepoints < held.savepoints
              else if name.None? || name == held.name then outcome == Done && now == CLOSED
              else outcome == Refused(6401)
  {
    var held := After(log);
    NothingOpenNothingKept(log);
    if s.Rollback? && s.name.Some? && held.count > 0 && None !in held.savepoints {
      if mark :| mark in held.savepoints && IsMarked(mark, s.name.value) {
        var k :| 0 <= k < |held.savepoints| && held.savepoints[k] == mark;
        RollingBackToAMark(held, s.name.value);
      }
    }
  }

  // ---- the state, read off the log -----------------------------------------

  /** The statements done since the outermost BEGIN that is still open. */
  function Since(log: seq<Statement>): seq<Statement> {
    if log == [] then []
    else
      var n := |log| - 1;
      var (now, outcome) := Step(After(log[..n]), log[n]);
      if outcome != Done then Since(log[..n])
      else if now.count == 0 then []
      else Since(log[..n]) + [log[n]]
  }

  function Begins(log: seq<Statement>): nat {
    if log == [] then 0 else Begins(log[..|log| - 1]) + (if log[|log| - 1].Begin? then 1 else 0)
  }

  function Commits(log: seq<Statement>): nat {
    if log == [] then 0 else Commits(log[..|log| - 1]) + (if log[|log| - 1].Commit? then 1 else 0)
  }

  predicate SavesAs(s: Statement, name: string) {
    s.Save? && IsMarked(s.name, name)
  }

  /** A SAVE stands, just before the j-th statement, unless some ROLLBACK since
      named no SAVE newer than it that then stood. */
  ghost predicate Stands(log: seq<Statement>, i: nat, j: nat)
    requires j <= |log|
    decreases j, 0
  {
    i < j && log[i].Save? && forall m :: i < m < j ==> SparedBy(log, i, m)
  }

  ghost predicate SparedBy(log: seq<Statement>, i: nat, m: nat)
    requires m < |log|
    decreases m, 1
  {
    log[m].Rollback? ==>
      log[m].name.Some? && exists k :: i < k < m && SavesAs(log[k], log[m].name.value) && Stands(log, k, m)
  }

  /** The SAVEs before n that stand at the end, oldest first. */
  ghost function Standing(log: seq<Statement>, n: nat): seq<nat>
    requires n <= |log|
  {
    if n == 0 then [] else Standing(log, n - 1) + (if Stands(log, n - 1, |log|) then [n - 1] else [])
  }

  function NameOf(log: seq<Statement>, at: nat): Option<string> {
    if at < |log| && log[at].Save? then log[at].name else None
  }

  function NamesAt(log: seq<Statement>, positions: seq<nat>): (names: seq<Option<string>>)
    ensures |names| == |positions|
    ensures forall b :: 0 <= b < |positions| ==> names[b] == NameOf(log, positions[b])
  {
    seq(|positions|, b requires 0 <= b < |positions| => NameOf(log, positions[b]))
  }

  ghost function Marks(log: seq<Statement>): seq<Option<string>> {
    NamesAt(log, Standing(log, |log|))
  }

  lemma {:induction false} StandsOnTheFront(log: seq<Statement>, more: seq<Statement>, i: nat, j: nat)
    requires j <= |log|
    ensures Stands(log + more, i, j) == Stands(log, i, j)
    decreases j, 0
  {
    assert i < j ==> (log + more)[i] == log[i];
    forall m | i < m < j ensures SparedBy(log + more, i, m) == SparedBy(log, i, m) {
      SparedOnTheFront(log, more, i, m);
    }
  }

  lemma {:induction false} SparedOnTheFront(log: seq<Statement>, more: seq<Statement>, i: nat, m: nat)
    requires m < |log|
    ensures SparedBy(log + more, i, m) == SparedBy(log, i, m)
    decreases m, 1
  {
    forall k | i < k < m ensures Stands(log + more, k, m) == Stands(log, k, m) && (log + more)[k] == log[k] {
      StandsOnTheFront(log, more, k, m);
    }
    assert (log + more)[m] == log[m];
  }

  /** Whether a SAVE standing before the last statement still stands after it. */
  predicate Outlives(log: seq<Statement>, s: Statement, i: nat, standing: seq<nat>) {
    s.Rollback? ==> s.name.Some? && exists k :: k in standing && i < k < |log| && SavesAs(log[k], s.name.value)
  }

  lemma {:induction false} StandingIsStanding(log: seq<Statement>, n: nat)
    requires n <= |log|
    ensures forall i :: i in Standing(log, n) <==> 0 <= i < n && Stands(log, i, |log|)
    ensures forall a, b :: 0 <= a < b < |Standing(log, n)| ==> Standing(log, n)[a] < Standing(log, n)[b]
  {
    if n > 0 {
      var before := Standing(log, n - 1);
      StandingIsStanding(log, n - 1);
      assert forall a :: 0 <= a < |before| ==> before[a] in before;
    }
  }

  lemma SparedByTheLast(log: seq<Statement>, s: Statement, i: nat)
    requires i < |log|
    ensures SparedBy(log + [s], i, |log|) <==> Outlives(log, s, i, Standing(log, |log|))
  {
    var all, n := log + [s], |log|;
    StandingIsStanding(log, n);
    forall k | i < k < n ensures Stands(all, k, n) == Stands(log, k, n) && all[k] == log[k] {
      StandsOnTheFront(log, [s], k, n);
    }
    assert all[n] == s;
  }

  lemma StandsAfterOneMore(log: seq<Statement>, s: Statement, i: nat)
    requires i < |log|
    ensures Stands(log + [s], i, |log| + 1) <==> Stands(log, i, |log|) && Outlives(log, s, i, Standing(log, |log|))
  {
    StandsOnTheFront(log, [s], i, |log|);
    SparedByTheLast(log, s, i);
    hide SparedBy, Outlives;
  }

  lemma NamesOnTheFront(log: seq<Statement>, s: Statement, positions: seq<nat>)
    requires forall i :: i in positions ==> i < |log|
    ensures NamesAt(log + [s], positions) == NamesAt(log, positions)
  {
    forall b | 0 <= b < |positions| ensures NameOf(log + [s], positions[b]) == NameOf(log, positions[b]) {
      assert positions[b] in positions;
    }
  }

  /** A statement that is no ROLLBACK lets every standing SAVE stand. */
  lemma {:induction false} AllStillStand(log: seq<Statement>, s: Statement, n: nat)
    requires !s.Rollback? && n <= |log|
    ensures Standing(log + [s], n) == Standing(log, n)
  {
    if n > 0 {
      AllStillStand(log, s, n - 1);
      StandsAfterOneMore(log, s, n - 1);
    }
  }

  /** A standing SAVE still stands after a ROLLBACK exactly where it came before
      the newest standing SAVE of that name. */
  lemma OlderOutlives(log: seq<Statement>, name: string, newest: nat, i: nat)
    requires newest in Standing(log, |log|) && newest < |log| && SavesAs(log[newest], name) && i < |log|
    requires forall k :: k in Standing(log, |log|) && newest < k < |log| ==> !SavesAs(log[k], name)
    ensures Outlives(log, Rollback(Some(name)), i, Standing(log, |log|)) <==> i < newest
  {
  }

  lemma {:induction false} OlderStillStand(log: seq<Statement>, name: string, newest: nat, n: nat)
    requires n <= |log| && newest in Standing(log, |log|) && newest < |log| && SavesAs(log[newest], name)
    requires forall k :: k in Standing(log, |log|) && newest < k < |log| ==> !SavesAs(log[k], name)
    ensures Standing(log + [Rollback(Some(name))], n) == Standing(log, if n <= newest then n else newest)
  {
    assert Standing(log + [Rollback(Some(name))], 0) == Standing(log, 0);
    hide Outlives, Stands, SavesAs;
    if n > 0 {
      OlderStillStand(log, name, newest, n - 1);
      StandsAfterOneMore(log, Rollback(Some(name)), n - 1);
      OlderOutlives(log, name, newest, n - 1);
    }
  }

  lemma {:induction false} StandingIsAPrefix(log: seq<Statement>, at: nat, n: nat)
    requires n <= |log| && at < |Standing(log, n)|
    ensures Standing(log, n)[at] < n
    ensures Standing(log, Standing(log, n)[at]) == Standing(log, n)[..at]
  {
    hide Stands;
    StandingIsStanding(log, n);
    var all, before := Standing(log, n), Standing(log, n - 1);
    assert all[at] in all;
    if at < |before| {
      StandingIsAPrefix(log, at, n - 1);
      assert all[..at] == before[..at];
    } else {
      assert all == before + [n - 1];
    }
  }

  /** The SAVE behind the newest mark of a name is the newest standing SAVE of
      that name. */
  lemma NewestMarkIsNewestSave(log: seq<Statement>, name: string) returns (newest: nat)
    requires Newest(Marks(log), name).Some?
    ensures Newest(Marks(log), name).value < |Standing(log, |log|)|
    ensures newest in Standing(log, |log|) && newest == Standing(log, |log|)[Newest(Marks(log), name).value]
    ensures newest < |log| && SavesAs(log[newest], name)
    ensures forall k :: k in Standing(log, |log|) && newest < k < |log| ==> !SavesAs(log[k], name)
  {
    var positions, at := Standing(log, |log|), Newest(Marks(log), name).value;
    StandingIsStanding(log, |log|);
    newest := positions[at];
    assert newest in positions;
    assert Marks(log)[at] == NameOf(log, newest);
    forall k | k in positions && newest < k < |log| ensures !SavesAs(log[k], name) {
      var b :| 0 <= b < |positions| && positions[b] == k;
      assert b > at && Marks(log)[b] == NameOf(log, k);
    }
  }

  lemma RollbackIsNoMark(log: seq<Statement>, s: Statement)
    requires s.Rollback?
    ensures Standing(log + [s], |log| + 1) == Standing(log + [s], |log|)
  {
    var all, n := log + [s], |log|;
    assert all[n] == s && !Stands(all, n, n + 1);
    hide Stands;
    assert Standing(all, n + 1) == Standing(all, n) + [];
  }

  lemma StandingAfterARollback(log: seq<Statement>, name: string)
    requires Newest(Marks(log), name).Some?
    ensures Standing(log + [Rollback(Some(name))], |log| + 1) == Standing(log, |log|)[..Newest(Marks(log), name).value]
  {
    hide *;
    var newest := NewestMarkIsNewestSave(log, name);
    OlderStillStand(log, name, newest, |log|);
    StandingIsAPrefix(log, Newest(Marks(log), name).value, |log|);
    RollbackIsNoMark(log, Rollback(Some(name)));
  }

  lemma MarksAfterARollback(log: seq<Statement>, name: string)
    requires Newest(Marks(log), name).Some?
    ensures Marks(log + [Rollback(Some(name))]) == Marks(log)[..Newest(Marks(log), name).value]
  {
    StandingAfterARollback(log, name);
    StandingIsStanding(log, |log|);
    hide Stands, Newest, Standing;
    var positions := Standing(log, |log|);
    var kept := positions[..Newest(Marks(log), name).value];
    forall i | i in kept ensures i < |log| {
      assert i in positions;
    }
    NamesOnTheFront(log, Rollback(Some(name)), kept);
  }

  lemma MarksAfterAnother(log: seq<Statement>, s: Statement)
    requires !s.Rollback?
    ensures Marks(log + [s]) == if s.Save? then Marks(log) + [s.name] else Marks(log)
  {
    var positions, n := Standing(log, |log|), |log|;
    StandingIsStanding(log, n);
    AllStillStand(log, s, n);
    NamesOnTheFront(log, s, positions);
    assert (log + [s])[n] == s;
    assert Stands(log + [s], n, n + 1) <==> s.Save?;
    assert Standing(log + [s], n + 1) == if s.Save? then positions + [n] else positions;
    hide Stands, Standing;
    assert NamesAt(log + [s], positions + [n]) == NamesAt(log + [s], positions) + [NameOf(log + [s], n)];
  }

  /** As many open as were begun and not committed, the name the outermost was
      begun with, and the names of the SAVEs that still stand. */
  ghost predicate Says(since: seq<Statement>, t: Open) {
    && t.count == Begins(since) - Commits(since)
    && (since == [] <==> t.count == 0)
    && (since == [] ==> t == CLOSED)
    && (since != [] ==> since[0].Begin? && t.name == since[0].name)
    && t.savepoints == Marks(since)
  }

  /** What a connection keeps is what the statements done since the outermost
      BEGIN say. */
  lemma {:induction false} KeptIsWhatTheLogSays(log: seq<Statement>)
    ensures Says(Since(log), After(log))
  {
    assert Marks([]) == [];
    NothingSaid();
    hide Says, Step;
    if log != [] {
      var n := |log| - 1;
      var s, before := log[n], log[..n];
      KeptIsWhatTheLogSays(before);
      NothingOpenNothingKept(before);
      StepsToClosed(After(before), s);
      RefusedChangesNothing(After(before), s);
      if Step(After(before), s).1 == Done && Step(After(before), s).0.count > 0 {
        OneMoreStatement(Since(before), After(before), s);
      }
    }
  }

  lemma NothingSaid()
    ensures Says([], CLOSED)
  {
  }

  lemma StepsToClosed(t: Open, s: Statement)
    requires t.count == 0 ==> t == CLOSED
    ensures Step(t, s).0.count == 0 ==> Step(t, s).0 == CLOSED
  {
  }

  lemma OneMoreStatement(since: seq<Statement>, t: Open, s: Statement)
    requires Says(since, t)
    requires Step(t, s).1 == Done && Step(t, s).0.count > 0
    ensures Says(since + [s], Step(t, s).0)
  {
    assert (since + [s])[..|since|] == since;
    if s.Rollback? {
      MarksAfterARollback(since, s.name.value);
    } else {
      MarksAfterAnother(since, s);
    }
  }
}
