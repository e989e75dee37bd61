/** The cached table of a source, read and refreshed by many threads: a stale
    table is served while one thread refreshes it behind the returning query.
    Every read and write of a shared field is a step of its own. */
module Refresh {
  import opened Outcomes

  type Thread = nat
  type Table = nat
  type Duration = passed: real | 0.0 <= passed

  /** Where a thread stands in load, _begin_background_refresh, _refresh, prime
      or invalidate. A refresh is run by the background thread or by a load that
      had nothing to serve. */
  datatype Place =
    | LoadRead
    | LoadClock(cached: Table)
    | LoadAge(cached: Table, read: real)
    | LoadAgain
    | GateWait(stale: Table)
    | GateFlag(stale: Table)
    | GateAge(stale: Table)
    | GateOpen(stale: Table)
    | GateLeave(stale: Table)
    | Spawning(stale: Table)
    | FrontWait
    | FrontAge
    | BackWait
    | Fetching(background: bool)
    | Storing(background: bool, table: Table)
    | Stamping(background: bool, table: Table)
    | Clearing(background: bool, table: Table)
    | Leaving(background: bool, answer: Option<Table>, failed: bool)
    | ClearingFailed
    | PrimeWait(table: Table)
    | PrimeStoring(table: Table)
    | PrimeStamping
    | DropWait
    | Dropping
    | DropStamping
    | OtherLeaving
    | Done(answer: Option<Table>)

  /** The fields every thread shares, and who holds the lock. */
  datatype Shared = Shared(
    ttl: real, now: real, cached: Option<Table>, fetchedAt: real, refreshing: bool, holder: Option<Thread>)

  datatype State = State(shared: Shared, threads: map<Thread, Place>)

  datatype Call = Load | Prime(table: Table) | Invalidate

  /** What happens next: a thread makes a call, time passes, or a thread takes its
      next step, a fetch giving a table or failing and a new thread getting a
      name. */
  datatype Event =
    | Begin(t: Thread, call: Call)
    | Tick(passed: Duration)
    | Go(t: Thread, fetched: Option<Table>, spawned: Thread)

  predicate Fresh(s: Shared) {
    s.cached.Some? && s.now - s.fetchedAt < s.ttl
  }

  /** What one step makes of the shared fields and of the thread's place, and
      whether it starts the refresh's own thread. */
  datatype Moved = Moved(shared: Shared, place: Place, starts: bool)

  /** Waiting for the lock: taken if it is free, and no step at all if it is not. */
  function Acquire(s: Shared, t: Thread, waiting: Place, inside: Place): Moved {
    if s.holder.None? then Moved(s.(holder := Some(t)), inside, false) else Moved(s, waiting, false)
  }

  function Release(s: Shared, place: Place): Moved {
    Moved(s.(holder := None), place, false)
  }

  function Stay(s: Shared, place: Place): Moved {
    Moved(s, place, false)
  }

  function Move(s: Shared, t: Thread, place: Place, fetched: Option<Table>): Moved {
    match place
    case LoadRead => Stay(s, if s.cached.Some? then LoadClock(s.cached.value) else LoadAgain)
    case LoadClock(cached) => Stay(s, LoadAge(cached, s.now))
    case LoadAge(cached, read) => Stay(s, if read - s.fetchedAt < s.ttl then Done(Some(cached)) else LoadAgain)
    case LoadAgain => Stay(s, if s.cached.Some? then GateWait(s.cached.value) else FrontWait)
    case GateWait(stale) => Acquire(s, t, place, GateFlag(stale))
    case GateFlag(stale) => Stay(s, if s.refreshing then GateLeave(stale) else GateAge(stale))
    case GateAge(stale) => Stay(s, if Fresh(s) then GateLeave(stale) else GateOpen(stale))
    case GateOpen(stale) => Release(s.(refreshing := true), Spawning(stale))
    case GateLeave(stale) => Release(s, Done(Some(stale)))
    case Spawning(stale) => Moved(s, Done(Some(stale)), true)
    case FrontWait => Acquire(s, t, place, FrontAge)
    case FrontAge => Stay(s, if Fresh(s) then Leaving(false, s.cached, false) else Fetching(false))
    case BackWait => Acquire(s, t, place, Fetching(true))
    case Fetching(background) =>
      Stay(s, if fetched.Some? then Storing(background, fetched.value) else Leaving(background, None, true))
    case Storing(background, table) => Stay(s.(cached := Some(table)), Stamping(background, table))
    case Stamping(background, table) => Stay(s.(fetchedAt := s.now), Clearing(background, table))
    case Clearing(background, table) => Stay(s.(refreshing := false), Leaving(background, Some(table), false))
    case Leaving(background, answer, failed) =>
      Release(s, if background && failed then ClearingFailed else Done(answer))
    case ClearingFailed => Stay(s.(refreshing := false), Done(None))
    case PrimeWait(table) => Acquire(s, t, place, PrimeStoring(table))
    case PrimeStoring(table) => Stay(s.(cached := Some(table)), PrimeStamping)
    case PrimeStamping => Stay(s.(fetchedAt := s.now), OtherLeaving)
    case DropWait => Acquire(s, t, place, Dropping)
    case Dropping => Stay(s.(cached := None), DropStamping)
    case DropStamping => Stay(s.(fetchedAt := 0.0), OtherLeaving)
    case OtherLeaving => Release(s, Done(None))
    case Done(_) => Stay(s, place)
  }

  function Called(call: Call): Place {
    match call
    case Load => LoadRead
    case Prime(table) => PrimeWait(table)
    case Invalidate => DropWait
  }

  function After(s: State, e: Event): State {
    match e
    case Begin(t, call) => if t in s.threads then s else s.(threads := s.threads[t := Called(call)])
    case Tick(passed) => s.(shared := s.shared.(now := s.shared.now + passed))
    case Go(t, fetched, spawned) =>
      if t !in s.threads then s
      else
        var m := Move(s.shared, t, s.threads[t], fetched);
        if !m.starts then State(m.shared, s.threads[t := m.place])
        else if spawned in s.threads then s
        else State(m.shared, s.threads[t := m.place][spawned := BackWait])
  }

  function Ran(s: State, events: seq<Event>): State
    decreases |events|
  {
    if events == [] then s else Ran(After(s, events[0]), events[1..])
  }

  // ---- the lock ------------------------------------------------------------

  predicate Holds(place: Place) {
    match place
    case GateFlag(_) => true
    case GateAge(_) => true
    case GateOpen(_) => true
    case GateLeave(_) => true
    case FrontAge => true
    case Fetching(_) => true
    case Storing(_, _) => true
    case Stamping(_, _) => true
    case Clearing(_, _) => true
    case Leaving(_, _, _) => true
    case PrimeStoring(_) => true
    case PrimeStamping => true
    case Dropping => true
    case DropStamping => true
    case OtherLeaving => true
    case _ => false
  }

  /** A thread about to let a refresh through has seen the flag down, and nothing
      puts it up meanwhile. */
  predicate SawTheFlagDown(place: Place) {
    place.GateAge? || place.GateOpen?
  }

  /** Exactly the thread inside the lock holds it. */
  ghost predicate Locked(s: State) {
    && (forall t <- s.threads :: Holds(s.threads[t]) <==> s.shared.holder == Some(t))
    && (s.shared.holder.Some? ==> s.shared.holder.value in s.threads)
    && (forall t <- s.threads :: SawTheFlagDown(s.threads[t]) ==> !s.shared.refreshing)
  }

  lemma LockMoves(s: Shared, t: Thread, place: Place, fetched: Option<Table>)
    requires Holds(place) <==> s.holder == Some(t)
    requires SawTheFlagDown(place) ==> !s.refreshing
    ensures var m := Move(s, t, place, fetched);
            && (Holds(m.place) <==> m.shared.holder == Some(t))
            && (|| m.shared.holder == s.holder
                || (s.holder.None? && m.shared.holder == Some(t))
                || (s.holder == Some(t) && m.shared.holder.None?))
            && (SawTheFlagDown(m.place) ==> !m.shared.refreshing)
            && (!s.refreshing && m.shared.refreshing ==> s.holder == Some(t))
  {
  }

  lemma LockedAfter(s: State, e: Event)
    requires Locked(s)
    ensures Locked(After(s, e))
  {
    if e.Go? && e.t in s.threads {
      LockMoves(s.shared, e.t, s.threads[e.t], e.fetched);
      hide Move;
      var s' := After(s, e);
      forall t | t in s'.threads
        ensures Holds(s'.threads[t]) <==> s'.shared.holder == Some(t)
        ensures SawTheFlagDown(s'.threads[t]) ==> !s'.shared.refreshing
      {
      }
    }
  }

  // ---- one background refresh at a time ------------------------------------

  /** A background refresh that was let through and has not cleared the flag: its
      thread still to be started, waiting, refreshing, or having failed. */
  predicate Outstanding(place: Place) {
    match place
    case Spawning(_) => true
    case BackWait => true
    case Fetching(background) => background
    case Storing(background, _) => background
    case Stamping(background, _) => background
    case Clearing(background, _) => background
    case Leaving(background, _, failed) => background && failed
    case ClearingFailed => true
    case _ => false
  }

  ghost function AllOutstanding(threads: map<Thread, Place>): set<Thread> {
    set t <- threads | Outstanding(threads[t])
  }

  /** The flag is up exactly while one background refresh is outstanding. */
  ghost predicate FlagIsRight(s: State) {
    |AllOutstanding(s.threads)| == if s.shared.refreshing then 1 else 0
  }

  /** A load that had nothing to serve is about to clear the flag. */
  predicate ClearsAnothersFlag(s: State, e: Event) {
    e.Go? && e.t in s.threads && s.threads[e.t].Clearing? && !s.threads[e.t].background && s.shared.refreshing
  }

  lemma FlagMoves(s: Shared, t: Thread, place: Place, fetched: Option<Table>)
    requires SawTheFlagDown(place) ==> !s.refreshing
    requires Outstanding(place) ==> s.refreshing
    ensures var m := Move(s, t, place, fetched);
            var gained := Count(m.place) + (if m.starts then 1 else 0) - Count(place);
            && -1 <= gained <= 1 && (m.starts ==> Outstanding(place) && !Outstanding(m.place))
            && (place.Clearing? && !place.background && s.refreshing ==> gained == 0 && !m.shared.refreshing)
            && (!(place.Clearing? && !place.background && s.refreshing) ==>
                  m.shared.refreshing == if gained == 0 then s.refreshing else gained == 1)
            && (gained == 1 ==> !s.refreshing)
  {
  }

  /** Every step keeps the flag right but one: a refresh in the foreground ending
      while one in the background is outstanding. */
  lemma FlagStaysRight(s: State, e: Event)
    requires Locked(s) && FlagIsRight(s)
    ensures FlagIsRight(After(s, e)) <==> !ClearsAnothersFlag(s, e)
  {
    match e
    case Begin(t, call) =>
      if t !in s.threads {
        CountAfterANewThread(s.threads, t, Called(call));
      }
    case Tick(_) =>
    case Go(t, fetched, spawned) =>
      if t in s.threads {
        OutstandingMeansFlagged(s, t);
        FlagMoves(s.shared, t, s.threads[t], fetched);
        var place := Move(s.shared, t, s.threads[t], fetched).place;
        CountAfterAMove(s.threads, t, place);
        if spawned !in s.threads {
          CountAfterANewThread(s.threads[t := place], spawned, BackWait);
        }
        hide Move, AllOutstanding;
      }
  }

  lemma OutstandingMeansFlagged(s: State, t: Thread)
    requires FlagIsRight(s) && t in s.threads
    ensures Outstanding(s.threads[t]) ==> s.shared.refreshing
  {
    assert Outstanding(s.threads[t]) ==> t in AllOutstanding(s.threads);
  }

  function Count(place: Place): nat {
    if Outstanding(place) then 1 else 0
  }

  lemma CountAfterAMove(threads: map<Thread, Place>, t: Thread, place: Place)
    requires t in threads
    ensures |AllOutstanding(threads[t := place])| == |AllOutstanding(threads)| - Count(threads[t]) + Count(place)
  {
    hide Outstanding;
    var all, moved := AllOutstanding(threads), AllOutstanding(threads[t := place]);
    assert t in all <==> Outstanding(threads[t]);
    assert t in moved <==> Outstanding(place);
    assert moved - {t} == all - {t};
    Without(all, t);
    Without(moved, t);
  }

  lemma Without(all: set<Thread>, t: Thread)
    ensures |all| == |all - {t}| + if t in all then 1 else 0
  {
    if t !in all {
      assert all - {t} == all;
    }
  }

  lemma CountAfterANewThread(threads: map<Thread, Place>, t: Thread, place: Place)
    requires t !in threads
    ensures |AllOutstanding(threads[t := place])| == |AllOutstanding(threads)| + Count(place)
  {
    hide Outstanding;
    var all, more := AllOutstanding(threads), AllOutstanding(threads[t := place]);
    assert t in more <==> Outstanding(place);
    assert more - {t} == all;
    Without(more, t);
  }

  // ---- whole runs ----------------------------------------------------------

  /** Only the thread holding the lock is fetching: never two at once, whoever
      they are. */
  lemma {:induction false} OneFetchesAtATime(s: State, events: seq<Event>, t: Thread, u: Thread)
    requires Locked(s)
    ensures Locked(Ran(s, events))
    ensures var threads := Ran(s, events).threads;
            t in threads && u in threads && threads[t].Fetching? && threads[u].Fetching? ==> t == u
    decreases |events|
  {
    if events != [] {
      LockedAfter(s, events[0]);
      OneFetchesAtATime(After(s, events[0]), events[1..], t, u);
    }
  }

  /** Loads with nothing to serve, and invalidations. */
  predicate InTheForeground(place: Place) {
    match place
    case FrontWait => true
    case FrontAge => true
    case Fetching(background) => !background
    case Storing(background, _) => !background
    case Stamping(background, _) => !background
    case Clearing(background, _) => !background
    case Leaving(background, _, _) => !background
    case DropWait => true
    case Dropping => true
    case DropStamping => true
    case _ => false
  }

  /** There is a table to serve and nothing under way that would forget it. */
  ghost predicate Serving(s: State) {
    s.shared.cached.Some? && forall t <- s.threads :: !InTheForeground(s.threads[t])
  }

  /** What holds of every moment after a first table was read. */
  ghost predicate Steady(s: State) {
    Locked(s) && FlagIsRight(s) && Serving(s)
  }

  predicate Invalidates(e: Event) {
    e.Begin? && e.call.Invalidate?
  }

  predicate Primes(e: Event) {
    e.Begin? && e.call.Prime?
  }

  lemma SteadyAfter(s: State, e: Event)
    requires Steady(s) && !Invalidates(e)
    ensures Steady(After(s, e))
  {
    FlagStaysRight(s, e);
    LockedAfter(s, e);
    if e.Go? && e.t in s.threads {
      ServingMoves(s.shared, e.t, s.threads[e.t], e.fetched);
    }
    hide Move, Locked, FlagIsRight;
  }

  lemma ServingMoves(s: Shared, t: Thread, place: Place, fetched: Option<Table>)
    requires s.cached.Some? && !InTheForeground(place)
    ensures var m := Move(s, t, place, fetched); m.shared.cached.Some? && !InTheForeground(m.place)
    ensures !InTheForeground(BackWait)
  {
  }

  /** From a table being served, in every interleaving of loads, primings and
      refreshes that succeed or fail, and without invalidations, the flag is up
      exactly while a background refresh is outstanding, and there is never a
      second. */
  lemma {:induction false} OneRefreshAtATime(s: State, events: seq<Event>)
    requires Steady(s) && forall e <- events :: !Invalidates(e)
    ensures var end := Ran(s, events);
            && Steady(end)
            && (end.shared.refreshing <==> exists t <- end.threads :: Outstanding(end.threads[t]))
            && (forall t, u | t in end.threads && u in end.threads ::
                  Outstanding(end.threads[t]) && Outstanding(end.threads[u]) ==> t == u)
    decreases |events|
  {
    if events == [] {
      AtMostOne(s);
    } else {
      SteadyAfter(s, events[0]);
      OneRefreshAtATime(After(s, events[0]), events[1..]);
    }
  }

  lemma AtMostOne(s: State)
    requires FlagIsRight(s)
    ensures s.shared.refreshing <==> exists t <- s.threads :: Outstanding(s.threads[t])
    ensures forall t, u | t in s.threads && u in s.threads ::
              Outstanding(s.threads[t]) && Outstanding(s.threads[u]) ==> t == u
  {
    var all := AllOutstanding(s.threads);
    if s.shared.refreshing {
      var t :| t in all;
      assert Outstanding(s.threads[t]);
    } else {
      assert all == {};
      assert forall t <- s.threads :: Outstanding(s.threads[t]) ==> t in all;
    }
    forall t, u | t in s.threads && u in s.threads && Outstanding(s.threads[t]) && Outstanding(s.threads[u])
      ensures t == u
    {
      assert t in all && u in all;
      if t != u {
        AtLeastTwo(all, t, u);
      }
    }
  }

  lemma AtLeastTwo(all: set<Thread>, t: Thread, u: Thread)
    requires t in all && u in all && t != u
    ensures |all| >= 2
  {
    assert |all - {t} - {u}| == |all| - 2;
  }

  // ---- what was due is still due -------------------------------------------

  /** Let through, and not done yet. */
  predicate Awaited(place: Place) {
    place.GateOpen? || place.Spawning? || place.BackWait? || place.Fetching? || place.Storing? || place.Stamping?
  }

  predicate Priming(place: Place) {
    place.PrimeWait? || place.PrimeStoring? || place.PrimeStamping?
  }

  /** While a refresh is awaited the cached table is past its time. */
  ghost predicate AwaitedAreDue(s: State) {
    forall t <- s.threads :: Awaited(s.threads[t]) ==> !Fresh(s.shared)
  }

  /** A priming is stamped while a refresh is awaited, and keeps for a while. */
  ghost predicate StampsOverAwaited(s: State, e: Event) {
    && e.Go? && e.t in s.threads && s.threads[e.t].PrimeStamping? && 0.0 < s.shared.ttl
    && exists u <- s.threads :: Awaited(s.threads[u])
  }

  lemma DueMoves(s: Shared, t: Thread, place: Place, fetched: Option<Table>)
    requires s.cached.Some? && !InTheForeground(place) && (Awaited(place) ==> !Fresh(s))
    ensures var m := Move(s, t, place, fetched);
            if place.PrimeStamping? then !Awaited(m.place) && !m.starts && Fresh(m.shared) == (0.0 < s.ttl)
            else
              && (Awaited(m.place) || m.starts ==> !Fresh(m.shared))
              && (!place.Stamping? ==> Fresh(m.shared) == Fresh(s))
    ensures Awaited(BackWait)
  {
  }

  /** Every step keeps it so but one, the stamping of a priming while a refresh is
      awaited. */
  lemma DueStaysDue(s: State, e: Event)
    requires Steady(s) && AwaitedAreDue(s) && !Invalidates(e)
    ensures AwaitedAreDue(After(s, e)) <==> !StampsOverAwaited(s, e)
  {
    if e.Go? && e.t in s.threads {
      var place := s.threads[e.t];
      DueMoves(s.shared, e.t, place, e.fetched);
      if place.Stamping? {
        NoneElseAwaited(s, e.t);
      }
      hide Move, Locked, FlagIsRight, Fresh, InTheForeground;
      if StampsOverAwaited(s, e) {
        var u :| u in s.threads && Awaited(s.threads[u]);
        assert u != e.t && u in After(s, e).threads && After(s, e).threads[u] == s.threads[u];
      }
    }
  }

  /** The thread stamping a new table is the only refresh let through. */
  lemma NoneElseAwaited(s: State, t: Thread)
    requires Steady(s) && t in s.threads && s.threads[t].Stamping?
    ensures forall u | u in s.threads :: u != t ==> !Awaited(s.threads[u])
  {
    AtMostOne(s);
    assert Outstanding(s.threads[t]) && Holds(s.threads[t]);
    forall u | u in s.threads && u != t
      ensures !Awaited(s.threads[u])
    {
      assert !Outstanding(s.threads[u]) && !Holds(s.threads[u]);
    }
  }

  /** No step of a run stamps a priming while a refresh is awaited. */
  ghost predicate NeverStampsOver(s: State, events: seq<Event>)
    decreases |events|
  {
    events == [] || (!StampsOverAwaited(s, events[0]) && NeverStampsOver(After(s, events[0]), events[1..]))
  }

  ghost predicate AlwaysDue(s: State, events: seq<Event>)
    decreases |events|
  {
    AwaitedAreDue(s) && (events == [] || AlwaysDue(After(s, events[0]), events[1..]))
  }

  /** A table being fetched is past its time. */
  ghost predicate FetchesAreDue(s: State) {
    forall t <- s.threads :: s.threads[t].Fetching? ==> !Fresh(s.shared)
  }

  /** In a run without invalidations a refresh that was let through is due at every
      moment until it is done, exactly where no priming is stamped while one is
      awaited; and then its fetch begins over a table past its time, so that
      nothing is fetched that was just fetched. */
  lemma {:induction false} FetchesWhatIsDue(s: State, events: seq<Event>)
    requires Steady(s) && AwaitedAreDue(s) && forall e <- events :: !Invalidates(e)
    ensures AlwaysDue(s, events) <==> NeverStampsOver(s, events)
    ensures NeverStampsOver(s, events) ==> FetchesAreDue(Ran(s, events))
    decreases |events|
  {
    hide Steady, AwaitedAreDue, StampsOverAwaited, After, FetchesAreDue;
    if events != [] {
      SteadyAfter(s, events[0]);
      DueStaysDue(s, events[0]);
      if AwaitedAreDue(After(s, events[0])) {
        FetchesWhatIsDue(After(s, events[0]), events[1..]);
      } else {
        DueFromTheStart(After(s, events[0]), events[1..]);
      }
    } else {
      FetchingIsAwaited(s);
    }
  }

  lemma DueFromTheStart(s: State, events: seq<Event>)
    ensures AlwaysDue(s, events) ==> AwaitedAreDue(s)
  {
  }

  lemma FetchingIsAwaited(s: State)
    requires AwaitedAreDue(s)
    ensures FetchesAreDue(s)
  {
  }

  ghost predicate NonePriming(s: State) {
    forall t <- s.threads :: !Priming(s.threads[t])
  }

  /** Nor is one where none begins. */
  lemma {:induction false} NoPrimingsNoStamps(s: State, events: seq<Event>)
    requires NonePriming(s) && forall e <- events :: !Primes(e)
    ensures NeverStampsOver(s, events)
    decreases |events|
  {
    if events != [] {
      StillNonePriming(s, events[0]);
      NoPrimingsNoStamps(After(s, events[0]), events[1..]);
    }
  }

  lemma StillNonePriming(s: State, e: Event)
    requires NonePriming(s) && !Primes(e)
    ensures NonePriming(After(s, e)) && !StampsOverAwaited(s, e)
  {
  }

  // ---- where the promise ends ----------------------------------------------

  lemma {:induction false} RanBoth(s: State, a: seq<Event>, b: seq<Event>)
    ensures Ran(s, a + b) == Ran(Ran(s, a), b)
    decreases |a|
  {
    if a == [] {
      assert a + b == b;
    } else {
      assert (a + b)[1..] == a[1..] + b;
      RanBoth(After(s, a[0]), a[1..], b);
    }
  }

  /** One thread's next so many steps. */
  function Steps(e: Event, n: nat): seq<Event> {
    if n == 0 then [] else [e] + Steps(e, n - 1)
  }

  function Stepped(s: State, e: Event, n: nat): State
    decreases n
  {
    if n == 0 then s else Stepped(After(s, e), e, n - 1)
  }

  lemma {:induction false} RanSteps(s: State, e: Event, n: nat)
    ensures Ran(s, Steps(e, n)) == Stepped(s, e, n)
    decreases n
  {
    if n > 0 {
      assert Steps(e, n)[1..] == Steps(e, n - 1);
      RanSteps(After(s, e), e, n - 1);
    }
  }

  /** A step of one thread that starts no other. */
  lemma OneStep(threads: map<Thread, Place>, e: Event, shared: Shared, at: Place, next: Shared, place: Place, n: nat)
    requires e.Go? && n > 0 && Move(shared, e.t, at, e.fetched) == Moved(next, place, false)
    ensures Stepped(State(shared, threads[e.t := at]), e, n) == Stepped(State(next, threads[e.t := place]), e, n - 1)
  {
    assert threads[e.t := at][e.t := place] == threads[e.t := place];
    hide Move;
  }

  lemma NoMoreSteps(s: State, e: Event)
    ensures Stepped(s, e, 0) == s
  {
  }

  lemma LastStep(s: State, e: Event)
    ensures Stepped(s, e, 1) == After(s, e)
  {
    NoMoreSteps(After(s, e), e);
  }

  lemma LoadFindsItOld(threads: map<Thread, Place>, e: Event, shared: Shared, n: nat)
    requires e.Go? && n >= 4 && shared.cached.Some? && !Fresh(shared)
    ensures Stepped(State(shared, threads[e.t := LoadRead]), e, n)
         == Stepped(State(shared, threads[e.t := GateWait(shared.cached.value)]), e, n - 4)
  {
    hide Stepped;
    var stale := shared.cached.value;
    OneStep(threads, e, shared, LoadRead, shared, LoadClock(stale), n);
    OneStep(threads, e, shared, LoadClock(stale), shared, LoadAge(stale, shared.now), n - 1);
    OneStep(threads, e, shared, LoadAge(stale, shared.now), shared, LoadAgain, n - 2);
    OneStep(threads, e, shared, LoadAgain, shared, GateWait(stale), n - 3);
  }

  lemma LoadPassesTheGate(threads: map<Thread, Place>, e: Event, shared: Shared, stale: Table, n: nat)
    requires e.Go? && n >= 4 && shared.holder.None? && !shared.refreshing && !Fresh(shared)
    ensures Stepped(State(shared, threads[e.t := GateWait(stale)]), e, n)
         == Stepped(State(shared.(refreshing := true), threads[e.t := Spawning(stale)]), e, n - 4)
  {
    hide Stepped;
    var held := shared.(holder := Some(e.t));
    OneStep(threads, e, shared, GateWait(stale), held, GateFlag(stale), n);
    OneStep(threads, e, held, GateFlag(stale), held, GateAge(stale), n - 1);
    OneStep(threads, e, held, GateAge(stale), held, GateOpen(stale), n - 2);
    OneStep(threads, e, held, GateOpen(stale), shared.(refreshing := true), Spawning(stale), n - 3);
  }

  /** A load of a table past its time lets a refresh through and starts it. */
  lemma LoadLetsOneThrough(s: State, e: Event)
    requires e.Go? && e.t in s.threads && s.threads[e.t] == LoadRead && e.spawned !in s.threads
    requires s.shared.holder.None? && s.shared.cached.Some? && !Fresh(s.shared) && !s.shared.refreshing
    ensures Stepped(s, e, 9)
         == State(s.shared.(refreshing := true), s.threads[e.t := Done(s.shared.cached)][e.spawned := BackWait])
  {
    hide Stepped;
    var stale := s.shared.cached.value;
    assert s.threads == s.threads[e.t := LoadRead];
    LoadFindsItOld(s.threads, e, s.shared, 9);
    LoadPassesTheGate(s.threads, e, s.shared, stale, 5);
    var open := State(s.shared.(refreshing := true), s.threads[e.t := Spawning(stale)]);
    assert open.threads[e.t := Done(Some(stale))] == s.threads[e.t := Done(Some(stale))];
    LastStep(open, e);
  }

  /** A load with nothing to serve, once it has the lock, fetches and clears the
      flag, whoever put it up. */
  lemma WaitingLoadFetches(s: State, e: Event)
    requires e.Go? && e.fetched.Some? && e.t in s.threads && s.threads[e.t] == FrontWait
    requires s.shared.holder.None? && !Fresh(s.shared)
    ensures Stepped(s, e, 7)
         == State(s.shared.(cached := e.fetched, fetchedAt := s.shared.now, refreshing := false),
                  s.threads[e.t := Done(e.fetched)])
  {
    hide Stepped;
    var shared, held := s.shared, s.shared.(holder := Some(e.t));
    assert s.threads == s.threads[e.t := FrontWait];
    OneStep(s.threads, e, shared, FrontWait, held, FrontAge, 7);
    OneStep(s.threads, e, held, FrontAge, held, Fetching(false), 6);
    OneStep(s.threads, e, held, Fetching(false), held, Storing(false, e.fetched.value), 5);
    FetchedInTheForeground(s.threads, e, held);
  }

  lemma FetchedInTheForeground(threads: map<Thread, Place>, e: Event, held: Shared)
    requires e.Go? && e.fetched.Some? && held.holder == Some(e.t)
    ensures Stepped(State(held, threads[e.t := Storing(false, e.fetched.value)]), e, 4)
         == State(held.(cached := e.fetched, fetchedAt := held.now, refreshing := false, holder := None),
                  threads[e.t := Done(e.fetched)])
  {
    hide Stepped;
    var table := e.fetched.value;
    var stored := held.(cached := e.fetched);
    var stamped := stored.(fetchedAt := held.now);
    var cleared := stamped.(refreshing := false);
    OneStep(threads, e, held, Storing(false, table), stored, Stamping(false, table), 4);
    OneStep(threads, e, stored, Stamping(false, table), stamped, Clearing(false, table), 3);
    OneStep(threads, e, stamped, Clearing(false, table), cleared, Leaving(false, e.fetched, false), 2);
    OneStep(threads, e, cleared, Leaving(false, e.fetched, false), cleared.(holder := None), Done(e.fetched), 1);
    NoMoreSteps(State(cleared.(holder := None), threads[e.t := Done(e.fetched)]), e);
  }

  lemma LoadFindsNothing(s: State, e: Event)
    requires e.Go? && e.t in s.threads && s.threads[e.t] == LoadRead && s.shared.cached.None?
    ensures Stepped(s, e, 2) == State(s.shared, s.threads[e.t := FrontWait])
  {
    assert s.threads == s.threads[e.t := LoadRead];
    OneStep(s.threads, e, s.shared, LoadRead, s.shared, LoadAgain, 2);
    OneStep(s.threads, e, s.shared, LoadAgain, s.shared, FrontWait, 1);
    NoMoreSteps(State(s.shared, s.threads[e.t := FrontWait]), e);
    hide Stepped;
  }

  /** Some run leads there, with no priming and no invalidation. */
  ghost predicate Reaches(s: State, end: State) {
    exists events: seq<Event> :: Ran(s, events) == end && forall e <- events :: !Invalidates(e) && !Primes(e)
  }

  lemma ReachesOn(s: State, mid: State, end: State)
    requires Reaches(s, mid) && Reaches(mid, end)
    ensures Reaches(s, end)
  {
    var a: seq<Event> :| Ran(s, a) == mid && forall e <- a :: !Invalidates(e) && !Primes(e);
    var b: seq<Event> :| Ran(mid, b) == end && forall e <- b :: !Invalidates(e) && !Primes(e);
    RanBoth(s, a, b);
    assert Ran(s, a + b) == end;
  }

  lemma ReachesByOne(start: State, s: State, e: Event)
    requires Reaches(start, s) && !Invalidates(e) && !Primes(e)
    ensures Reaches(start, After(s, e))
  {
    assert Ran(After(s, e), []) == After(s, e);
    assert [e][1..] == [];
    assert Ran(s, [e]) == After(s, e);
    ReachesOn(start, s, After(s, e));
  }

  lemma {:induction false} ReachesBySteps(start: State, s: State, e: Event, n: nat)
    requires Reaches(start, s) && e.Go?
    ensures Reaches(start, Stepped(s, e, n))
    decreases n
  {
    if n > 0 {
      ReachesByOne(start, s, e);
      ReachesBySteps(start, After(s, e), e, n - 1);
    }
  }

  /** A source nobody has asked for. */
  const COLD: State := State(Shared(1.0, 0.0, None, 0.0, false, None), map[])

  lemma LoadBegins(s: State, t: Thread) returns (end: State)
    requires Reaches(COLD, s) && t !in s.threads
    ensures Reaches(COLD, end) && end == State(s.shared, s.threads[t := LoadRead])
  {
    ReachesByOne(COLD, s, Begin(t, Load));
    end := After(s, Begin(t, Load));
    hide Reaches;
  }

  lemma LoadWaits(s: State, t: Thread) returns (end: State)
    requires Reaches(COLD, s) && t !in s.threads && s.shared.cached.None?
    ensures Reaches(COLD, end) && end == State(s.shared, s.threads[t := FrontWait])
  {
    hide Reaches, Stepped, Move;
    var s1 := LoadBegins(s, t);
    LoadFindsNothing(s1, Go(t, None, t));
    ReachesBySteps(COLD, s1, Go(t, None, t), 2);
    end := Stepped(s1, Go(t, None, t), 2);
  }

  lemma FourLoadsBegin() returns (s: State)
    ensures Reaches(COLD, s)
    ensures s.shared == COLD.shared && s.threads == map[0 := FrontWait, 1 := FrontWait, 2 := LoadRead, 3 := LoadRead]
  {
    assert Ran(COLD, []) == COLD;
    s := LoadWaits(COLD, 0);
    s := LoadWaits(s, 1);
    s := LoadBegins(s, 2);
    s := LoadBegins(s, 3);
    hide Reaches;
  }

  /** The promise does not reach back before the first table: of two loads waiting
      for it, the second may get the lock only after that table is past its time
      and a refresh of it has been let through; fetching in its turn it clears
      that refresh's flag, and once more time has passed a second is let through
      beside the first. */
  lemma TwoRefreshesAfterAColdStart() returns (end: State)
    ensures Locked(COLD) && FlagIsRight(COLD) && Reaches(COLD, end)
    ensures AllOutstanding(end.threads) == {10, 11}
  {
    hide Reaches;
    assert AllOutstanding(COLD.threads) == {};
    var s := FourLoadsBegin();
    var s3 := OneIsLetThrough(s, 0, 2, 10);
    end := OneIsLetThrough(s3, 1, 3, 11);
    assert AllOutstanding(end.threads) == {10, 11};
  }

  /** A waiting load fetches, time passes, and the next load lets a refresh
      through, even where one was let through before. */
  lemma OneIsLetThrough(s: State, waiting: Thread, later: Thread, spawned: Thread) returns (end: State)
    requires Reaches(COLD, s) && s.shared.ttl == 1.0 && s.shared.holder.None? && !Fresh(s.shared)
    requires waiting != later && waiting in s.threads && later in s.threads && spawned !in s.threads
    requires s.threads[waiting] == FrontWait && s.threads[later] == LoadRead
    ensures Reaches(COLD, end) && end.shared.ttl == 1.0 && end.shared.holder.None? && !Fresh(end.shared)
    ensures end.threads == s.threads[waiting := Done(Some(7))][later := Done(Some(7))][spawned := BackWait]
  {
    var e, f := Go(waiting, Some(7), spawned), Go(later, Some(7), spawned);
    WaitingLoadFetches(s, e);
    ReachesBySteps(COLD, s, e, 7);
    var s1 := Stepped(s, e, 7);
    ReachesByOne(COLD, s1, Tick(1.0));
    var s2 := After(s1, Tick(1.0));
    LoadLetsOneThrough(s2, f);
    ReachesBySteps(COLD, s2, f, 9);
    end := Stepped(s2, f, 9);
    hide Stepped, Reaches, Move;
  }

  /** A refresh let through, its thread waiting for the lock. */
  const ONE_WAITING: State := State(Shared(1.0, 1.0, Some(7), 0.0, true, None), map[10 := BackWait])

  lemma OneWaitingIsSteady()
    ensures Steady(ONE_WAITING) && AwaitedAreDue(ONE_WAITING)
  {
    assert AllOutstanding(ONE_WAITING.threads) == {10};
  }

  /** Nor does what was due stay due across a priming: a refresh let through may
      begin its fetch over a table that was only just seeded. */
  lemma PrimingLeavesANeedlessFetch() returns (events: seq<Event>)
    ensures Steady(ONE_WAITING) && AwaitedAreDue(ONE_WAITING) && forall e <- events :: !Invalidates(e)
    ensures var end := Ran(ONE_WAITING, events); 10 in end.threads && end.threads[10].Fetching? && Fresh(end.shared)
  {
    OneWaitingIsSteady();
    hide Steady, AwaitedAreDue, Steps;
    var primed, fetching := Go(0, None, 11), Go(10, None, 11);
    events := [Begin(0, Prime(8))] + [primed, primed, primed, primed, fetching];
    FourSteps(primed);
    assert events[1..] == Steps(primed, 4) + [fetching];
    var s1 := After(ONE_WAITING, events[0]);
    PrimesOver(s1, primed);
    RanSteps(s1, primed, 4);
    RanBoth(s1, Steps(primed, 4), [fetching]);
    assert [fetching][1..] == [];
  }

  lemma FourSteps(e: Event)
    ensures Steps(e, 4) == [e, e, e, e]
  {
    assert Steps(e, 2) == [e] + Steps(e, 1) == [e, e];
  }

  lemma PrimesOver(s: State, e: Event)
    requires e.Go? && e.t in s.threads && s.threads[e.t].PrimeWait? && s.shared.holder.None?
    ensures Stepped(s, e, 4)
         == State(s.shared.(cached := Some(s.threads[e.t].table), fetchedAt := s.shared.now),
                  s.threads[e.t := Done(None)])
  {
    hide Stepped;
    var table, shared, held := s.threads[e.t].table, s.shared, s.shared.(holder := Some(e.t));
    var stored := held.(cached := Some(table));
    var stamped := stored.(fetchedAt := shared.now);
    assert s.threads == s.threads[e.t := PrimeWait(table)];
    OneStep(s.threads, e, shared, PrimeWait(table), held, PrimeStoring(table), 4);
    OneStep(s.threads, e, held, PrimeStoring(table), stored, PrimeStamping, 3);
    OneStep(s.threads, e, stored, PrimeStamping, stamped, OtherLeaving, 2);
    OneStep(s.threads, e, stamped, OtherLeaving, stamped.(holder := None), Done(None), 1);
    NoMoreSteps(State(stamped.(holder := None), s.threads[e.t := Done(None)]), e);
  }
}
