/** Which table a source serves, read off everything that happened to it: what
    fetches gave, what was primed, what was dropped, and when. */
module RefreshHistory {
  import opened Outcomes
  import opened Refresh

  // ---- read off the events -------------------------------------------------

  function Front(events: seq<Event>): seq<Event>
    requires events != []
  {
    events[..|events| - 1]
  }

  function Last(events: seq<Event>): Event
    requires events != []
  {
    events[|events| - 1]
  }

  lemma RanLast(s: State, events: seq<Event>)
    requires events != []
    ensures Ran(s, events) == After(Ran(s, Front(events)), Last(events))
  {
    RanBoth(s, Front(events), [Last(events)]);
    assert Front(events) + [Last(events)] == events;
    assert [Last(events)][1..] == [];
  }

  /** Where the thread of the last event stood before it, or None where it begins, or
      time passes, or there is no such thread. */
  function Stood(s: State, events: seq<Event>): Option<Place>
    requires events != []
  {
    var before := Ran(s, Front(events));
    if Last(events).Go? && Last(events).t in before.threads then Some(before.threads[Last(events).t]) else None
  }

  /** The table a thread was last handed: the one it was begun with to prime, or the
      one its fetch gave. */
  function HandedTo(s: State, events: seq<Event>, t: Thread): Option<Table>
    decreases |events|
  {
    if events == [] then None
    else
      var e := Last(events);
      if e.Begin? && e.t == t && e.call.Prime? && t !in Ran(s, Front(events)).threads then Some(e.call.table)
      else if e.Go? && e.t == t && Stood(s, events).Some? && Stood(s, events).value.Fetching? then e.fetched
      else HandedTo(s, Front(events), t)
  }

  /** The thread that last wrote the table, be it none where it was dropped. */
  function WrittenBy(s: State, events: seq<Event>): Option<Thread>
    decreases |events|
  {
    if events == [] then None
    else
      var stood := Stood(s, events);
      if stood.Some? && (stood.value.Storing? || stood.value.PrimeStoring? || stood.value.Dropping?) then
        Some(Last(events).t)
      else WrittenBy(s, Front(events))
  }

  /** The thread that last wrote its stamp. */
  function StampedBy(s: State, events: seq<Event>): Option<Thread>
    decreases |events|
  {
    if events == [] then None
    else
      var stood := Stood(s, events);
      if stood.Some? && IsStamping(stood.value) then Some(Last(events).t) else StampedBy(s, Front(events))
  }

  predicate IsStamping(place: Place) {
    place.Stamping? || place.PrimeStamping? || place.DropStamping?
  }

  function Clock(s: State, events: seq<Event>): real {
    if events == [] then s.shared.now
    else Clock(s, Front(events)) + (if Last(events).Tick? then Last(events).passed else 0.0)
  }

  /** What the stamp says: the time it was last written at, nought where the table was
      dropped. */
  function Stamp(s: State, events: seq<Event>): real
    decreases |events|
  {
    if events == [] then s.shared.fetchedAt
    else
      var stood := Stood(s, events);
      if stood == Some(DropStamping) then 0.0
      else if stood.Some? && IsStamping(stood.value) then Clock(s, Front(events))
      else Stamp(s, Front(events))
  }

  // ---- what every thread has in hand ---------------------------------------

  /** A thread that has a table to write holds the one it was handed, one that drops
      it was handed none, and one past writing has it still. */
  predicate HoldsWhatItWasHanded(place: Place, handed: Option<Table>) {
    match place
    case Storing(_, table) => handed == Some(table)
    case PrimeWait(table) => handed == Some(table)
    case PrimeStoring(table) => handed == Some(table)
    case DropWait => handed.None?
    case Dropping => handed.None?
    case _ => true
  }

  /** A thread that has written the table, or never will, and fetches none. */
  predicate IsPastWriting(place: Place) {
    match place
    case Stamping(_, _) => true
    case Clearing(_, _) => true
    case Leaving(_, _, _) => true
    case PrimeStamping => true
    case DropStamping => true
    case OtherLeaving => true
    case ClearingFailed => true
    case Done(_) => true
    case _ => false
  }

  ghost predicate OneHolds(s: State, events: seq<Event>, t: Thread) {
    var now, handed := Ran(s, events), HandedTo(s, events, t);
    if t in now.threads then HoldsWhatItWasHanded(now.threads[t], handed) && (IsBefore(now.threads[t]) ==> handed.None?)
    else handed.None?
  }

  /** A thread that was handed nothing yet. */
  predicate IsBefore(place: Place) {
    place.DropWait? || place.Dropping? || place.BackWait? || place.LoadRead?
  }

  lemma MoveHolds(s: Shared, t: Thread, place: Place, fetched: Option<Table>, handed: Option<Table>)
    requires HoldsWhatItWasHanded(place, handed) && (IsBefore(place) ==> handed.None?)
    ensures var m := Move(s, t, place, fetched);
            var now := if place.Fetching? then fetched else handed;
            && HoldsWhatItWasHanded(m.place, now) && (IsBefore(m.place) ==> now.None?)
            && (IsPastWriting(place) ==> IsPastWriting(m.place) && !place.Fetching?)
  {
  }

  lemma {:induction false} EachHolds(s: State, events: seq<Event>, t: Thread)
    requires s.threads == map[]
    ensures OneHolds(s, events, t)
    decreases |events|
  {
    if events != [] {
      EachHolds(s, Front(events), t);
      RanLast(s, events);
      var before, e := Ran(s, Front(events)), Last(events);
      if t in before.threads {
        var fetched := if e.Go? then e.fetched else None;
        MoveHolds(before.shared, t, before.threads[t], fetched, HandedTo(s, Front(events), t));
      }
      hide Move, Ran, HoldsWhatItWasHanded, IsBefore, IsPastWriting;
      var call := if e.Begin? then e.call else Load;
      NewHolds(Called(call), if call.Prime? then Some(call.table) else None);
    }
  }

  lemma NewHolds(place: Place, handed: Option<Table>)
    ensures place == LoadRead || place == BackWait || place == DropWait ==>
              HoldsWhatItWasHanded(place, None)
    ensures HoldsWhatItWasHanded(BackWait, None)
    ensures place.PrimeWait? && handed == Some(place.table) ==>
              HoldsWhatItWasHanded(place, handed) && !IsBefore(place)
  {
  }

  // ---- the table -----------------------------------------------------------

  /** What each field says of the thread that wrote it last. */
  ghost predicate TableIsAsWritten(s: State, events: seq<Event>) {
    var now, writer := Ran(s, events), WrittenBy(s, events);
    && now.shared.cached == (if writer.None? then s.shared.cached else HandedTo(s, events, writer.value))
    && (writer.Some? ==> writer.value in now.threads && IsPastWriting(now.threads[writer.value]))
  }

  lemma MoveWrites(s: Shared, t: Thread, place: Place, fetched: Option<Table>, handed: Option<Table>)
    requires HoldsWhatItWasHanded(place, handed)
    ensures var m := Move(s, t, place, fetched);
            if place.Storing? || place.PrimeStoring? || place.Dropping? then
              m.shared.cached == handed && IsPastWriting(m.place)
            else m.shared.cached == s.cached
  {
  }

  /** In every run, the cached table is the one that was handed to the thread that
      last wrote it: what its fetch gave, what it was begun with to prime, or none
      where it was begun to invalidate. */
  lemma {:induction false} CachedIsTheLastWritten(s: State, events: seq<Event>)
    requires s.threads == map[]
    ensures TableIsAsWritten(s, events)
    decreases |events|
  {
    if events != [] {
      CachedIsTheLastWritten(s, Front(events));
      RanLast(s, events);
      var before, e := Ran(s, Front(events)), Last(events);
      if e.Go? && e.t in before.threads {
        EachHolds(s, Front(events), e.t);
        var place, handed := before.threads[e.t], HandedTo(s, Front(events), e.t);
        MoveHolds(before.shared, e.t, place, e.fetched, handed);
        MoveWrites(before.shared, e.t, place, e.fetched, handed);
      }
      hide Move, Ran, HoldsWhatItWasHanded;
    }
  }

  lemma MoveStamps(s: Shared, t: Thread, place: Place, fetched: Option<Table>)
    ensures var m := Move(s, t, place, fetched);
            && m.shared.now == s.now && m.shared.ttl == s.ttl
            && m.shared.fetchedAt
               == (if place.DropStamping? then 0.0 else if IsStamping(place) then s.now else s.fetchedAt)
  {
  }

  /** The clock is the time that passed, and the stamp the time it was last written
      at. */
  lemma {:induction false} StampIsTheLastWritten(s: State, events: seq<Event>)
    ensures var now := Ran(s, events);
            && now.shared.now == Clock(s, events) && now.shared.fetchedAt == Stamp(s, events)
            && now.shared.ttl == s.shared.ttl
    decreases |events|
  {
    if events != [] {
      StampIsTheLastWritten(s, Front(events));
      RanLast(s, events);
      var before, e := Ran(s, Front(events)), Last(events);
      if e.Go? && e.t in before.threads {
        MoveStamps(before.shared, e.t, before.threads[e.t], e.fetched);
      }
      hide Move, Ran;
    }
  }

  /** Table and stamp were written by one thread; or one thread has just written the
      table, holds the lock, and stamps it next. */
  ghost predicate WrittenTogether(s: State, events: seq<Event>) {
    var now, writer := Ran(s, events), WrittenBy(s, events);
    if writer.Some? && writer.value in now.threads && IsStamping(now.threads[writer.value]) then true
    else writer == StampedBy(s, events) && forall t <- now.threads :: !IsStamping(now.threads[t])
  }

  lemma MoveToStamp(s: Shared, t: Thread, place: Place, fetched: Option<Table>)
    ensures var m := Move(s, t, place, fetched);
            && (IsStamping(m.place) <==> place.Storing? || place.PrimeStoring? || place.Dropping?)
            && (IsStamping(place) ==> Holds(place))
            && (place.Storing? || place.PrimeStoring? || place.Dropping? ==> Holds(place) && !IsStamping(place))
  {
  }

  lemma AllLocked(s: State, events: seq<Event>)
    requires s.threads == map[] && s.shared.holder.None?
    ensures Locked(Ran(s, events))
    decreases |events|
  {
    if events != [] {
      AllLocked(s, Front(events));
      RanLast(s, events);
      LockedAfter(Ran(s, Front(events)), Last(events));
    }
  }

  lemma OneInside(s: State, t: Thread, u: Thread)
    requires Locked(s) && t in s.threads && u in s.threads && Holds(s.threads[t]) && Holds(s.threads[u])
    ensures t == u
  {
  }

  /** Outside the two steps that write a table and then its stamp, which one thread
      takes under the lock, the stamp is that of the table served: both were written
      last by one thread. */
  lemma {:induction false} TableComesWithItsStamp(s: State, events: seq<Event>)
    requires s.threads == map[] && s.shared.holder.None?
    ensures WrittenTogether(s, events)
    decreases |events|
  {
    if events != [] {
      TableComesWithItsStamp(s, Front(events));
      AllLocked(s, Front(events));
      RanLast(s, events);
      var before, e := Ran(s, Front(events)), Last(events);
      if e.Go? && e.t in before.threads {
        var place := before.threads[e.t];
        MoveToStamp(before.shared, e.t, place, e.fetched);
        var writer := WrittenBy(s, Front(events));
        if writer.Some? && writer.value in before.threads && IsStamping(before.threads[writer.value]) && Holds(place) {
          MoveToStamp(before.shared, writer.value, before.threads[writer.value], None);
          OneInside(before, writer.value, e.t);
        }
        OthersNotStamping(before, writer, e.t);
      }
      hide Move, Ran, Locked;
    }
  }

  lemma OthersNotStamping(s: State, writer: Option<Thread>, t: Thread)
    requires Locked(s)
    ensures writer.Some? && writer.value in s.threads && IsStamping(s.threads[writer.value]) ==>
              forall u <- s.threads :: u != writer.value ==> !IsStamping(s.threads[u])
  {
  }

  /** Between those two steps they part: a table being primed over one still within
      its time is served, for that step, under the stamp of the one before. */
  lemma PrimedUnderTheOldStamp()
    ensures var s := State(Shared(1.0, 0.5, Some(7), 0.0, false, None), map[]);
            var events := [Begin(0, Prime(8)), Go(0, None, 1), Go(0, None, 1)];
            var now := Ran(s, events).shared;
            now.cached == Some(8) && now.fetchedAt == 0.0 && Fresh(now)
  {
    var shared := Shared(1.0, 0.5, Some(7), 0.0, false, None);
    var s, go := State(shared, map[]), Go(0, None, 1);
    var a := State(shared, map[0 := PrimeWait(8)]);
    var b := State(shared.(holder := Some(0)), map[0 := PrimeStoring(8)]);
    var c := State(shared.(holder := Some(0), cached := Some(8)), map[0 := PrimeStamping]);
    assert After(s, Begin(0, Prime(8))) == a && After(a, go) == b && After(b, go) == c;
    var one, two, three := [go], [go, go], [Begin(0, Prime(8)), go, go];
    assert one[1..] == [] && two[1..] == one && three[1..] == two;
    assert Ran(b, one) == c;
    assert Ran(a, two) == c;
  }

  // ---- what a load answers -------------------------------------------------

  /** This table was cached at some moment since the load was begun. */
  ghost predicate ServedSince(s: State, events: seq<Event>, begun: nat, table: Table) {
    exists n: nat :: begun <= n <= |events| && Ran(s, events[..n]).shared.cached == Some(table)
  }

  /** The table a load has in hand to answer, if it has one. */
  function InHand(place: Place): Option<Table> {
    match place
    case LoadClock(cached) => Some(cached)
    case LoadAge(cached, _) => Some(cached)
    case GateWait(stale) => Some(stale)
    case GateFlag(stale) => Some(stale)
    case GateAge(stale) => Some(stale)
    case GateOpen(stale) => Some(stale)
    case GateLeave(stale) => Some(stale)
    case Spawning(stale) => Some(stale)
    case Stamping(_, table) => Some(table)
    case Clearing(_, table) => Some(table)
    case Leaving(_, answer, _) => answer
    case Done(answer) => answer
    case _ => None
  }

  lemma MoveInHand(s: Shared, t: Thread, place: Place, fetched: Option<Table>)
    ensures var m := Move(s, t, place, fetched);
            InHand(m.place).Some? ==>
              InHand(m.place) == InHand(place) || InHand(m.place) == s.cached || InHand(m.place) == m.shared.cached
  {
  }

  lemma ServedLater(s: State, events: seq<Event>, begun: nat, table: Table)
    requires events != [] && begun <= |events| - 1
    ensures ServedSince(s, Front(events), begun, table) ==> ServedSince(s, events, begun, table)
    ensures Ran(s, Front(events)).shared.cached == Some(table) ==> ServedSince(s, events, begun, table)
    ensures Ran(s, events).shared.cached == Some(table) ==> ServedSince(s, events, begun, table)
  {
    assert Front(events)[..|events| - 1] == Front(events) == events[..|events| - 1] && events[..|events|] == events;
    if ServedSince(s, Front(events), begun, table) {
      var n: nat :| begun <= n <= |events| - 1 && Ran(s, Front(events)[..n]).shared.cached == Some(table);
      assert Front(events)[..n] == events[..n];
    }
  }

  /** A thread begun by this event, to load. */
  predicate BeginsLoad(s: State, events: seq<Event>, begun: nat, t: Thread) {
    begun < |events| && events[begun] == Begin(t, Load) && t !in Ran(s, events[..begun]).threads
  }

  /** Whatever the other threads do, the table a load has in hand, and so the one it
      answers, was cached at some moment since it was begun. */
  lemma {:induction false} LoadAnswersWhatWasServed(s: State, events: seq<Event>, begun: nat, t: Thread)
    requires BeginsLoad(s, events, begun, t)
    ensures var now := Ran(s, events);
            t in now.threads && (InHand(now.threads[t]).Some? ==>
                                   ServedSince(s, events, begun + 1, InHand(now.threads[t]).value))
    decreases |events|
  {
    RanLast(s, events);
    var before, e := Ran(s, Front(events)), Last(events);
    if begun == |events| - 1 {
      assert events[..begun] == Front(events);
    } else {
      assert Front(events)[..begun] == events[..begun];
      LoadAnswersWhatWasServed(s, Front(events), begun, t);
      if e.Go? && e.t == t {
        MoveInHand(before.shared, t, before.threads[t], e.fetched);
      }
      var hand := InHand(Ran(s, events).threads[t]);
      if hand.Some? {
        ServedLater(s, events, begun + 1, hand.value);
      }
      hide Move, Ran, ServedSince;
    }
  }

  /** A fetch of this thread failed. */
  predicate FetchFailed(s: State, events: seq<Event>, t: Thread)
    decreases |events|
  {
    events != [] &&
    (FetchFailed(s, Front(events), t)
     || (Last(events).Go? && Last(events).t == t && Last(events).fetched.None?
         && Stood(s, events).Some? && Stood(s, events).value.Fetching?))
  }

  /** A place a load may be in, and one it has no table in though it may leave. */
  predicate OfALoad(place: Place) {
    match place
    case PrimeWait(_) => false
    case PrimeStoring(_) => false
    case PrimeStamping => false
    case DropWait => false
    case Dropping => false
    case DropStamping => false
    case OtherLeaving => false
    case BackWait => false
    case ClearingFailed => false
    case Fetching(background) => !background
    case Storing(background, _) => !background
    case Stamping(background, _) => !background
    case Clearing(background, _) => !background
    case Leaving(background, _, _) => !background
    case _ => true
  }

  predicate Empty(place: Place) {
    place == Done(None) || (place.Leaving? && place.answer.None?)
  }

  lemma MoveOfALoad(s: Shared, t: Thread, place: Place, fetched: Option<Table>)
    requires OfALoad(place)
    ensures var m := Move(s, t, place, fetched);
            OfALoad(m.place) && (Empty(m.place) ==> Empty(place) || (place.Fetching? && fetched.None?))
  {
  }

  /** A load answers nothing only where its own fetch failed. */
  lemma {:induction false} LoadFailsByItsFetch(s: State, events: seq<Event>, begun: nat, t: Thread)
    requires BeginsLoad(s, events, begun, t)
    ensures var now := Ran(s, events);
            t in now.threads && OfALoad(now.threads[t]) && (Empty(now.threads[t]) ==> FetchFailed(s, events, t))
    decreases |events|
  {
    RanLast(s, events);
    var before, e := Ran(s, Front(events)), Last(events);
    if begun == |events| - 1 {
      assert events[..begun] == Front(events);
    } else {
      assert Front(events)[..begun] == events[..begun];
      LoadFailsByItsFetch(s, Front(events), begun, t);
      if e.Go? && e.t == t {
        MoveOfALoad(before.shared, t, before.threads[t], e.fetched);
      }
      hide Move, Ran;
    }
  }

  /** A load that ends, then, answers a table that was served since it was begun, or
      its fetch failed. */
  lemma LoadsAnswer(s: State, events: seq<Event>, begun: nat, t: Thread)
    requires BeginsLoad(s, events, begun, t)
    ensures var now := Ran(s, events);
            t in now.threads
            && (now.threads[t].Done? ==>
                  match now.threads[t].answer
                  case Some(table) => ServedSince(s, events, begun + 1, table)
                  case None => FetchFailed(s, events, t))
  {
    LoadAnswersWhatWasServed(s, events, begun, t);
    LoadFailsByItsFetch(s, events, begun, t);
  }

  /** And a table within its time is answered at once: the three steps of a load that
      reads it take no lock and leave everything shared as it was. */
  lemma FreshIsServedAtOnce(s: State, e: Event)
    requires e.Go? && e.t in s.threads && s.threads[e.t].LoadRead? && Fresh(s.shared)
    ensures Ran(s, [e, e, e]) == State(s.shared, s.threads[e.t := Done(s.shared.cached)])
  {
    var table := s.shared.cached.value;
    var a := State(s.shared, s.threads[e.t := LoadClock(table)]);
    var b := State(s.shared, s.threads[e.t := LoadAge(table, s.shared.now)]);
    var c := State(s.shared, s.threads[e.t := Done(Some(table))]);
    assert a.threads[e.t := LoadAge(table, s.shared.now)] == b.threads;
    assert b.threads[e.t := Done(Some(table))] == c.threads;
    assert After(s, e) == a && After(a, e) == b && After(b, e) == c;
    var one, two, three := [e], [e, e], [e, e, e];
    assert one[1..] == [] && two[1..] == one && three[1..] == two;
    assert Ran(b, one) == c;
    assert Ran(a, two) == c;
    hide Move, After;
  }
}
