/**
 What one poll says about each path: exactly which events, in which order,
 read off the two snapshots.
 */
module PathEvents {
  import opened Paths
  import opened Poll

  /** The events about a path, in order. */
  function EventsOf(evts: seq<Event>, p: string): seq<Event> {
    if evts == [] then []
    else
      var rest, last := EventsOf(evts[..|evts| - 1], p), evts[|evts| - 1];
      if last.path == p then rest + [last] else rest
  }

  lemma {:induction false} EventsOfSum(a: seq<Event>, b: seq<Event>, p: string)
    ensures EventsOf(a + b, p) == EventsOf(a, p) + EventsOf(b, p)
  {
    if b == [] {
      assert a + b == a;
    } else {
      assert (a + b)[..|a + b| - 1] == a + b[..|b| - 1];
      EventsOfSum(a, b[..|b| - 1], p);
    }
  }

  lemma {:induction false} NoEventsOf(evts: seq<Event>, p: string)
    requires p !in PathsOf(evts)
    ensures EventsOf(evts, p) == []
  {
    if evts != [] {
      var n := |evts| - 1;
      assert evts[n] in evts && PathsOf(evts[..n]) <= PathsOf(evts);
      NoEventsOf(evts[..n], p);
    }
  }

  lemma {:induction false} OneEventOf(evts: seq<Event>, e: Event)
    requires DistinctPaths(evts) && e in evts
    ensures EventsOf(evts, e.path) == [e]
  {
    var n := |evts| - 1;
    if evts[n] == e {
      assert e.path !in PathsOf(evts[..n]);
      NoEventsOf(evts[..n], e.path);
    } else {
      assert e in evts[..n];
      OneEventOf(evts[..n], e);
    }
  }

  // ----------------------------------------------------------------- changes

  /** The events of a path in both snapshots: a write if the time differs, and
      then, independently, a chmod if the mode does. */
  function Reported(was: Files, now: Files, p: string): seq<Event>
    requires p in was && p in now
  {
    var w, c := Event(Write, p, p, now[p]), Event(Chmod, p, p, now[p]);
    if was[p].modTime == now[p].modTime && was[p].mode == now[p].mode then []
    else if was[p].mode == now[p].mode then [w]
    else if was[p].modTime == now[p].modTime then [c]
    else [w, c]
  }

  lemma ChangesReported(was: Files, now: Files, p: string, q: string)
    requires q in was && q in now
    ensures EventsOf(Changes(q, was[q], now[q]), p) == if p == q then Reported(was, now, p) else []
  {
    var w := if was[q].modTime != now[q].modTime then [Event(Write, q, q, now[q])] else [];
    var c := if was[q].mode != now[q].mode then [Event(Chmod, q, q, now[q])] else [];
    EventsOfSum(w, c, p);
    assert w != [] ==> w[..0] == [];
    assert c != [] ==> c[..0] == [];
  }

  lemma {:induction false} ChangesOf(was: Files, now: Files, order: seq<string>, p: string)
    requires forall q | q in order :: q in Common(was, now)
    requires multiset(order)[p] <= 1
    ensures EventsOf(ChangesInOrder(was, now, order), p)
      == if p in order && p in Common(was, now) then Reported(was, now, p) else []
  {
    if order != [] {
      var n := |order| - 1;
      var q, init := order[n], order[..n];
      assert q in order && order == init + [q];
      assert multiset(order)[p] == multiset(init)[p] + if p == q then 1 else 0;
      ChangesOf(was, now, init, p);
      EventsOfSum(ChangesInOrder(was, now, init), Changes(q, was[q], now[q]), p);
      ChangesReported(was, now, p, q);
    }
  }

  // -------------------------------------------------------------- the theorem

  /** A path of the same file that is in the old snapshot only. */
  predicate CameFrom(was: Files, now: Files, q: string, p: string) {
    q in was && q !in now && p in now && was[q].id == now[p].id
  }

  /** The one event of a path in the new snapshot only: a rename within a
      directory or a move between two, with what was known of the old path, if
      the file lost a path, and a creation otherwise. */
  ghost predicate Arrives(was: Files, now: Files, p: string, e: Event)
    requires p in now
  {
    if exists q :: CameFrom(was, now, q, p) then
      && e.path == p && CameFrom(was, now, e.oldPath, p) && e.info == was[e.oldPath]
      && e.op == (if Dir(e.oldPath) == Dir(p) then Rename else Move)
    else
      e == Event(Create, p, "", now[p])
  }

  /** Some path was moved to from this one. */
  predicate LeftFor(evts: seq<Event>, p: string) {
    exists e :: e in evts && (e.op == Rename || e.op == Move) && e.oldPath == p
  }

  lemma EventsByPhase(was: Files, now: Files, ph: Phases, p: string)
    requires IsEmission(was, now, ph)
    ensures EventsOf(Emitted(was, now, ph), p)
      == (if p in was && p in now then Reported(was, now, p) else [])
       + EventsOf(ph.moves, p) + EventsOf(ph.creates, p) + EventsOf(ph.removes, p)
  {
    FirstPhaseOf(was, now, ph.order, p);
    EventsOfFour(ChangesInOrder(was, now, ph.order), ph.moves, ph.creates, ph.removes, p);
  }

  lemma FirstPhaseOf(was: Files, now: Files, order: seq<string>, p: string)
    requires multiset(order) == multiset(Common(was, now))
    ensures forall q | q in order :: q in Common(was, now)
    ensures EventsOf(ChangesInOrder(was, now, order), p) == if p in was && p in now then Reported(was, now, p) else []
  {
    OrderIsCommon(was, now, order);
    assert multiset(order)[p] <= 1;
    ChangesOf(was, now, order, p);
  }

  lemma EventsOfFour(w: seq<Event>, m: seq<Event>, c: seq<Event>, r: seq<Event>, p: string)
    ensures EventsOf(w + m + c + r, p) == EventsOf(w, p) + EventsOf(m, p) + EventsOf(c, p) + EventsOf(r, p)
  {
    EventsOfSum(w, m, p);
    EventsOfSum(w + m, c, p);
    EventsOfSum(w + m + c, r, p);
  }

  lemma PathsOfMoves(was: Files, now: Files, moves: seq<Event>)
    requires AreMoves(was, now, moves)
    ensures forall p :: p in PathsOf(moves) <==> p in Born(was, now) && exists q :: CameFrom(was, now, q, p)
  {
    forall p | p in PathsOf(moves) ensures p in Born(was, now) && exists q :: CameFrom(was, now, q, p) {
      var e :| e in moves && e.path == p;
      assert IsMove(was, now, e) && CameFrom(was, now, e.oldPath, p);
    }
    forall p, q | p in Born(was, now) && CameFrom(was, now, q, p) ensures p in PathsOf(moves) {
      assert q in Gone(was, now) && SameFile(was[q], now[p]);
    }
  }

  /** A path in both snapshots has exactly these events, and the write comes
      before the chmod. */
  lemma ChangesAreReported(was: Files, now: Files, ph: Phases, p: string)
    requires IsEmission(was, now, ph) && p in was && p in now
    ensures EventsOf(Emitted(was, now, ph), p) == Reported(was, now, p)
  {
    EventsByPhase(was, now, ph, p);
    PathsOfMoves(was, now, ph.moves);
    NoEventsOf(ph.moves, p);
    NoEventsOf(ph.creates, p);
    NoEventsOf(ph.removes, p);
  }

  /** A path in the new snapshot only has exactly one event. */
  lemma ArrivalIsReported(was: Files, now: Files, ph: Phases, p: string)
    requires IsEmission(was, now, ph) && p !in was && p in now
    ensures exists e :: EventsOf(Emitted(was, now, ph), p) == [e] && Arrives(was, now, p, e)
  {
    EventsByPhase(was, now, ph, p);
    NoEventsOf(ph.removes, p);
    if p in PathsOf(ph.moves) {
      var e := MoveArrives(was, now, ph.moves, p);
      NoEventsOf(ph.creates, p);
      assert EventsOf(Emitted(was, now, ph), p) == [e];
    } else {
      NoEventsOf(ph.moves, p);
      var e := Event(Create, p, "", now[p]);
      CreateArrives(was, now, ph, p, e);
      assert EventsOf(Emitted(was, now, ph), p) == [e];
    }
  }

  lemma MoveArrives(was: Files, now: Files, moves: seq<Event>, p: string) returns (e: Event)
    requires AreMoves(was, now, moves) && p in PathsOf(moves)
    ensures EventsOf(moves, p) == [e] && p in now && Arrives(was, now, p, e)
  {
    e :| e in moves && e.path == p;
    assert IsMove(was, now, e) && CameFrom(was, now, e.oldPath, p);
    OneEventOf(moves, e);
  }

  lemma CreateArrives(was: Files, now: Files, ph: Phases, p: string, e: Event)
    requires IsEmission(was, now, ph) && p !in was && p in now && p !in PathsOf(ph.moves)
    requires e == Event(Create, p, "", now[p])
    ensures EventsOf(ph.creates, p) == [e] && Arrives(was, now, p, e)
  {
    PathsOfMoves(was, now, ph.moves);
    assert p in PathsOf(ph.creates);
    var f :| f in ph.creates && f.path == p;
    assert f == e;
    OneEventOf(ph.creates, e);
  }

  /** A path in the old snapshot only is removed unless its file is reported to
      have moved away from it. */
  lemma DepartureIsReported(was: Files, now: Files, ph: Phases, p: string)
    requires IsEmission(was, now, ph) && p in was && p !in now
    ensures var evts := Emitted(was, now, ph);
      EventsOf(evts, p) == if LeftFor(evts, p) then [] else [Event(Remove, p, p, was[p])]
  {
    EventsByPhase(was, now, ph, p);
    PathsOfMoves(was, now, ph.moves);
    NoEventsOf(ph.moves, p);
    NoEventsOf(ph.creates, p);
    LeftInMoves(was, now, ph, p);
    if p in OldPathsOf(ph.moves) {
      NoEventsOf(ph.removes, p);
    } else {
      assert p in PathsOf(ph.removes);
      var e :| e in ph.removes && e.path == p;
      OneEventOf(ph.removes, e);
    }
  }

  lemma LeftInMoves(was: Files, now: Files, ph: Phases, p: string)
    requires IsEmission(was, now, ph)
    ensures LeftFor(Emitted(was, now, ph), p) <==> p in OldPathsOf(ph.moves)
  {
    PhaseOps(was, now, ph);
    if p in OldPathsOf(ph.moves) {
      var e :| e in ph.moves && e.oldPath == p;
      assert e in Emitted(was, now, ph);
    }
    if e :| e in Emitted(was, now, ph) && (e.op == Rename || e.op == Move) && e.oldPath == p {
      assert e in ph.moves;
    }
  }

  /** Nothing is said of any other path. */
  lemma OthersAreNotReported(was: Files, now: Files, ph: Phases, p: string)
    requires IsEmission(was, now, ph) && p !in was && p !in now
    ensures EventsOf(Emitted(was, now, ph), p) == []
  {
    EventsByPhase(was, now, ph, p);
    PathsOfMoves(was, now, ph.moves);
    NoEventsOf(ph.moves, p);
    NoEventsOf(ph.creates, p);
    NoEventsOf(ph.removes, p);
  }

  /** Exactly what is said of a path. */
  ghost predicate Tells(was: Files, now: Files, evts: seq<Event>, p: string) {
    if p in was && p in now then EventsOf(evts, p) == Reported(was, now, p)
    else if p in now then exists e :: EventsOf(evts, p) == [e] && Arrives(was, now, p, e)
    else if p in was then EventsOf(evts, p) == if LeftFor(evts, p) then [] else [Event(Remove, p, p, was[p])]
    else EventsOf(evts, p) == []
  }

  /** Every poll says of every path exactly what the two snapshots say. */
  lemma EveryPathIsTold(was: Files, now: Files, ph: Phases)
    requires IsEmission(was, now, ph)
    ensures forall p :: Tells(was, now, Emitted(was, now, ph), p)
  {
    forall p ensures Tells(was, now, Emitted(was, now, ph), p) {
      if p in was && p in now {
        ChangesAreReported(was, now, ph, p);
      } else if p in now {
        ArrivalIsReported(was, now, ph, p);
      } else if p in was {
        DepartureIsReported(was, now, ph, p);
      } else {
        OthersAreNotReported(was, now, ph, p);
      }
    }
  }

  /** `/u/f`, written and chmod-ed between two polls, is reported twice. */
  lemma WrittenAndChmoded(was: Files, now: Files, ph: Phases, p: string, info: FileInfo)
    requires p in was && p in now && now[p] == info && IsEmission(was, now, ph)
    requires was[p] == FileInfo("f", false, 1, 0, 6) && info == FileInfo("f", false, 2, 1, 6)
    ensures EventsOf(Emitted(was, now, ph), p) == [Event(Write, p, p, info), Event(Chmod, p, p, info)]
  {
    ChangesAreReported(was, now, ph, p);
  }
}
