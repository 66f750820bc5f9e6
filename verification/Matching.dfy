/**
 The loops of one poll: what is gone, what changed, which removed and created
 paths belong together, and what is left over.
 */
module Matching {
  import opened Paths
  import opened Poll
  import opened PathEvents

  /** The removed paths with what was known of them. */
  method CollectGone(was: Files, now: Files) returns (removes: Files)
    ensures removes.Keys == Gone(was, now) && forall p | p in removes :: removes[p] == was[p]
  {
    removes := map[];
    var todo := was.Keys;
    while todo != {}
      invariant todo <= was.Keys && removes.Keys == Gone(was, now) - todo
      invariant forall p | p in removes :: removes[p] == was[p]
      decreases |todo|
    {
      var p :| p in todo;
      todo := todo - {p};
      if p !in now {
        removes := removes[p := was[p]];
      }
    }
  }

  /** The changes of the common paths outside `todo`, in the order visited. */
  ghost predicate ChangesSoFar(was: Files, now: Files, todo: set<string>, order: seq<string>, evts: seq<Event>) {
    && multiset(order) == multiset(Common(was, now) - todo)
    && (forall p | p in order :: p in Common(was, now))
    && evts == ChangesInOrder(was, now, order)
  }

  /** The created paths outside `todo`. */
  predicate BornSoFar(was: Files, now: Files, todo: set<string>, creates: Files) {
    creates.Keys == Born(was, now) - todo && forall p | p in creates :: creates[p] == now[p]
  }

  ghost predicate Visited(was: Files, now: Files, todo: set<string>, creates: Files, order: seq<string>, evts: seq<Event>) {
    todo <= now.Keys && BornSoFar(was, now, todo, creates) && ChangesSoFar(was, now, todo, order, evts)
  }

  /** The created paths, and the changes of the others in the order visited. */
  method CollectChanges(was: Files, now: Files) returns (creates: Files, evts: seq<Event>, order: seq<string>)
    ensures Visited(was, now, {}, creates, order, evts)
    ensures forall p | p in was && p in now :: EventsOf(evts, p) == Reported(was, now, p)
  {
    creates, evts, order := map[], [], [];
    var todo := now.Keys;
    NothingVisited(was, now);
    while todo != {}
      invariant Visited(was, now, todo, creates, order, evts)
      decreases |todo|
    {
      var p :| p in todo;
      OneMoreVisited(was, now, todo, creates, order, evts, p);
      todo := todo - {p};
      if p !in was {
        creates := creates[p := now[p]];
      } else {
        evts := EmitChanges(p, was[p], now[p], evts);
        order := order + [p];
      }
    }
    AllReported(was, now, order, evts);
  }

  lemma AllReported(was: Files, now: Files, order: seq<string>, evts: seq<Event>)
    requires ChangesSoFar(was, now, {}, order, evts)
    ensures forall p | p in was && p in now :: EventsOf(evts, p) == Reported(was, now, p)
  {
    assert Common(was, now) - {} == Common(was, now);
    forall p | p in was && p in now ensures EventsOf(evts, p) == Reported(was, now, p) {
      FirstPhaseOf(was, now, order, p);
    }
  }

  method EmitChanges(p: string, a: FileInfo, b: FileInfo, before: seq<Event>) returns (evts: seq<Event>)
    ensures evts == before + Changes(p, a, b)
  {
    evts := before;
    if a.modTime != b.modTime {
      evts := evts + [Event(Write, p, p, b)];
    }
    if a.mode != b.mode {
      evts := evts + [Event(Chmod, p, p, b)];
    }
  }

  lemma NothingVisited(was: Files, now: Files)
    ensures Visited(was, now, now.Keys, map[], [], [])
  {
    assert Common(was, now) - now.Keys == {} && Born(was, now) - now.Keys == {};
  }

  lemma OneMoreBorn(was: Files, now: Files, todo: set<string>, creates: Files, p: string)
    requires BornSoFar(was, now, todo, creates) && p in todo && p in now
    ensures BornSoFar(was, now, todo - {p}, if p in was then creates else creates[p := now[p]])
  {
  }

  lemma OneMoreVisited(was: Files, now: Files, todo: set<string>, creates: Files, order: seq<string>,
                       evts: seq<Event>, p: string)
    requires Visited(was, now, todo, creates, order, evts) && p in todo
    ensures p !in was ==> Visited(was, now, todo - {p}, creates[p := now[p]], order, evts)
    ensures p in was ==> Visited(was, now, todo - {p}, creates, order + [p], evts + Changes(p, was[p], now[p]))
  {
    OneMoreBorn(was, now, todo, creates, p);
    OneMoreChanged(was, now, todo, order, evts, p);
  }

  lemma OneMoreChanged(was: Files, now: Files, todo: set<string>, order: seq<string>, evts: seq<Event>, p: string)
    requires ChangesSoFar(was, now, todo, order, evts) && p in todo && p in now
    ensures p !in was ==> ChangesSoFar(was, now, todo - {p}, order, evts)
    ensures p in was ==> ChangesSoFar(was, now, todo - {p}, order + [p], evts + Changes(p, was[p], now[p]))
  {
    if p in was {
      assert Common(was, now) - (todo - {p}) == Common(was, now) - todo + {p};
      assert (order + [p])[..|order|] == order;
    } else {
      assert Common(was, now) - (todo - {p}) == Common(was, now) - todo;
    }
  }

  /** The moves found so far, which need not be all. */
  predicate MovesSoFar(was: Files, now: Files, moves: seq<Event>) {
    && (forall e | e in moves :: IsMove(was, now, e))
    && DistinctPaths(moves)
    && (forall e, f | e in moves && f in moves && SameFile(e.info, f.info) :: e.oldPath == f.oldPath)
  }

  lemma OneMoreMove(was: Files, now: Files, moves: seq<Event>, e: Event)
    requires MovesSoFar(was, now, moves) && IsMove(was, now, e) && e.path !in PathsOf(moves)
    requires forall f | f in moves && SameFile(f.info, e.info) :: f.oldPath == e.oldPath
    ensures MovesSoFar(was, now, moves + [e])
  {
    assert forall f :: f in moves + [e] <==> f in moves || f == e;
    assert forall i | 0 <= i < |moves| :: moves[i].path in PathsOf(moves);
  }

  /** No path in `creates` is of the same file as a path in `done`. */
  predicate Unmatched(was: Files, now: Files, done: set<string>, creates: set<string>) {
    forall p, q | p in done && p in was && q in creates && q in now :: !SameFile(was[p], now[q])
  }

  /** `creates` is what the moves found so far leave of the created paths, and
      `removes` what they leave of the removed ones. */
  predicate Unclaimed(was: Files, now: Files, moves: seq<Event>, removes: Files, creates: Files) {
    && creates.Keys == Born(was, now) - PathsOf(moves) && (forall q | q in creates :: creates[q] == now[q])
    && removes.Keys == Gone(was, now) - OldPathsOf(moves) && (forall p | p in removes :: removes[p] == was[p])
  }

  /** Between two of the removed paths, those in `todo` not having been tried. */
  predicate Matched(was: Files, now: Files, todo: set<string>, moves: seq<Event>, removes: Files, creates: Files) {
    && MovesSoFar(was, now, moves) && Unclaimed(was, now, moves, removes, creates)
    && todo <= removes.Keys && Unmatched(was, now, Gone(was, now) - todo, creates.Keys)
  }

  /** Between two of the created paths tried against `path1`. */
  predicate Claiming(was: Files, now: Files, path1: string, todo1: set<string>, left: set<string>,
                     moves: seq<Event>, removes: Files, creates: Files, todo: set<string>) {
    && todo <= creates.Keys <= left
    && MovesSoFar(was, now, moves) && Unclaimed(was, now, moves, removes, creates)
    && todo1 - {path1} <= removes.Keys
    && Unmatched(was, now, {path1}, creates.Keys - todo)
  }

  /** One removed path against every created path still left; there is no early
      exit, so one path can be the source of several moves. */
  method MatchOne(was: Files, now: Files, path1: string, ghost todo1: set<string>,
                  moves0: seq<Event>, removes0: Files, creates0: Files)
    returns (moves: seq<Event>, removes: Files, creates: Files)
    requires Matched(was, now, todo1, moves0, removes0, creates0) && path1 in todo1
    ensures Matched(was, now, todo1 - {path1}, moves, removes, creates)
  {
    moves, removes, creates := moves0, removes0, creates0;
    var todo := creates.Keys;
    while todo != {}
      invariant Claiming(was, now, path1, todo1, creates0.Keys, moves, removes, creates, todo)
      decreases |todo|
    {
      var path2 :| path2 in todo;
      if SameFile(was[path1], now[path2]) {
        var e := Event(if Dir(path1) == Dir(path2) then Rename else Move, path2, path1, was[path1]);
        Claim(was, now, path1, todo1, creates0.Keys, moves, removes, creates, todo, e);
        removes := removes - {path1};
        creates := creates - {path2};
        moves := moves + [e];
      } else {
        Pass(was, now, path1, todo1, creates0.Keys, moves, removes, creates, todo, path2);
      }
      todo := todo - {path2};
    }
    Tried(was, now, path1, todo1, creates0.Keys, moves, removes, creates);
  }

  lemma Pass(was: Files, now: Files, path1: string, todo1: set<string>, left: set<string>,
             moves: seq<Event>, removes: Files, creates: Files, todo: set<string>, path2: string)
    requires Claiming(was, now, path1, todo1, left, moves, removes, creates, todo)
    requires path2 in todo && path1 in was && path2 in now && !SameFile(was[path1], now[path2])
    ensures Claiming(was, now, path1, todo1, left, moves, removes, creates, todo - {path2})
  {
    assert creates.Keys - (todo - {path2}) == creates.Keys - todo + {path2};
  }

  lemma Claim(was: Files, now: Files, path1: string, todo1: set<string>, left: set<string>,
              moves: seq<Event>, removes: Files, creates: Files, todo: set<string>, e: Event)
    requires Claiming(was, now, path1, todo1, left, moves, removes, creates, todo)
    requires todo1 <= Gone(was, now) && Unmatched(was, now, Gone(was, now) - todo1, left)
    requires e.path in todo && e.oldPath == path1 && path1 in todo1 && IsMove(was, now, e)
    ensures Claiming(was, now, path1, todo1, left, moves + [e], removes - {path1}, creates - {e.path}, todo - {e.path})
  {
    assert MovesSoFar(was, now, moves + [e]) by {
      SameSource(was, now, moves, e, todo1, left);
      OneMoreMove(was, now, moves, e);
    }
    ClaimedBoth(was, now, moves, removes, creates, e);
    assert creates.Keys - {e.path} - (todo - {e.path}) == creates.Keys - todo;
  }

  lemma ClaimedBoth(was: Files, now: Files, moves: seq<Event>, removes: Files, creates: Files, e: Event)
    requires Unclaimed(was, now, moves, removes, creates)
    ensures Unclaimed(was, now, moves + [e], removes - {e.oldPath}, creates - {e.path})
  {
    PathsOneMore(moves, e);
  }

  lemma Tried(was: Files, now: Files, path1: string, todo1: set<string>, left: set<string>,
              moves: seq<Event>, removes: Files, creates: Files)
    requires Claiming(was, now, path1, todo1, left, moves, removes, creates, {})
    requires path1 in todo1 && todo1 <= Gone(was, now) && Unmatched(was, now, Gone(was, now) - todo1, left)
    ensures Matched(was, now, todo1 - {path1}, moves, removes, creates)
  {
    assert creates.Keys - {} == creates.Keys;
    assert Gone(was, now) - (todo1 - {path1}) == Gone(was, now) - todo1 + {path1};
  }

  lemma SameSource(was: Files, now: Files, moves: seq<Event>, e: Event, todo1: set<string>, left: set<string>)
    requires MovesSoFar(was, now, moves) && (forall f | f in moves :: f.oldPath !in todo1 - {e.oldPath})
    requires Unmatched(was, now, Gone(was, now) - todo1, left) && e.path in left && IsMove(was, now, e)
    ensures forall f | f in moves && SameFile(f.info, e.info) :: f.oldPath == e.oldPath
  {
    forall f | f in moves && SameFile(f.info, e.info) ensures f.oldPath == e.oldPath {
      assert IsMove(was, now, f);
      assert f.oldPath !in todo1 ==> !SameFile(was[f.oldPath], now[e.path]);
    }
  }

  /** Renames and moves; what is left over was created or removed for good. */
  method MatchMoves(was: Files, now: Files, gone: Files, born: Files)
    returns (moves: seq<Event>, removes: Files, creates: Files)
    requires Unclaimed(was, now, [], gone, born)
    ensures AreMoves(was, now, moves) && Unclaimed(was, now, moves, removes, creates)
  {
    moves, removes, creates := [], gone, born;
    var todo := gone.Keys;
    while todo != {}
      invariant Matched(was, now, todo, moves, removes, creates)
      decreases |todo|
    {
      var path1 :| path1 in todo;
      moves, removes, creates := MatchOne(was, now, path1, todo, moves, removes, creates);
      todo := todo - {path1};
    }
    assert Gone(was, now) - {} == Gone(was, now);
    AllMatched(was, now, moves, creates.Keys);
  }

  lemma AllMatched(was: Files, now: Files, moves: seq<Event>, left: set<string>)
    requires MovesSoFar(was, now, moves) && left == Born(was, now) - PathsOf(moves)
    requires Unmatched(was, now, Gone(was, now), left)
    ensures AreMoves(was, now, moves)
  {
  }

  lemma OneMoreDone(all: set<string>, todo: set<string>, p: string)
    requires p in todo && todo <= all
    ensures all - (todo - {p}) == all - todo + {p}
  {
  }

  method EmitCreates(now: Files, creates: Files) returns (evts: seq<Event>)
    requires forall p | p in creates :: p in now && creates[p] == now[p]
    ensures AreCreates(now, creates.Keys, evts)
  {
    evts := [];
    var todo := creates.Keys;
    assert creates.Keys - todo == {};
    while todo != {}
      invariant todo <= creates.Keys && AreCreates(now, creates.Keys - todo, evts)
      decreases |todo|
    {
      var p :| p in todo;
      var e := Event(Create, p, "", creates[p]);
      OneMoreCreate(now, creates.Keys - todo, evts, e);
      OneMoreDone(creates.Keys, todo, p);
      evts := evts + [e];
      todo := todo - {p};
    }
    assert creates.Keys - todo == creates.Keys;
  }

  method EmitRemoves(was: Files, removes: Files) returns (evts: seq<Event>)
    requires forall p | p in removes :: p in was && removes[p] == was[p]
    ensures AreRemoves(was, removes.Keys, evts)
  {
    evts := [];
    var todo := removes.Keys;
    assert removes.Keys - todo == {};
    while todo != {}
      invariant todo <= removes.Keys && AreRemoves(was, removes.Keys - todo, evts)
      decreases |todo|
    {
      var p :| p in todo;
      var e := Event(Remove, p, p, removes[p]);
      OneMoreRemove(was, removes.Keys - todo, evts, e);
      OneMoreDone(removes.Keys, todo, p);
      evts := evts + [e];
      todo := todo - {p};
    }
    assert removes.Keys - todo == removes.Keys;
  }

  lemma OneMoreCreate(now: Files, done: set<string>, evts: seq<Event>, e: Event)
    requires AreCreates(now, done, evts) && e.path !in done && e.path in now
    requires e == Event(Create, e.path, "", now[e.path])
    ensures AreCreates(now, done + {e.path}, evts + [e])
  {
    PathsOneMore(evts, e);
  }

  lemma OneMoreRemove(was: Files, done: set<string>, evts: seq<Event>, e: Event)
    requires AreRemoves(was, done, evts) && e.path !in done && e.path in was
    requires e == Event(Remove, e.path, e.path, was[e.path])
    ensures AreRemoves(was, done + {e.path}, evts + [e])
  {
    PathsOneMore(evts, e);
  }

  lemma PathsOneMore(evts: seq<Event>, e: Event)
    ensures PathsOf(evts + [e]) == PathsOf(evts) + {e.path}
    ensures OldPathsOf(evts + [e]) == OldPathsOf(evts) + {e.oldPath}
    ensures DistinctPaths(evts) && e.path !in PathsOf(evts) ==> DistinctPaths(evts + [e])
  {
    assert forall f :: f in evts + [e] <==> f in evts || f == e;
    assert forall i | 0 <= i < |evts| :: evts[i].path in PathsOf(evts);
  }

  /** One poll, to the end: the phases follow each other. */
  method PollOnce(was: Files, now: Files) returns (evts: seq<Event>, phases: Phases)
    ensures IsEmission(was, now, phases) && evts == Emitted(was, now, phases)
    ensures forall p :: Tells(was, now, evts, p)
  {
    var removes := CollectGone(was, now);
    var creates, changes, order;
    creates, changes, order := CollectChanges(was, now);
    NothingClaimed(was, now, removes, creates);
    var moves;
    moves, removes, creates := MatchMoves(was, now, removes, creates);
    var created := EmitCreates(now, creates);
    var removed := EmitRemoves(was, removes);
    phases := Phases(order, moves, created, removed);
    Assemble(was, now, phases, removes, creates, changes);
    EveryPathIsTold(was, now, phases);
    evts := changes + moves + created + removed;
  }

  lemma NothingClaimed(was: Files, now: Files, removes: Files, creates: Files)
    requires removes.Keys == Gone(was, now) && forall p | p in removes :: removes[p] == was[p]
    requires BornSoFar(was, now, {}, creates)
    ensures Unclaimed(was, now, [], removes, creates)
  {
  }

  lemma Assemble(was: Files, now: Files, ph: Phases, removes: Files, creates: Files, changes: seq<Event>)
    requires ChangesSoFar(was, now, {}, ph.order, changes) && AreMoves(was, now, ph.moves)
    requires Unclaimed(was, now, ph.moves, removes, creates)
    requires AreCreates(now, creates.Keys, ph.creates) && AreRemoves(was, removes.Keys, ph.removes)
    ensures IsEmission(was, now, ph)
    ensures Emitted(was, now, ph) == changes + ph.moves + ph.creates + ph.removes
  {
    assert Common(was, now) - {} == Common(was, now);
  }
}
