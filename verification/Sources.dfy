/**
 Which emissions there are: a poll may take the moves of a file from any path
 the file lost, so what is true of every emission holds for each such path.
 */
module Sources {
  import opened Paths
  import opened Poll
  import opened Matching
  import opened Replay

  /** The created paths of files that lost a path. */
  function MovedTo(was: Files, now: Files): set<string> {
    set q | q in Born(was, now) && GoneOf(was, now, now[q].id) != {}
  }

  /** One removed path for each file, for the file of `p` that path. */
  ghost function SourceOf(was: Files, now: Files, p: string, id: nat): (source: string)
    requires p in Gone(was, now) && GoneOf(was, now, id) != {}
    ensures source in GoneOf(was, now, id) && (was[p].id == id ==> source == p)
  {
    if was[p].id == id then p
    else
      var source :| source in GoneOf(was, now, id);
      source
  }

  ghost predicate FromSources(was: Files, now: Files, p: string, moves: seq<Event>)
    requires p in Gone(was, now)
  {
    forall e | e in moves ::
      IsMove(was, now, e) && e.path in MovedTo(was, now) && e.oldPath == SourceOf(was, now, p, now[e.path].id)
  }

  lemma MoveFromSource(was: Files, now: Files, p: string, q: string) returns (e: Event)
    requires p in Gone(was, now) && q in MovedTo(was, now)
    ensures e.path == q && FromSources(was, now, p, [e])
  {
    var source := SourceOf(was, now, p, now[q].id);
    e := Event(if Dir(source) == Dir(q) then Rename else Move, q, source, was[source]);
  }

  lemma FromSourcesSum(was: Files, now: Files, p: string, a: seq<Event>, b: seq<Event>)
    requires p in Gone(was, now) && FromSources(was, now, p, a) && FromSources(was, now, p, b)
    ensures FromSources(was, now, p, a + b)
  {
    assert forall e | e in a + b :: e in a || e in b;
  }

  lemma {:induction false} MovesExist(was: Files, now: Files, p: string, todo: set<string>) returns (moves: seq<Event>)
    requires p in Gone(was, now) && todo <= MovedTo(was, now)
    ensures FromSources(was, now, p, moves) && DistinctPaths(moves) && PathsOf(moves) == todo
    decreases |todo|
  {
    moves := [];
    if todo != {} {
      var q :| q in todo;
      var init := MovesExist(was, now, p, todo - {q});
      var e := MoveFromSource(was, now, p, q);
      FromSourcesSum(was, now, p, init, [e]);
      PathsOneMore(init, e);
      moves := init + [e];
    }
  }

  lemma {:induction false} CreatesExist(now: Files, paths: set<string>) returns (evts: seq<Event>)
    requires paths <= now.Keys
    ensures AreCreates(now, paths, evts)
    decreases |paths|
  {
    evts := [];
    if paths != {} {
      var p :| p in paths;
      evts := CreatesExist(now, paths - {p});
      OneMoreCreate(now, paths - {p}, evts, Event(Create, p, "", now[p]));
      assert paths - {p} + {p} == paths;
      evts := evts + [Event(Create, p, "", now[p])];
    }
  }

  lemma {:induction false} RemovesExist(was: Files, paths: set<string>) returns (evts: seq<Event>)
    requires paths <= was.Keys
    ensures AreRemoves(was, paths, evts)
    decreases |paths|
  {
    evts := [];
    if paths != {} {
      var p :| p in paths;
      evts := RemovesExist(was, paths - {p});
      OneMoreRemove(was, paths - {p}, evts, Event(Remove, p, p, was[p]));
      assert paths - {p} + {p} == paths;
      evts := evts + [Event(Remove, p, p, was[p])];
    }
  }

  lemma {:induction false} OrderExists(paths: set<string>) returns (order: seq<string>)
    ensures multiset(order) == multiset(paths)
    decreases |paths|
  {
    order := [];
    if paths != {} {
      var p :| p in paths;
      order := OrderExists(paths - {p});
      order := order + [p];
    }
  }

  lemma SourcesMakeMoves(was: Files, now: Files, p: string, moves: seq<Event>)
    requires p in Gone(was, now) && FromSources(was, now, p, moves)
    requires DistinctPaths(moves) && PathsOf(moves) == MovedTo(was, now)
    ensures AreMoves(was, now, moves)
  {
    forall x, q | x in Gone(was, now) && q in Born(was, now) && SameFile(was[x], now[q]) ensures q in PathsOf(moves) {
      assert x in GoneOf(was, now, now[q].id);
    }
  }

  /** Whatever removed path is chosen, some emission takes all moves of its file
      from it. */
  lemma EmissionFrom(was: Files, now: Files, p: string) returns (ph: Phases)
    requires p in Gone(was, now)
    ensures IsEmission(was, now, ph)
    ensures forall q | q in Born(was, now) && SameFile(was[p], now[q]) ::
      exists e :: e in ph.moves && e.path == q && e.oldPath == p
  {
    var moves := MovesExist(was, now, p, MovedTo(was, now));
    SourcesMakeMoves(was, now, p, moves);
    var order := OrderExists(Common(was, now));
    var creates := CreatesExist(now, Born(was, now) - PathsOf(moves));
    var removes := RemovesExist(was, Gone(was, now) - OldPathsOf(moves));
    ph := Phases(order, moves, creates, removes);
    forall q | q in Born(was, now) && SameFile(was[p], now[q])
      ensures exists e :: e in ph.moves && e.path == q && e.oldPath == p
    {
      assert q in PathsOf(moves);
      var e :| e in moves && e.path == q;
      assert e.oldPath == SourceOf(was, now, p, now[q].id);
    }
  }

  ghost predicate ComesOutRight(was: Files, now: Files, ph: Phases)
    requires IsEmission(was, now, ph)
  {
    ApplyAll(Metas(was), Emitted(was, now, ph)) == Metas(now)
  }

  /** No file changed that lost one path and gained another. */
  predicate MovedUnchanged(was: Files, now: Files) {
    forall p, q | p in Gone(was, now) && q in Born(was, now) && SameFile(was[p], now[q]) :: MetaOf(was[p]) == MetaOf(now[q])
  }

  /** Read off the two snapshots: the metadata comes out right in whatever
      order they are visited if and only if no file changed that lost one path
      and gained another. */
  lemma MetasAlwaysComeOutRight(was: Files, now: Files)
    ensures (forall ph | IsEmission(was, now, ph) :: ComesOutRight(was, now, ph)) <==> MovedUnchanged(was, now)
  {
    if MovedUnchanged(was, now) {
      forall ph | IsEmission(was, now, ph) ensures ComesOutRight(was, now, ph) {
        ReplayGivesNewMetas(was, now, ph);
        forall e | e in ph.moves ensures IsMove(was, now, e) && MetaOf(was[e.oldPath]) == MetaOf(now[e.path]) {
          assert IsMove(was, now, e);
        }
      }
    } else {
      WrongEmission(was, now);
    }
  }

  lemma WrongEmission(was: Files, now: Files)
    requires !MovedUnchanged(was, now)
    ensures exists ph :: IsEmission(was, now, ph) && !ComesOutRight(was, now, ph)
  {
    var p, q :| p in Gone(was, now) && q in Born(was, now) && SameFile(was[p], now[q]) && MetaOf(was[p]) != MetaOf(now[q]);
    var ph := EmissionFrom(was, now, p);
    ReplayGivesNewMetas(was, now, ph);
    var e :| e in ph.moves && e.path == q && e.oldPath == p;
    assert !ComesOutRight(was, now, ph);
  }

  const BEFORE_RENAME: Files := map["/a" := FileInfo("a", false, 1, 0, 7)]
  const AFTER_RENAME: Files := map["/b" := FileInfo("b", false, 2, 0, 7)]

  /** A file renamed from `/a` to `/b` and written to at time 2: every emission,
      and there is one, records time 1 for it. */
  lemma RenamedAndWritten()
    ensures exists ph :: IsEmission(BEFORE_RENAME, AFTER_RENAME, ph)
    ensures forall ph | IsEmission(BEFORE_RENAME, AFTER_RENAME, ph) ::
      !ComesOutRight(BEFORE_RENAME, AFTER_RENAME, ph)
  {
    var was, now := BEFORE_RENAME, AFTER_RENAME;
    var a, b := "/a", "/b";
    assert a[1] != b[1];
    assert was.Keys == {a} && now.Keys == {b};
    assert a in Gone(was, now) && b in Born(was, now) && SameFile(was[a], now[b]);
    var _ := EmissionFrom(was, now, a);
    forall ph | IsEmission(was, now, ph) ensures !ComesOutRight(was, now, ph) {
      assert b in PathsOf(ph.moves);
      var e :| e in ph.moves && e.path == b;
      assert IsMove(was, now, e) && e.oldPath == a;
      ReplayGivesNewMetas(was, now, ph);
    }
  }
}
