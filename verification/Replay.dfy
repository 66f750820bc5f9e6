/**
 Replaying emitted events on an old snapshot: the paths always come out right,
 the metadata if and only if no moved file changed on the way.  A record that
 came out wrong stays as it is until its path changes again.
 */
module Replay {
  import opened Poll

  datatype Meta = Meta(modTime: int, mode: int)

  function MetaOf(info: FileInfo): Meta {
    Meta(info.modTime, info.mode)
  }

  function Metas(files: Files): map<string, Meta> {
    map p | p in files :: MetaOf(files[p])
  }

  /** What a listener that trusts the events would record. */
  function Apply(known: map<string, Meta>, e: Event): map<string, Meta> {
    match e.op
    case Create => known[e.path := MetaOf(e.info)]
    case Remove => known - {e.path}
    case Rename | Move => (known - {e.oldPath})[e.path := MetaOf(e.info)]
    case Write | Chmod => known[e.path := MetaOf(e.info)]
  }

  function ApplyAll(known: map<string, Meta>, evts: seq<Event>): map<string, Meta> {
    if evts == [] then known else Apply(ApplyAll(known, evts[..|evts| - 1]), evts[|evts| - 1])
  }

  lemma {:induction false} ApplySum(known: map<string, Meta>, a: seq<Event>, b: seq<Event>)
    ensures ApplyAll(known, a + b) == ApplyAll(ApplyAll(known, a), b)
  {
    if b == [] {
      assert a + b == a;
    } else {
      assert (a + b)[..|a + b| - 1] == a + b[..|b| - 1];
      ApplySum(known, a, b[..|b| - 1]);
    }
  }

  /** The path is in both snapshots, with different metadata. */
  predicate Altered(was: Files, now: Files, p: string) {
    p in Common(was, now) && MetaOf(was[p]) != MetaOf(now[p])
  }

  /** After the changes of the paths in `order` the altered ones have their new
      metadata, and the others what was known of them. */
  function Updated(known: map<string, Meta>, was: Files, now: Files, order: seq<string>): map<string, Meta> {
    map p | p in known :: if p in order && Altered(was, now, p) then MetaOf(now[p]) else known[p]
  }

  lemma {:induction false} ReplayChanges(known: map<string, Meta>, was: Files, now: Files, order: seq<string>)
    requires forall p | p in order :: p in Common(was, now)
    requires Common(was, now) <= known.Keys
    ensures ApplyAll(known, ChangesInOrder(was, now, order)) == Updated(known, was, now, order)
  {
    if order == [] {
      assert known == Updated(known, was, now, []);
    } else {
      var n := |order| - 1;
      var p, init := order[n], order[..n];
      assert p in order && order == init + [p];
      ReplayChanges(known, was, now, init);
      ApplySum(known, ChangesInOrder(was, now, init), Changes(p, was[p], now[p]));
      ReplayOneChange(Updated(known, was, now, init), p, was[p], now[p]);
      UpdatedOneMore(known, was, now, init, p);
    }
  }

  lemma UpdatedOneMore(known: map<string, Meta>, was: Files, now: Files, init: seq<string>, p: string)
    requires p in Common(was, now) && Common(was, now) <= known.Keys
    ensures Updated(known, was, now, init + [p])
      == if Altered(was, now, p) then Updated(known, was, now, init)[p := MetaOf(now[p])] else Updated(known, was, now, init)
  {
    assert forall q :: q in init + [p] <==> q in init || q == p;
  }

  lemma ReplayOneChange(known: map<string, Meta>, p: string, a: FileInfo, b: FileInfo)
    requires p in known
    ensures ApplyAll(known, Changes(p, a, b)) == if MetaOf(a) != MetaOf(b) then known[p := MetaOf(b)] else known
  {
    var w, c := Event(Write, p, p, b), Event(Chmod, p, p, b);
    assert ApplyAll(known, [w]) == known[p := MetaOf(b)] by { assert [w][..0] == []; }
    assert ApplyAll(known, [c]) == known[p := MetaOf(b)] by { assert [c][..0] == []; }
    assert ApplyAll(known, [w, c]) == known[p := MetaOf(b)] by { assert [w, c][..1] == [w]; }
  }

  /** The event about a path, when paths are distinct. */
  ghost function EventAt(evts: seq<Event>, p: string): Event
    requires p in PathsOf(evts)
  {
    var e :| e in evts && e.path == p;
    e
  }

  lemma EventAtUnique(evts: seq<Event>, e: Event)
    requires DistinctPaths(evts) && e in evts
    ensures EventAt(evts, e.path) == e
  {
  }

  /** What is known after the moves: the sources are gone, the targets are
      known with what the events say, and nothing else has changed. */
  ghost predicate MovesKnown(known: map<string, Meta>, moves: seq<Event>, t: map<string, Meta>) {
    && t.Keys == known.Keys - OldPathsOf(moves) + PathsOf(moves)
    && (forall p | p in known && p !in OldPathsOf(moves) && p !in PathsOf(moves) :: t[p] == known[p])
    && (forall e | e in moves :: t[e.path] == MetaOf(e.info))
  }

  /** Moves whose sources and targets do not mix take the sources away and add
      the targets with the metadata of the sources. */
  lemma {:induction false} ReplayMoves(known: map<string, Meta>, moves: seq<Event>)
    requires forall e | e in moves :: e.op == Rename || e.op == Move
    requires DistinctPaths(moves) && OldPathsOf(moves) !! PathsOf(moves)
    ensures MovesKnown(known, moves, ApplyAll(known, moves))
  {
    if moves != [] {
      var n := |moves| - 1;
      var e, init := moves[n], moves[..n];
      assert moves == init + [e];
      assert PathsOf(moves) == PathsOf(init) + {e.path} && OldPathsOf(moves) == OldPathsOf(init) + {e.oldPath};
      ReplayMoves(known, init);
      OneMoveMore(known, init, e, ApplyAll(known, init));
    }
  }

  lemma OneMoveMore(known: map<string, Meta>, init: seq<Event>, e: Event, was: map<string, Meta>)
    requires e.path !in PathsOf(init) && e.oldPath !in PathsOf(init) && e.path != e.oldPath
    requires e.path !in OldPathsOf(init)
    requires was.Keys == known.Keys - OldPathsOf(init) + PathsOf(init)
    requires forall p | p in known && p !in OldPathsOf(init) && p !in PathsOf(init) :: was[p] == known[p]
    requires forall f | f in init :: was[f.path] == MetaOf(f.info)
    ensures var t := (was - {e.oldPath})[e.path := MetaOf(e.info)];
      && t.Keys == known.Keys - (OldPathsOf(init) + {e.oldPath}) + (PathsOf(init) + {e.path})
      && (forall p | p in known && p !in OldPathsOf(init) + {e.oldPath} && p !in PathsOf(init) + {e.path} :: t[p] == known[p])
      && t[e.path] == MetaOf(e.info)
      && (forall f | f in init :: t[f.path] == MetaOf(f.info))
  {
    forall f | f in init ensures f.path != e.path && f.path != e.oldPath {
      assert f.path in PathsOf(init);
    }
  }

  ghost predicate CreatesKnown(known: map<string, Meta>, now: Files, evts: seq<Event>, t: map<string, Meta>) {
    && t.Keys == known.Keys + PathsOf(evts)
    && (forall p | p in known && p !in PathsOf(evts) :: t[p] == known[p])
    && (forall p | p in PathsOf(evts) :: p in now && t[p] == MetaOf(now[p]))
  }

  lemma {:induction false} ReplayCreates(known: map<string, Meta>, now: Files, evts: seq<Event>)
    requires forall e | e in evts :: e.op == Create && e.path in now && e.info == now[e.path]
    ensures CreatesKnown(known, now, evts, ApplyAll(known, evts))
  {
    if evts != [] {
      var n := |evts| - 1;
      var e, init := evts[n], evts[..n];
      assert evts == init + [e];
      assert PathsOf(evts) == PathsOf(init) + {e.path};
      ReplayCreates(known, now, init);
    }
  }

  lemma {:induction false} ReplayRemoves(known: map<string, Meta>, evts: seq<Event>)
    requires forall e | e in evts :: e.op == Remove
    ensures ApplyAll(known, evts) == known - PathsOf(evts)
  {
    if evts == [] {
      assert PathsOf(evts) == {};
    } else {
      var n := |evts| - 1;
      var e, init := evts[n], evts[..n];
      assert evts == init + [e];
      assert PathsOf(evts) == PathsOf(init) + {e.path};
      ReplayRemoves(known, init);
    }
  }

  lemma ApplyFour(known: map<string, Meta>, a: seq<Event>, b: seq<Event>, c: seq<Event>, d: seq<Event>)
    ensures ApplyAll(known, a + b + c + d) == ApplyAll(ApplyAll(ApplyAll(ApplyAll(known, a), b), c), d)
  {
    ApplySum(known, a, b);
    ApplySum(known, a + b, c);
    ApplySum(known, a + b + c, d);
  }

  /** The record after one whole emission, path by path. */
  ghost function Recorded(known: map<string, Meta>, was: Files, now: Files, moves: seq<Event>): map<string, Meta>
    requires known.Keys == was.Keys
  {
    map p | p in now ::
      if p in PathsOf(moves) then MetaOf(EventAt(moves, p).info)
      else if p in was && !Altered(was, now, p) then known[p]
      else MetaOf(now[p])
  }

  lemma ReplayRecords(known: map<string, Meta>, was: Files, now: Files, ph: Phases)
    requires IsEmission(was, now, ph) && known.Keys == was.Keys
    ensures ApplyAll(known, Emitted(was, now, ph)) == Recorded(known, was, now, ph.moves)
  {
    OrderIsCommon(was, now, ph.order);
    ReplayChanges(known, was, now, ph.order);
    ApplyFour(known, ChangesInOrder(was, now, ph.order), ph.moves, ph.creates, ph.removes);
    ReplayPhases(known, was, now, ph, Updated(known, was, now, ph.order));
  }

  /** What is known of a path in both snapshots, after its changes. */
  ghost predicate ChangesKnown(known: map<string, Meta>, was: Files, now: Files, updated: map<string, Meta>) {
    && known.Keys == was.Keys == updated.Keys
    && forall p | p in Common(was, now) :: updated[p] == if Altered(was, now, p) then MetaOf(now[p]) else known[p]
  }

  lemma ReplayPhases(known: map<string, Meta>, was: Files, now: Files, ph: Phases, updated: map<string, Meta>)
    requires IsEmission(was, now, ph) && ChangesKnown(known, was, now, updated)
    ensures ApplyAll(ApplyAll(ApplyAll(updated, ph.moves), ph.creates), ph.removes) == Recorded(known, was, now, ph.moves)
  {
    MovesJoinGoneToBorn(was, now, ph.moves);
    ReplayMoves(updated, ph.moves);
    var moved := ApplyAll(updated, ph.moves);
    ReplayCreates(moved, now, ph.creates);
    var created := ApplyAll(moved, ph.creates);
    ReplayRemoves(created, ph.removes);
    RecordedAt(known, was, now, ph, updated, moved, created);
  }

  lemma MovesJoinGoneToBorn(was: Files, now: Files, moves: seq<Event>)
    requires AreMoves(was, now, moves)
    ensures OldPathsOf(moves) <= Gone(was, now) && PathsOf(moves) <= Born(was, now)
    ensures OldPathsOf(moves) !! PathsOf(moves)
    ensures forall e | e in moves :: e.op == Rename || e.op == Move
  {
    forall e | e in moves ensures e.oldPath in Gone(was, now) && e.path in Born(was, now) {
      assert IsMove(was, now, e);
    }
    forall e | e in moves ensures e.op == Rename || e.op == Move {
      assert IsMove(was, now, e);
    }
  }

  lemma RecordedAt(known: map<string, Meta>, was: Files, now: Files, ph: Phases, updated: map<string, Meta>,
                   moved: map<string, Meta>, created: map<string, Meta>)
    requires ChangesKnown(known, was, now, updated)
    requires OldPathsOf(ph.moves) <= Gone(was, now) && PathsOf(ph.moves) <= Born(was, now)
    requires PathsOf(ph.creates) == Born(was, now) - PathsOf(ph.moves)
    requires PathsOf(ph.removes) == Gone(was, now) - OldPathsOf(ph.moves)
    requires MovesKnown(updated, ph.moves, moved) && CreatesKnown(moved, now, ph.creates, created)
    ensures created - PathsOf(ph.removes) == Recorded(known, was, now, ph.moves)
  {
    assert (created - PathsOf(ph.removes)).Keys == now.Keys;
    forall p | p in now
      ensures p in created && created[p] == Recorded(known, was, now, ph.moves)[p]
    {
      if p in PathsOf(ph.moves) { MovedMeta(ph.moves, updated, moved, p); }
    }
  }

  lemma MovedMeta(moves: seq<Event>, known: map<string, Meta>, moved: map<string, Meta>, p: string)
    requires MovesKnown(known, moves, moved) && p in PathsOf(moves)
    ensures p in moved && moved[p] == MetaOf(EventAt(moves, p).info)
  {
    var e := EventAt(moves, p);
    assert moved[e.path] == MetaOf(e.info);
  }

  /** Replaying one emission on the old paths gives exactly the new paths. */
  lemma ReplayGivesNewPaths(was: Files, now: Files, ph: Phases)
    requires IsEmission(was, now, ph)
    ensures ApplyAll(Metas(was), Emitted(was, now, ph)).Keys == now.Keys
  {
    ReplayRecords(Metas(was), was, now, ph);
  }

  /** It gives the new metadata too if and only if no renamed or moved file
      changed: such a change is reported by no event. */
  lemma ReplayGivesNewMetas(was: Files, now: Files, ph: Phases)
    requires IsEmission(was, now, ph)
    ensures ApplyAll(Metas(was), Emitted(was, now, ph)) == Metas(now)
      <==> forall e | e in ph.moves :: MetaOf(was[e.oldPath]) == MetaOf(now[e.path])
  {
    ReplayRecords(Metas(was), was, now, ph);
    MovesJoinGoneToBorn(was, now, ph.moves);
    forall e | e in ph.moves ensures Recorded(Metas(was), was, now, ph.moves)[e.path] == MetaOf(was[e.oldPath]) {
      MoveIsRecorded(was, now, ph, e);
    }
    RecordedIsNew(was, now, ph);
  }

  lemma MoveIsRecorded(was: Files, now: Files, ph: Phases, e: Event)
    requires IsEmission(was, now, ph) && e in ph.moves
    ensures e.path in now && e.oldPath in was && Recorded(Metas(was), was, now, ph.moves)[e.path] == MetaOf(was[e.oldPath])
  {
    assert IsMove(was, now, e) && e.path in PathsOf(ph.moves);
    EventAtUnique(ph.moves, e);
  }

  lemma RecordedIsNew(was: Files, now: Files, ph: Phases)
    requires IsEmission(was, now, ph)
    ensures Recorded(Metas(was), was, now, ph.moves) == Metas(now)
      <==> forall e | e in ph.moves :: e.path in now && Recorded(Metas(was), was, now, ph.moves)[e.path] == MetaOf(now[e.path])
  {
    var r := Recorded(Metas(was), was, now, ph.moves);
    forall e | e in ph.moves ensures e.path in now && e.path in PathsOf(ph.moves) {
      assert IsMove(was, now, e);
    }
    if forall e | e in ph.moves :: r[e.path] == MetaOf(now[e.path]) {
      forall p | p in now ensures r[p] == MetaOf(now[p]) {
        if p in PathsOf(ph.moves) {
          assert EventAt(ph.moves, p) in ph.moves;
        }
      }
    }
  }

  /** The paths of one file carry one metadata, as hard links do. */
  predicate LinksAgree(files: Files) {
    forall p, q | p in files && q in files && SameFile(files[p], files[q]) :: MetaOf(files[p]) == MetaOf(files[q])
  }

  /** Seen from the snapshots alone: the metadata comes out right if and only
      if no file changed that lost a path and gained another. */
  lemma MetasComeOutRight(was: Files, now: Files, ph: Phases)
    requires IsEmission(was, now, ph) && LinksAgree(was)
    ensures ApplyAll(Metas(was), Emitted(was, now, ph)) == Metas(now)
      <==> forall p, q | p in Gone(was, now) && q in Born(was, now) && SameFile(was[p], now[q]) ::
             MetaOf(was[p]) == MetaOf(now[q])
  {
    ReplayGivesNewMetas(was, now, ph);
    MovesJoinGoneToBorn(was, now, ph.moves);
    forall e | e in ph.moves ensures IsMove(was, now, e) && SameFile(was[e.oldPath], now[e.path]) {
      assert IsMove(was, now, e);
    }
    forall p, q | p in Gone(was, now) && q in Born(was, now) && SameFile(was[p], now[q])
      ensures exists e :: e in ph.moves && e.path == q && MetaOf(was[p]) == MetaOf(was[e.oldPath])
    {
      var e := EventAt(ph.moves, q);
      assert e in ph.moves && SameFile(was[p], was[e.oldPath]);
    }
  }

  // ---------------------------------------------------------------- cycles

  datatype Cycle = Cycle(now: Files, phases: Phases)

  function Last(was: Files, cycles: seq<Cycle>): Files {
    if cycles == [] then was else cycles[|cycles| - 1].now
  }

  /** Each cycle emits the difference to the snapshot before it. */
  ghost predicate Consecutive(was: Files, cycles: seq<Cycle>) {
    cycles == [] ||
    var n := |cycles| - 1;
    Consecutive(was, cycles[..n]) && IsEmission(Last(was, cycles[..n]), cycles[n].now, cycles[n].phases)
  }

  ghost function AllEvents(was: Files, cycles: seq<Cycle>): seq<Event>
    requires Consecutive(was, cycles)
  {
    if cycles == [] then []
    else
      var n := |cycles| - 1;
      AllEvents(was, cycles[..n]) + Emitted(Last(was, cycles[..n]), cycles[n].now, cycles[n].phases)
  }

  /** Over any number of cycles the events together carry the first paths into
      the last, whatever metadata the listener started from. */
  lemma {:induction false} CyclesTelescope(was: Files, cycles: seq<Cycle>, known: map<string, Meta>)
    requires Consecutive(was, cycles) && known.Keys == was.Keys
    ensures ApplyAll(known, AllEvents(was, cycles)).Keys == Last(was, cycles).Keys
  {
    if cycles != [] {
      var n := |cycles| - 1;
      var init, before := cycles[..n], AllEvents(was, cycles[..n]);
      CyclesTelescope(was, init, known);
      OneCycle(Last(was, init), cycles[n].now, cycles[n].phases, ApplyAll(known, before));
      ApplySum(known, before, Emitted(Last(was, init), cycles[n].now, cycles[n].phases));
    }
  }

  lemma OneCycle(was: Files, now: Files, ph: Phases, known: map<string, Meta>)
    requires IsEmission(was, now, ph) && known.Keys == was.Keys
    ensures ApplyAll(known, Emitted(was, now, ph)).Keys == now.Keys
  {
    ReplayRecords(known, was, now, ph);
  }

  // ------------------------------------------------------------ stale records

  /** The snapshot before the first cycle, or after the `i`th. */
  function Snapshot(was: Files, cycles: seq<Cycle>, i: nat): Files
    requires i <= |cycles|
  {
    if i == 0 then was else cycles[i - 1].now
  }

  /** The path is in all the snapshots. */
  ghost predicate Stays(was: Files, cycles: seq<Cycle>, p: string) {
    forall i | 0 <= i <= |cycles| :: p in Snapshot(was, cycles, i)
  }

  /** Some cycle sees the path's metadata change. */
  ghost predicate AlteredIn(was: Files, cycles: seq<Cycle>, p: string) {
    exists i | 0 <= i < |cycles| :: Altered(Snapshot(was, cycles, i), cycles[i].now, p)
  }

  lemma OneMoreSnapshot(was: Files, cycles: seq<Cycle>, p: string)
    requires cycles != []
    ensures var n := |cycles| - 1;
      && (Stays(was, cycles, p) <==> Stays(was, cycles[..n], p) && p in cycles[n].now)
      && (AlteredIn(was, cycles, p) <==> AlteredIn(was, cycles[..n], p) || Altered(Last(was, cycles[..n]), cycles[n].now, p))
  {
    var n := |cycles| - 1;
    var init := cycles[..n];
    assert forall i | 0 <= i <= n :: Snapshot(was, cycles, i) == Snapshot(was, init, i);
    assert Snapshot(was, cycles, |cycles|) == cycles[n].now;
    assert Snapshot(was, cycles, n) == Last(was, init);
  }

  /** Over any number of cycles the record of a path that stays is left alone
      until the path is altered, and is right from then on. */
  lemma {:induction false} RecordOverCycles(was: Files, cycles: seq<Cycle>, known: map<string, Meta>, p: string)
    requires Consecutive(was, cycles) && known.Keys == was.Keys && Stays(was, cycles, p)
    ensures var record := ApplyAll(known, AllEvents(was, cycles));
      && p in known && p in record && p in Last(was, cycles)
      && record[p] == if AlteredIn(was, cycles, p) then MetaOf(Last(was, cycles)[p]) else known[p]
    ensures !AlteredIn(was, cycles, p) ==> MetaOf(Last(was, cycles)[p]) == MetaOf(was[p])
  {
    assert p in Snapshot(was, cycles, 0);
    if cycles != [] {
      var n := |cycles| - 1;
      var init, before := cycles[..n], AllEvents(was, cycles[..n]);
      OneMoreSnapshot(was, cycles, p);
      RecordOverCycles(was, init, known, p);
      CyclesTelescope(was, init, known);
      RecordAfterCycle(ApplyAll(known, before), Last(was, init), cycles[n].now, cycles[n].phases, p);
      ApplySum(known, before, Emitted(Last(was, init), cycles[n].now, cycles[n].phases));
    }
  }

  lemma RecordAfterCycle(known: map<string, Meta>, was: Files, now: Files, ph: Phases, p: string)
    requires IsEmission(was, now, ph) && known.Keys == was.Keys && p in Common(was, now)
    ensures var record := ApplyAll(known, Emitted(was, now, ph));
      p in record && record[p] == if Altered(was, now, p) then MetaOf(now[p]) else known[p]
  {
    ReplayRecords(known, was, now, ph);
    MovesJoinGoneToBorn(was, now, ph.moves);
  }

  /** A wrong record, such as that of a file renamed and changed between two
      polls, is put right if and only if a later cycle sees the path altered. */
  lemma {:induction false} StaleUntilAltered(was: Files, cycles: seq<Cycle>, known: map<string, Meta>, p: string)
    requires Consecutive(was, cycles) && known.Keys == was.Keys && Stays(was, cycles, p)
    requires p in known && known[p] != MetaOf(was[p])
    ensures var record := ApplyAll(known, AllEvents(was, cycles));
      p in record && p in Last(was, cycles) && (record[p] == MetaOf(Last(was, cycles)[p]) <==> AlteredIn(was, cycles, p))
  {
    RecordOverCycles(was, cycles, known, p);
  }
}
