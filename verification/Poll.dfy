/**
 Comparing two snapshots of the watched files: what one poll emits, whatever
 order the maps are visited in.
 */
module Poll {
  import opened Paths

  /** `id` is the identity `os.SameFile` compares (device and inode). */
  datatype FileInfo = FileInfo(name: string, isDir: bool, modTime: int, mode: int, id: nat)

  type Files = map<string, FileInfo>

  datatype Op = Create | Write | Remove | Rename | Chmod | Move

  datatype Event = Event(op: Op, path: string, oldPath: string, info: FileInfo)

  function SameFile(a: FileInfo, b: FileInfo): bool {
    a.id == b.id
  }

  function Gone(was: Files, now: Files): set<string> {
    was.Keys - now.Keys
  }

  function Born(was: Files, now: Files): set<string> {
    now.Keys - was.Keys
  }

  function Common(was: Files, now: Files): set<string> {
    was.Keys * now.Keys
  }

  // -------------------------------------------------------- the four phases

  /** The events of a path that is in both snapshots. */
  function Changes(p: string, a: FileInfo, b: FileInfo): seq<Event> {
    (if a.modTime != b.modTime then [Event(Write, p, p, b)] else [])
    + (if a.mode != b.mode then [Event(Chmod, p, p, b)] else [])
  }

  function ChangesInOrder(was: Files, now: Files, order: seq<string>): seq<Event>
    requires forall p | p in order :: p in Common(was, now)
  {
    if order == [] then []
    else
      var p := order[|order| - 1];
      assert p in order && p in Common(was, now);
      ChangesInOrder(was, now, order[..|order| - 1]) + Changes(p, was[p], now[p])
  }

  /** A rename or move ties a created path to a removed path of the same file;
      it is a rename if and only if the directories agree. */
  predicate IsMove(was: Files, now: Files, e: Event) {
    && e.oldPath in Gone(was, now) && e.path in Born(was, now)
    && e.info == was[e.oldPath] && SameFile(e.info, now[e.path])
    && e.op == (if Dir(e.oldPath) == Dir(e.path) then Rename else Move)
  }

  function PathsOf(evts: seq<Event>): set<string> {
    set e | e in evts :: e.path
  }

  function OldPathsOf(evts: seq<Event>): set<string> {
    set e | e in evts :: e.oldPath
  }

  predicate DistinctPaths(evts: seq<Event>) {
    forall i, j | 0 <= i < j < |evts| :: evts[i].path != evts[j].path
  }

  /** Every created path of a file that also lost a path is moved to, once, and
      all moves of one file come from one of its removed paths. */
  predicate AreMoves(was: Files, now: Files, moves: seq<Event>) {
    && (forall e | e in moves :: IsMove(was, now, e))
    && DistinctPaths(moves)
    && (forall e, f | e in moves && f in moves && SameFile(e.info, f.info) :: e.oldPath == f.oldPath)
    && (forall p, q | p in Gone(was, now) && q in Born(was, now) && SameFile(was[p], now[q]) :: q in PathsOf(moves))
  }

  predicate AreCreates(now: Files, paths: set<string>, evts: seq<Event>) {
    && (forall e | e in evts :: e.path in paths && e.path in now && e == Event(Create, e.path, "", now[e.path]))
    && DistinctPaths(evts) && PathsOf(evts) == paths
  }

  predicate AreRemoves(was: Files, paths: set<string>, evts: seq<Event>) {
    && (forall e | e in evts :: e.path in paths && e.path in was && e == Event(Remove, e.path, e.path, was[e.path]))
    && DistinctPaths(evts) && PathsOf(evts) == paths
  }

  datatype Phases = Phases(order: seq<string>, moves: seq<Event>, creates: seq<Event>, removes: seq<Event>)

  /** The events of one poll that nobody cancelled. */
  predicate IsEmission(was: Files, now: Files, ph: Phases) {
    && multiset(ph.order) == multiset(Common(was, now))
    && AreMoves(was, now, ph.moves)
    && AreCreates(now, Born(was, now) - PathsOf(ph.moves), ph.creates)
    && AreRemoves(was, Gone(was, now) - OldPathsOf(ph.moves), ph.removes)
  }

  lemma OrderIsCommon(was: Files, now: Files, order: seq<string>)
    requires multiset(order) == multiset(Common(was, now))
    ensures forall p :: p in order <==> p in Common(was, now)
  {
    assert forall p :: p in order <==> p in multiset(order);
  }

  ghost function Emitted(was: Files, now: Files, ph: Phases): seq<Event>
    requires IsEmission(was, now, ph)
  {
    OrderIsCommon(was, now, ph.order);
    ChangesInOrder(was, now, ph.order) + ph.moves + ph.creates + ph.removes
  }

  // ------------------------------------------------------------- accounting

  function Count(evts: seq<Event>, ops: set<Op>, id: nat): nat {
    if evts == [] then 0
    else Count(evts[1..], ops, id) + if evts[0].op in ops && evts[0].info.id == id then 1 else 0
  }

  lemma {:induction false} CountSum(a: seq<Event>, b: seq<Event>, ops: set<Op>, id: nat)
    ensures Count(a + b, ops, id) == Count(a, ops, id) + Count(b, ops, id)
  {
    if a == [] {
      assert a + b == b;
    } else {
      assert (a + b)[1..] == a[1..] + b;
      CountSum(a[1..], b, ops, id);
    }
  }

  lemma {:induction false} CountNone(evts: seq<Event>, ops: set<Op>, id: nat)
    requires forall e | e in evts :: e.op !in ops
    ensures Count(evts, ops, id) == 0
  {
    if evts != [] {
      CountNone(evts[1..], ops, id);
    }
  }

  lemma RestPaths(evts: seq<Event>)
    requires evts != [] && DistinctPaths(evts)
    ensures DistinctPaths(evts[1..]) && forall f | f in evts[1..] :: f.path != evts[0].path
    ensures forall f :: f in evts <==> f == evts[0] || f in evts[1..]
  {
    assert evts == [evts[0]] + evts[1..];
  }

  /** Events with distinct paths are counted by their paths. */
  lemma {:induction false} CountPaths(evts: seq<Event>, ops: set<Op>, id: nat, paths: set<string>)
    requires DistinctPaths(evts)
    requires forall p :: p in paths <==> exists e :: e in evts && e.path == p && e.op in ops && e.info.id == id
    ensures Count(evts, ops, id) == |paths|
  {
    if evts == [] {
      assert paths == {};
    } else {
      var e, rest := evts[0], evts[1..];
      RestPaths(evts);
      CountPaths(rest, ops, id, paths - {e.path});
      if e.op in ops && e.info.id == id {
        assert |paths - {e.path}| == |paths| - 1;
      } else {
        assert e.path !in paths && paths - {e.path} == paths;
      }
    }
  }

  function GoneOf(was: Files, now: Files, id: nat): set<string> {
    set p | p in Gone(was, now) && was[p].id == id
  }

  function BornOf(was: Files, now: Files, id: nat): set<string> {
    set p | p in Born(was, now) && now[p].id == id
  }

  lemma {:induction false} ChangesAreChanges(was: Files, now: Files, order: seq<string>)
    requires forall p | p in order :: p in Common(was, now)
    ensures forall e | e in ChangesInOrder(was, now, order) ::
      (e.op == Write || e.op == Chmod) && e.path in Common(was, now) && e.info == now[e.path]
  {
    if order != [] {
      ChangesAreChanges(was, now, order[..|order| - 1]);
    }
  }

  lemma CountFour(w: seq<Event>, m: seq<Event>, c: seq<Event>, r: seq<Event>, ops: set<Op>, id: nat)
    ensures Count(w + m + c + r, ops, id) == Count(w, ops, id) + Count(m, ops, id) + Count(c, ops, id) + Count(r, ops, id)
  {
    CountSum(w, m, ops, id);
    CountSum(w + m, c, ops, id);
    CountSum(w + m + c, r, ops, id);
  }

  /** Each phase has operations of its own. */
  lemma PhaseOps(was: Files, now: Files, ph: Phases)
    requires IsEmission(was, now, ph)
    ensures forall p | p in ph.order :: p in Common(was, now)
    ensures forall e | e in ChangesInOrder(was, now, ph.order) :: e.op == Write || e.op == Chmod
    ensures forall e | e in ph.moves :: e.op == Rename || e.op == Move
    ensures forall e | e in ph.creates :: e.op == Create
    ensures forall e | e in ph.removes :: e.op == Remove
  {
    OrderIsCommon(was, now, ph.order);
    ChangesAreChanges(was, now, ph.order);
    forall e | e in ph.moves ensures e.op == Rename || e.op == Move {
      assert IsMove(was, now, e);
    }
  }

  lemma CountByPhase(w: seq<Event>, m: seq<Event>, c: seq<Event>, r: seq<Event>, id: nat)
    requires forall e | e in w :: e.op == Write || e.op == Chmod
    requires forall e | e in m :: e.op == Rename || e.op == Move
    requires forall e | e in c :: e.op == Create
    requires forall e | e in r :: e.op == Remove
    ensures Count(w + m + c + r, {Rename, Move}, id) == Count(m, {Rename, Move}, id)
    ensures Count(w + m + c + r, {Create}, id) == Count(c, {Create}, id)
    ensures Count(w + m + c + r, {Remove}, id) == Count(r, {Remove}, id)
  {
    CountFour(w, m, c, r, {Rename, Move}, id);
    CountNone(w, {Rename, Move}, id);
    CountNone(c, {Rename, Move}, id);
    CountNone(r, {Rename, Move}, id);
    CountFour(w, m, c, r, {Create}, id);
    CountNone(w, {Create}, id);
    CountNone(m, {Create}, id);
    CountNone(r, {Create}, id);
    CountFour(w, m, c, r, {Remove}, id);
    CountNone(w, {Remove}, id);
    CountNone(m, {Remove}, id);
    CountNone(c, {Remove}, id);
  }

  lemma EmittedCount(was: Files, now: Files, ph: Phases, id: nat)
    requires IsEmission(was, now, ph)
    ensures Count(Emitted(was, now, ph), {Rename, Move}, id) == Count(ph.moves, {Rename, Move}, id)
    ensures Count(Emitted(was, now, ph), {Create}, id) == Count(ph.creates, {Create}, id)
    ensures Count(Emitted(was, now, ph), {Remove}, id) == Count(ph.removes, {Remove}, id)
  {
    PhaseOps(was, now, ph);
    CountByPhase(ChangesInOrder(was, now, ph.order), ph.moves, ph.creates, ph.removes, id);
  }

  lemma MovesCounted(was: Files, now: Files, moves: seq<Event>, id: nat)
    requires AreMoves(was, now, moves)
    ensures Count(moves, {Rename, Move}, id) == if GoneOf(was, now, id) != {} then |BornOf(was, now, id)| else 0
  {
    var paths := if GoneOf(was, now, id) != {} then BornOf(was, now, id) else {};
    forall p ensures p in paths <==>
      exists e :: e in moves && e.path == p && e.op in {Rename, Move} && e.info.id == id
    {
      if p in paths {
        var q :| q in GoneOf(was, now, id);
        assert SameFile(was[q], now[p]) && p in PathsOf(moves);
        var e :| e in moves && e.path == p;
        assert IsMove(was, now, e);
      }
      if e :| e in moves && e.path == p && e.info.id == id {
        assert IsMove(was, now, e) && e.oldPath in GoneOf(was, now, id);
      }
    }
    CountPaths(moves, {Rename, Move}, id, paths);
  }

  /** A created path of a file is moved to if and only if the file lost a path. */
  lemma MovedIffGone(was: Files, now: Files, moves: seq<Event>, p: string)
    requires AreMoves(was, now, moves) && p in Born(was, now)
    ensures p in PathsOf(moves) <==> GoneOf(was, now, now[p].id) != {}
  {
    if p in PathsOf(moves) {
      var e :| e in moves && e.path == p;
      assert IsMove(was, now, e) && e.oldPath in GoneOf(was, now, now[p].id);
    }
    if q :| q in GoneOf(was, now, now[p].id) {
      assert SameFile(was[q], now[p]);
    }
  }

  lemma CreatesCounted(was: Files, now: Files, ph: Phases, id: nat)
    requires IsEmission(was, now, ph)
    ensures Count(ph.creates, {Create}, id) == if GoneOf(was, now, id) != {} then 0 else |BornOf(was, now, id)|
  {
    var paths := if GoneOf(was, now, id) != {} then {} else BornOf(was, now, id);
    forall p ensures p in paths <==>
      exists e :: e in ph.creates && e.path == p && e.op in {Create} && e.info.id == id
    {
      if p in Born(was, now) { MovedIffGone(was, now, ph.moves, p); }
      if p in paths {
        assert p in PathsOf(ph.creates);
        var e :| e in ph.creates && e.path == p;
      }
    }
    CountPaths(ph.creates, {Create}, id, paths);
  }

  /** The moves of one file come from one of its removed paths, if it has both
      removed and created paths, and from none otherwise. */
  lemma SourcesOf(was: Files, now: Files, moves: seq<Event>, id: nat)
    requires AreMoves(was, now, moves)
    ensures var left := GoneOf(was, now, id) - OldPathsOf(moves);
      |left| == if BornOf(was, now, id) == {} || GoneOf(was, now, id) == {} then |GoneOf(was, now, id)|
                else |GoneOf(was, now, id)| - 1
  {
    var gone, born := GoneOf(was, now, id), BornOf(was, now, id);
    if gone != {} && born != {} {
      var source := OneSource(was, now, moves, id);
      assert gone - OldPathsOf(moves) == gone - {source};
    } else {
      NoSource(was, now, moves, id);
    }
  }

  lemma OneSource(was: Files, now: Files, moves: seq<Event>, id: nat) returns (source: string)
    requires AreMoves(was, now, moves) && BornOf(was, now, id) != {} && GoneOf(was, now, id) != {}
    ensures source in GoneOf(was, now, id)
    ensures forall p | p in GoneOf(was, now, id) :: p in OldPathsOf(moves) <==> p == source
  {
    var q :| q in BornOf(was, now, id);
    MovedIffGone(was, now, moves, q);
    var e :| e in moves && e.path == q;
    assert IsMove(was, now, e);
    source := e.oldPath;
    forall p | p in GoneOf(was, now, id) ensures p in OldPathsOf(moves) <==> p == source {
      if p in OldPathsOf(moves) {
        var f :| f in moves && f.oldPath == p;
        assert IsMove(was, now, f) && SameFile(e.info, f.info);
      }
    }
  }

  lemma NoSource(was: Files, now: Files, moves: seq<Event>, id: nat)
    requires AreMoves(was, now, moves) && (BornOf(was, now, id) == {} || GoneOf(was, now, id) == {})
    ensures GoneOf(was, now, id) - OldPathsOf(moves) == GoneOf(was, now, id)
  {
    forall e | e in moves ensures e.oldPath !in GoneOf(was, now, id) {
      assert IsMove(was, now, e);
      assert e.path in BornOf(was, now, e.info.id);
    }
  }

  lemma RemovesCounted(was: Files, now: Files, ph: Phases, id: nat)
    requires IsEmission(was, now, ph)
    ensures Count(ph.removes, {Remove}, id) == |GoneOf(was, now, id) - OldPathsOf(ph.moves)|
  {
    var paths := GoneOf(was, now, id) - OldPathsOf(ph.moves);
    forall p ensures p in paths <==>
      exists e :: e in ph.removes && e.path == p && e.op in {Remove} && e.info.id == id
    {
      if p in paths {
        assert p in PathsOf(ph.removes);
        var e :| e in ph.removes && e.path == p;
      }
    }
    CountPaths(ph.removes, {Remove}, id, paths);
  }

  /** Exact accounting for one file, in every visiting order and with any
      number of hard links: if it lost a path, every created path is a rename or
      move and all lost paths but one are removals; otherwise every created path
      is a creation. */
  lemma EventAccounting(was: Files, now: Files, ph: Phases, id: nat)
    requires IsEmission(was, now, ph)
    ensures var gone, born, evts := |GoneOf(was, now, id)|, |BornOf(was, now, id)|, Emitted(was, now, ph);
      && Count(evts, {Rename, Move}, id) == (if gone > 0 then born else 0)
      && Count(evts, {Create}, id) == (if gone > 0 then 0 else born)
      && Count(evts, {Remove}, id) == (if born == 0 || gone == 0 then gone else gone - 1)
  {
    var gone, born := GoneOf(was, now, id), BornOf(was, now, id);
    assert (|born| == 0 <==> born == {}) && (|gone| == 0 <==> gone == {});
    EmittedCount(was, now, ph, id);
    MovesCounted(was, now, ph.moves, id);
    CreatesCounted(was, now, ph, id);
    RemovesCounted(was, now, ph, id);
    SourcesOf(was, now, ph.moves, id);
  }
}
