/**
 The polling watcher: what it has been told to watch and to ignore, the
 snapshot it compares against, and its cycle.
 */
module Watching {
  import opened Paths
  import opened Poll
  import opened FileTree
  import opened Matching
  import opened Replay

  /** What the file system shows at a watched name; names are absolute, clean
      paths. */
  type FileSystem = map<string, Node>

  // ---------------------------------------------------- filtering and the cap

  function Filtered(evts: seq<Event>, ops: set<Op>): seq<Event> {
    if evts == [] then []
    else
      var rest, last := Filtered(evts[..|evts| - 1], ops), evts[|evts| - 1];
      if ops == {} || last.op in ops then rest + [last] else rest
  }

  function Capped(evts: seq<Event>, maxEvents: int): (r: seq<Event>)
    ensures r <= evts
    ensures |r| == if maxEvents <= 0 || |evts| <= maxEvents then |evts| else maxEvents
  {
    if 0 < maxEvents < |evts| then evts[..maxEvents] else evts
  }

  lemma {:induction false} FilteredSum(a: seq<Event>, b: seq<Event>, ops: set<Op>)
    ensures Filtered(a + b, ops) == Filtered(a, ops) + Filtered(b, ops)
  {
    if b == [] {
      assert a + b == a;
    } else {
      assert (a + b)[..|a + b| - 1] == a + b[..|b| - 1];
      FilteredSum(a, b[..|b| - 1], ops);
    }
  }

  lemma {:induction false} FilteredFrom(evts: seq<Event>, ops: set<Op>)
    ensures forall e :: e in Filtered(evts, ops) <==> e in evts && (ops == {} || e.op in ops)
  {
    if evts != [] {
      var n := |evts| - 1;
      FilteredFrom(evts[..n], ops);
      assert evts == evts[..n] + [evts[n]];
    }
  }

  // --------------------------------------------------------------- snapshots

  /** What one watched name lists. */
  function Listing(r: Rules, fs: FileSystem, name: string, recursive: bool): Files
    requires name in fs
  {
    if recursive then Walk(r, name, fs[name]) else Flat(r, name, fs[name])
  }

  /** `files` is the union of what the names list; where listings overlap it has
      the information of one of them. */
  ghost predicate Retrieved(r: Rules, fs: FileSystem, names: map<string, bool>, some: set<string>, files: Files)
    requires some <= names.Keys && some <= fs.Keys
  {
    && (forall n, p | n in some && p in Listing(r, fs, n, names[n]) :: p in files)
    && (forall p | p in files ::
      exists n :: n in some && p in Listing(r, fs, n, names[n]) && files[p] == Listing(r, fs, n, names[n])[p])
  }

  lemma OneMoreName(r: Rules, fs: FileSystem, names: map<string, bool>, some: set<string>, files: Files, n: string)
    requires some <= names.Keys && some <= fs.Keys && n in names && n in fs
    requires Retrieved(r, fs, names, some, files)
    ensures Retrieved(r, fs, names, some + {n}, files + Listing(r, fs, n, names[n]))
  {
    var all := files + Listing(r, fs, n, names[n]);
    forall p | p in all
      ensures exists m :: m in some + {n} && p in Listing(r, fs, m, names[m]) && all[p] == Listing(r, fs, m, names[m])[p]
    {
      if p !in Listing(r, fs, n, names[n]) {
        var m :| m in some && p in Listing(r, fs, m, names[m]) && files[p] == Listing(r, fs, m, names[m])[p];
        assert m in some + {n};
      }
    }
  }

  /** A snapshot has no ignored path, even where an ignored directory is watched
      recursively. */
  lemma RetrievedIsNotIgnored(r: Rules, fs: FileSystem, names: map<string, bool>, some: set<string>, files: Files)
    requires some <= names.Keys && some <= fs.Keys && Retrieved(r, fs, names, some, files)
    requires forall n | n in names && !names[n] :: n !in r.ignored
    ensures forall p | p in files :: p !in r.ignored
  {
    forall p | p in files ensures p !in r.ignored {
      var n :| n in some && p in Listing(r, fs, n, names[n]);
      if names[n] { WalkNeverBlocked(r, n, fs[n]); } else { FlatBlocksOnlyName(r, n, fs[n]); }
    }
  }

  /** What a snapshot has, read off the trees: of a name watched recursively every
      file that passes the rules and is below no accepted directory that is
      blocked, of any other the file itself and the entries that pass. */
  ghost predicate ShownBy(r: Rules, root: string, node: Node, recursive: bool, path: string) {
    if recursive then
      exists e :: e in Entries(root, node, []) && e.path == path && Passes(r, path, e.info)
        && forall i | 0 <= i < |e.above| :: !(Accepted(r, e.above[i].1, e.above[i].0) && Blocked(r, e.above[i].0))
    else
      path == root || (node.info.isDir
        && exists n | n in node.children :: path == Join(root, n.info.name) && Passes(r, path, n.info))
  }

  lemma RetrievedShowsExactly(r: Rules, fs: FileSystem, names: map<string, bool>, some: set<string>, files: Files, path: string)
    requires some <= names.Keys && some <= fs.Keys && Retrieved(r, fs, names, some, files)
    ensures path in files <==> exists n | n in some :: ShownBy(r, n, fs[n], names[n], path)
  {
    forall n | n in some ensures path in Listing(r, fs, n, names[n]) <==> ShownBy(r, n, fs[n], names[n], path) {
      if names[n] { WalkListsExactly(r, n, fs[n], path); } else { FlatShowsExactly(r, n, fs[n], path); }
    }
    if path in files {
      var n :| n in some && path in Listing(r, fs, n, names[n]);
      assert ShownBy(r, n, fs[n], names[n], path);
    }
  }

  /** Every watched name is clean and shows a file of that name, with well
      named files below. */
  ghost predicate WellNamedSystem(fs: FileSystem) {
    forall n | n in fs :: IsClean(n) && fs[n].info.name == Base(n) && WellNamed(fs[n])
  }

  /** Every path of a snapshot carries the information of a file of that name. */
  lemma RetrievedIsNamed(r: Rules, fs: FileSystem, names: map<string, bool>, some: set<string>, files: Files)
    requires some <= names.Keys && some <= fs.Keys && Retrieved(r, fs, names, some, files)
    requires WellNamedSystem(fs)
    ensures Named(files)
  {
    forall p | p in files ensures files[p].name == Base(p) {
      var n :| n in some && p in Listing(r, fs, n, names[n]) && files[p] == Listing(r, fs, n, names[n])[p];
      if names[n] { WalkIsNamed(r, n, fs[n]); } else { FlatIsNamed(r, n, fs[n]); }
    }
  }

  // ----------------------------------------------------------------- cycles

  /** What is delivered over the cycles. */
  ghost function DeliveredOver(was: Files, cycles: seq<Cycle>, ops: set<Op>, maxEvents: int): seq<Event>
    requires Consecutive(was, cycles)
  {
    if cycles == [] then []
    else
      var n := |cycles| - 1;
      DeliveredOver(was, cycles[..n], ops, maxEvents)
      + Capped(Filtered(Emitted(Last(was, cycles[..n]), cycles[n].now, cycles[n].phases), ops), maxEvents)
  }

  lemma OneMoreCycle(was: Files, cycles: seq<Cycle>, c: Cycle, ops: set<Op>, maxEvents: int)
    requires Consecutive(was, cycles) && IsEmission(Last(was, cycles), c.now, c.phases)
    ensures Consecutive(was, cycles + [c]) && Last(was, cycles + [c]) == c.now
    ensures DeliveredOver(was, cycles + [c], ops, maxEvents) == DeliveredOver(was, cycles, ops, maxEvents)
      + Capped(Filtered(Emitted(Last(was, cycles), c.now, c.phases), ops), maxEvents)
  {
    assert (cycles + [c])[..|cycles|] == cycles;
  }

  /** The cycles so far, and what was delivered in them. */
  ghost predicate Followed(was: Files, now: Files, cycles: seq<Cycle>, delivered: seq<Event>, ops: set<Op>, maxEvents: int) {
    Consecutive(was, cycles) && now == Last(was, cycles) && delivered == DeliveredOver(was, cycles, ops, maxEvents)
  }

  lemma OneMoreFollowed(was: Files, cycles: seq<Cycle>, delivered: seq<Event>, c: Cycle, ops: set<Op>, maxEvents: int)
    requires Followed(was, Last(was, cycles), cycles, delivered, ops, maxEvents)
    requires IsEmission(Last(was, cycles), c.now, c.phases)
    ensures Followed(was, c.now, cycles + [c],
      delivered + Capped(Filtered(Emitted(Last(was, cycles), c.now, c.phases), ops), maxEvents), ops, maxEvents)
  {
    OneMoreCycle(was, cycles, c, ops, maxEvents);
  }

  /** Each cycle's snapshot is what its poll shows of the watched names. */
  ghost predicate Polled(r: Rules, names: map<string, bool>, polls: seq<FileSystem>, cycles: seq<Cycle>) {
    && |cycles| <= |polls|
    && forall i | 0 <= i < |cycles| :: ShowsIn(r, names, polls[i], cycles[i].now)
  }

  ghost predicate ShowsIn(r: Rules, names: map<string, bool>, fs: FileSystem, files: Files) {
    names.Keys <= fs.Keys && Retrieved(r, fs, names, names.Keys, files)
  }

  lemma OneMorePolled(r: Rules, names: map<string, bool>, polls: seq<FileSystem>, cycles: seq<Cycle>, c: Cycle)
    requires Polled(r, names, polls, cycles) && |cycles| < |polls| && ShowsIn(r, names, polls[|cycles|], c.now)
    ensures Polled(r, names, polls, cycles + [c])
  {
  }

  lemma {:induction false} FilteredByNone(evts: seq<Event>)
    ensures Filtered(evts, {}) == evts
  {
    if evts != [] {
      FilteredByNone(evts[..|evts| - 1]);
      assert evts == evts[..|evts| - 1] + [evts[|evts| - 1]];
    }
  }

  /** Without a filter and a cap everything emitted is delivered. */
  lemma {:induction false} AllDelivered(was: Files, cycles: seq<Cycle>, maxEvents: int)
    requires Consecutive(was, cycles) && maxEvents <= 0
    ensures DeliveredOver(was, cycles, {}, maxEvents) == AllEvents(was, cycles)
  {
    if cycles != [] {
      var n := |cycles| - 1;
      AllDelivered(was, cycles[..n], maxEvents);
      FilteredByNone(Emitted(Last(was, cycles[..n]), cycles[n].now, cycles[n].phases));
    }
  }

  /** A listener that replays what an unfiltered, uncapped watcher delivers
      always ends with the paths of the last snapshot. */
  lemma DeliveredEventsTelescope(was: Files, cycles: seq<Cycle>, maxEvents: int)
    requires Consecutive(was, cycles) && maxEvents <= 0
    ensures ApplyAll(Metas(was), DeliveredOver(was, cycles, {}, maxEvents)).Keys == Last(was, cycles).Keys
  {
    AllDelivered(was, cycles, maxEvents);
    CyclesTelescope(was, cycles, Metas(was));
  }

  // ------------------------------------------------------------ removed paths

  /** What `Remove` leaves: without the path, and for a directory without the
      files directly in it. */
  function WithoutFlat(files: Files, name: string): Files {
    if name !in files then files
    else if !files[name].isDir then files - {name}
    else map p | p in files && p != name && Dir(p) != name :: files[p]
  }

  /** Of a directory the entries go that are directly in it, whatever their
      names; paths further down, and everything elsewhere, stay as they are. */
  lemma RemoveTakesDirectEntries(files: Files, name: string, dir: string, entry: string)
    requires name in files && files[name].isDir
    requires IsClean(dir) && IsEntryName(entry) && Join(dir, entry) in files
    ensures var p, left := Join(dir, entry), WithoutFlat(files, name);
      && name !in left && (p in left <==> dir != name && p != name) && (p in left ==> left[p] == files[p])
  {
    JoinRoundTrip(dir, entry);
  }

  /** What `RemoveRecursive` leaves: for a directory, without every path that
      has the name as a string prefix. */
  function WithoutTree(files: Files, name: string): Files {
    if name !in files then files
    else if !files[name].isDir then files - {name}
    else map p | p in files && !(name <= p) :: files[p]
  }

  function WithoutTrees(files: Files, names: seq<string>): Files {
    if names == [] then files else WithoutTree(WithoutTrees(files, names[..|names| - 1]), names[|names| - 1])
  }

  /** A string prefix is not a path prefix: removing a watched directory takes
      away exactly what lies under it if and only if no watched path continues
      its name without a slash. */
  lemma TreeRemovalIsByPrefix(files: Files, name: string)
    requires name in files && files[name].isDir && name != "/"
    ensures WithoutTree(files, name) == (map p | p in files && !Under(name, p) :: files[p])
      <==> forall p | p in files && name < p :: p[|name|] == '/'
  {
    var left, wanted := WithoutTree(files, name), map p | p in files && !Under(name, p) :: files[p];
    assert Join(name, "") == name + "/";
    forall p | p in files && name < p ensures Under(name, p) <==> p[|name|] == '/' {
      assert |p| > |name|;
    }
    forall p | p in files && name < p && p[|name|] != '/' ensures p in wanted && p !in left {
    }
    if forall p | p in files && name < p :: p[|name|] == '/' {
      forall p | p in files ensures name <= p <==> Under(name, p) {
        assert name <= p ==> p == name || name < p;
      }
      assert left == wanted;
    }
  }

  /** Removing `/a/b` also drops `/a/bc`. */
  lemma TreeRemovalTakesSibling(files: Files)
    requires "/a/b" in files && files["/a/b"].isDir && "/a/bc" in files
    ensures "/a/bc" !in WithoutTree(files, "/a/b") && !Under("/a/b", "/a/bc")
  {
    assert Join("/a/b", "")[4] == '/' && "/a/bc"[4] == 'c';
  }

  /** Ignoring several paths, in any order, takes away each that is watched and,
      of those that are directories, every path with the name as a prefix. */
  lemma {:induction false} TreesRemovedExactly(files: Files, names: seq<string>)
    ensures forall p :: p in WithoutTrees(files, names) <==>
      p in files && forall n | n in names && n in files :: p != n && !(files[n].isDir && n <= p)
    ensures forall p | p in WithoutTrees(files, names) :: WithoutTrees(files, names)[p] == files[p]
  {
    if names != [] {
      var k := |names| - 1;
      var init, last := names[..k], names[k];
      TreesRemovedExactly(files, init);
      var left := WithoutTrees(files, init);
      assert forall n :: n in names <==> n in init || n == last;
      if last in files && last !in left {
        var n :| n in init && n in files && (last == n || (files[n].isDir && n <= last));
        forall p | p in left ensures p != last && !(files[last].isDir && last <= p) {
        }
      }
    }
  }

  lemma FlatOneMore(r: Rules, dir: string, nodes: seq<Node>, i: nat, first: Files)
    requires i < |nodes|
    ensures var path := Join(dir, nodes[i].info.name);
      var was := first + FlatEntries(r, dir, nodes[..i]);
      first + FlatEntries(r, dir, nodes[..i + 1])
      == if !Blocked(r, path) && Accepted(r, nodes[i].info, path) then was[path := nodes[i].info] else was
  {
    assert nodes[..i + 1][..i] == nodes[..i];
  }

  // ---------------------------------------------------------------- the class

  class Watcher {
    var names: map<string, bool>
    var files: Files
    var ignored: set<string>
    var ops: set<Op>
    var ignoreHidden: bool
    var maxEvents: int
    var ffh: seq<Hook>

    /** No ignored path is watched, and no name watched by itself is ignored. */
    predicate Valid()
      reads this
    {
      (forall p | p in files :: p !in ignored) && (forall n | n in names && !names[n] :: n !in ignored)
    }

    function RulesNow(): Rules
      reads this
    {
      Rules(ffh, ignored, ignoreHidden)
    }

    constructor ()
      ensures Valid() && names == map[] && files == map[] && ignored == {} && ops == {}
      ensures !ignoreHidden && maxEvents == 0 && ffh == []
    {
      names, files, ignored, ops, ignoreHidden, maxEvents, ffh := map[], map[], {}, {}, false, 0, [];
    }

    method SetMaxEvents(delta: int)
      requires Valid()
      modifies this`maxEvents
      ensures Valid() && maxEvents == delta
    {
      maxEvents := delta;
    }

    method AddFilterHook(f: Hook)
      requires Valid()
      modifies this`ffh
      ensures Valid() && ffh == old(ffh) + [f]
    {
      ffh := ffh + [f];
    }

    method IgnoreHiddenFiles(ignore: bool)
      requires Valid()
      modifies this`ignoreHidden
      ensures Valid() && ignoreHidden == ignore
    {
      ignoreHidden := ignore;
    }

    method FilterOps(list: seq<Op>)
      requires Valid()
      modifies this`ops
      ensures Valid() && forall op :: op in ops <==> op in list
    {
      ops := {};
      for i := 0 to |list|
        invariant forall op :: op in ops <==> op in list[..i]
      {
        ops := ops + {list[i]};
      }
    }

    /** The hooks in order, up to the first that asks to skip. */
    method RunHooks(info: FileInfo, path: string) returns (accepted: bool)
      ensures accepted == Accepted(RulesNow(), info, path)
    {
      for i := 0 to |ffh|
        invariant forall j | 0 <= j < i :: ffh[j](info, path)
      {
        if !ffh[i](info, path) {
          assert !RulesNow().hooks[i](info, path);
          return false;
        }
      }
      return true;
    }

    method List(name: string, node: Node) returns (fileList: Files)
      ensures fileList == Flat(RulesNow(), name, node)
    {
      fileList := map[name := node.info];
      if !node.info.isDir {
        return;
      }
      for i := 0 to |node.children|
        invariant fileList == map[name := node.info] + FlatEntries(RulesNow(), name, node.children[..i])
      {
        var info := node.children[i].info;
        var path := Join(name, info.name);
        FlatOneMore(RulesNow(), name, node.children, i, map[name := node.info]);
        if path !in ignored && !(ignoreHidden && IsHiddenFile(path)) {
          var accepted := RunHooks(info, path);
          if accepted {
            fileList := fileList[path := info];
          }
        }
      }
      assert node.children[..|node.children|] == node.children;
    }

    /** The callback of the walk at one file, and the walk below it. */
    method Visit(path: string, node: Node, before: Files) returns (fileList: Files)
      ensures fileList == before + Walk(RulesNow(), path, node)
      decreases node, 1
    {
      fileList := before;
      var accepted := RunHooks(node.info, path);
      if accepted {
        if path in ignored || (ignoreHidden && IsHiddenFile(path)) {
          return;
        }
        fileList := fileList[path := node.info];
      }
      if node.info.isDir {
        fileList := VisitAll(path, node.children, fileList);
      }
    }

    method VisitAll(dir: string, nodes: seq<Node>, before: Files) returns (fileList: Files)
      ensures fileList == before + WalkAll(RulesNow(), dir, nodes)
      decreases nodes, 0
    {
      fileList := before;
      if nodes != [] {
        fileList := Visit(Join(dir, nodes[0].info.name), nodes[0], fileList);
        fileList := VisitAll(dir, nodes[1..], fileList);
      }
    }

    /** Watch one file or directory; an ignored or hidden one is passed over,
        and one that is not there is an error. */
    method Add(fs: FileSystem, name: string) returns (ok: bool)
      requires Valid()
      modifies this`files, this`names
      ensures Valid() && ok == (Blocked(RulesNow(), name) || name in fs)
      ensures if Blocked(RulesNow(), name) || !ok then files == old(files) && names == old(names)
        else files == old(files) + Flat(RulesNow(), name, fs[name]) && names == old(names)[name := false]
    {
      if Blocked(RulesNow(), name) {
        return true;
      }
      if name !in fs {
        return false;
      }
      var fileList := List(name, fs[name]);
      FlatBlocksOnlyName(RulesNow(), name, fs[name]);
      files := files + fileList;
      names := names[name := false];
      ok := true;
    }

    method AddRecursive(fs: FileSystem, name: string) returns (ok: bool)
      requires Valid()
      modifies this`files, this`names
      ensures Valid() && ok == (name in fs)
      ensures if !ok then files == old(files) && names == old(names)
        else files == old(files) + Walk(RulesNow(), name, fs[name]) && names == old(names)[name := true]
    {
      if name !in fs {
        return false;
      }
      var fileList := Visit(name, fs[name], map[]);
      assert map[] + Walk(RulesNow(), name, fs[name]) == Walk(RulesNow(), name, fs[name]);
      WalkNeverBlocked(RulesNow(), name, fs[name]);
      files := files + fileList;
      names := names[name := true];
      ok := true;
    }

    method Remove(name: string)
      requires Valid()
      modifies this`files, this`names
      ensures Valid() && names == old(names) - {name} && files == WithoutFlat(old(files), name)
    {
      names := names - {name};
      if name !in files {
        return;
      }
      var isDir := files[name].isDir;
      files := files - {name};
      if isDir {
        files := map p | p in files && Dir(p) != name :: files[p];
      }
    }

    method RemoveRecursive(name: string)
      requires Valid()
      modifies this`files, this`names
      ensures Valid() && names == old(names) - {name} && files == WithoutTree(old(files), name)
    {
      names := names - {name};
      if name !in files {
        return;
      }
      if !files[name].isDir {
        files := files - {name};
        return;
      }
      files := map p | p in files && !(name <= p) :: files[p];
    }

    /** Ignoring a path stops watching it first, so nothing ignored is ever left
        in the snapshot or among the names watched by themselves. */
    method Ignore(paths: seq<string>)
      requires Valid()
      modifies this`files, this`names, this`ignored
      ensures Valid() && files == WithoutTrees(old(files), paths)
      ensures ignored == old(ignored) + (set p | p in paths) && names == old(names) - (set p | p in paths)
    {
      for i := 0 to |paths|
        invariant Valid() && files == WithoutTrees(old(files), paths[..i])
        invariant ignored == old(ignored) + (set p | p in paths[..i])
        invariant names == old(names) - (set p | p in paths[..i])
      {
        RemoveRecursive(paths[i]);
        ignored := ignored + {paths[i]};
        assert paths[..i + 1][..i] == paths[..i];
      }
      assert paths[..|paths|] == paths;
    }

    /** The snapshot of all watched names, visited in any order; a name that is
        not there ends the watch. */
    method RetrieveFileList(fs: FileSystem) returns (ok: bool, fileList: Files)
      requires Valid()
      ensures ok == (names.Keys <= fs.Keys)
      ensures ok ==> Retrieved(RulesNow(), fs, names, names.Keys, fileList)
      ensures ok ==> forall p | p in fileList :: p !in ignored
    {
      fileList := map[];
      var todo := names.Keys;
      ghost var done: set<string> := {};
      while todo != {}
        invariant done + todo == names.Keys && done !! todo && done <= fs.Keys
        invariant Retrieved(RulesNow(), fs, names, done, fileList)
        decreases |todo|
      {
        var name :| name in todo;
        if name !in fs {
          return false, map[];
        }
        OneMoreName(RulesNow(), fs, names, done, fileList, name);
        if names[name] {
          fileList := Visit(name, fs[name], fileList);
        } else {
          var list := List(name, fs[name]);
          fileList := fileList + list;
        }
        todo := todo - {name};
        done := done + {name};
      }
      assert done == names.Keys;
      RetrievedIsNotIgnored(RulesNow(), fs, names, done, fileList);
      ok := true;
    }

    /** The inner loop of a cycle: drop what is filtered out, stop at the cap. */
    method Deliver(evts: seq<Event>) returns (delivered: seq<Event>)
      ensures delivered == Capped(Filtered(evts, ops), maxEvents)
    {
      delivered := [];
      var numEvents := 0;
      for i := 0 to |evts|
        invariant numEvents == |delivered| && delivered == Filtered(evts[..i], ops)
        invariant maxEvents > 0 ==> numEvents <= maxEvents
      {
        assert evts[..i + 1] == evts[..i] + [evts[i]];
        FilteredPrefix(evts, i + 1, ops);
        if ops != {} && evts[i].op !in ops {
          continue;
        }
        numEvents := numEvents + 1;
        if maxEvents > 0 && numEvents > maxEvents {
          return;
        }
        delivered := delivered + [evts[i]];
      }
      assert evts[..|evts|] == evts;
    }

    /** One cycle: compare, deliver, and move the baseline on, even past events
        the cap cut off. */
    method PollCycle(fs: FileSystem) returns (ok: bool, delivered: seq<Event>, phases: Phases)
      requires Valid()
      modifies this`files
      ensures Valid() && ok == (names.Keys <= fs.Keys)
      ensures !ok ==> files == old(files) && delivered == []
      ensures ok ==> Retrieved(RulesNow(), fs, names, names.Keys, files)
      ensures ok ==> IsEmission(old(files), files, phases)
      ensures ok ==> delivered == Capped(Filtered(Emitted(old(files), files, phases), ops), maxEvents)
      ensures forall e | e in delivered :: e.path !in ignored && (e.op != Create ==> e.oldPath !in ignored)
    {
      var fileList;
      delivered, phases := [], Phases([], [], [], []);
      ok, fileList := RetrieveFileList(fs);
      if !ok {
        return;
      }
      var evts;
      evts, phases := PollOnce(files, fileList);
      delivered := Deliver(evts);
      DeliveredIsEmitted(evts, ops, maxEvents);
      EmittedPaths(files, fileList, phases);
      files := fileList;
    }

    /** Cycle after cycle, up to the first poll that misses a watched name. */
    method Start(polls: seq<FileSystem>) returns (delivered: seq<Event>, cycles: seq<Cycle>)
      requires Valid()
      modifies this`files
      ensures Valid() && Consecutive(old(files), cycles) && files == Last(old(files), cycles)
      ensures Polled(RulesNow(), names, polls, cycles)
      ensures |cycles| < |polls| ==> !(names.Keys <= polls[|cycles|].Keys)
      ensures delivered == DeliveredOver(old(files), cycles, ops, maxEvents)
      ensures ops == {} && maxEvents <= 0 ==> ApplyAll(Metas(old(files)), delivered).Keys == files.Keys
    {
      delivered, cycles := [], [];
      ghost var r := RulesNow();
      for i := 0 to |polls|
        invariant Valid() && |cycles| == i && RulesNow() == r
        invariant Followed(old(files), files, cycles, delivered, ops, maxEvents)
        invariant Polled(r, names, polls, cycles)
      {
        var ok, more, phases;
        ok, more, phases := PollCycle(polls[i]);
        if !ok {
          break;
        }
        OneMorePolled(r, names, polls, cycles, Cycle(files, phases));
        OneMoreFollowed(old(files), cycles, delivered, Cycle(files, phases), ops, maxEvents);
        delivered := delivered + more;
        cycles := cycles + [Cycle(files, phases)];
      }
      assert RulesNow() == r && Polled(r, names, polls, cycles);
      if ops == {} && maxEvents <= 0 {
        DeliveredEventsTelescope(old(files), cycles, maxEvents);
      }
    }
  }

  lemma FilteredPrefix(evts: seq<Event>, n: nat, ops: set<Op>)
    requires 0 < n <= |evts|
    ensures ops == {} || evts[n - 1].op in ops ==> Filtered(evts[..n], ops) == Filtered(evts[..n - 1], ops) + [evts[n - 1]]
    ensures ops != {} && evts[n - 1].op !in ops ==> Filtered(evts[..n], ops) == Filtered(evts[..n - 1], ops)
    ensures exists rest :: Filtered(evts, ops) == Filtered(evts[..n], ops) + rest
  {
    assert evts[..n][..n - 1] == evts[..n - 1];
    assert evts == evts[..n] + evts[n..];
    FilteredSum(evts[..n], evts[n..], ops);
  }

  lemma DeliveredIsEmitted(evts: seq<Event>, ops: set<Op>, maxEvents: int)
    ensures forall e | e in Capped(Filtered(evts, ops), maxEvents) :: e in evts
  {
    FilteredFrom(evts, ops);
  }

  /** Every event is about paths of the two snapshots. */
  lemma EmittedPaths(was: Files, now: Files, ph: Phases)
    requires IsEmission(was, now, ph)
    ensures forall e | e in Emitted(was, now, ph) ::
      (e.path in was || e.path in now) && (e.op != Create ==> e.oldPath in was || e.oldPath in now)
  {
    OrderIsCommon(was, now, ph.order);
    ChangesAreChanges(was, now, ph.order);
    ChangedPaths(was, now, ph.order);
    forall e | e in ph.moves ensures e.path in now && e.oldPath in was {
      assert IsMove(was, now, e);
    }
  }

  lemma {:induction false} ChangedPaths(was: Files, now: Files, order: seq<string>)
    requires forall p | p in order :: p in Common(was, now)
    ensures forall e | e in ChangesInOrder(was, now, order) :: e.oldPath in Common(was, now)
  {
    if order != [] {
      assert order[|order| - 1] in order;
      ChangedPaths(was, now, order[..|order| - 1]);
    }
  }
}
